/** Lease exclusion: no message ever has two live dispatches, and exactly when. */
module OutboxLease {
  import opened Domain
  import opened Messages
  import opened Outbox

  /** Operator PUTs the lease tolerates. */
  predicate Tolerated(c: Config, step: Step) {
    step.Put? ==> step.target.Sent? || (step.target.Pending? && c.perAttempt < c.lease)
  }

  predicate AllTolerated(c: Config, steps: seq<Step>) {
    forall i | 0 <= i < |steps| :: Tolerated(c, steps[i])
  }

  predicate NoPut(steps: seq<Step>) {
    forall i | 0 <= i < |steps| :: !steps[i].Put?
  }

  predicate HeldStatus(c: Config, status: Status) {
    status.Sending? || status.Sent? || (status.Pending? && c.perAttempt < c.lease)
  }

  /** Why nobody else can claim the row of a live dispatch: it is past its deadline for good, or
      its schedule lies beyond the end of the dispatch and no Resend can pull it forward. */
  predicate Shielded(c: Config, s: State, d: Dispatch) {
    && d.id in s.table
    && d.claimedAt <= s.now <= d.claimedAt + c.perAttempt
    && (Overdue(s.table[d.id], s.now)
        || (s.table[d.id].nextAttemptAt >= d.claimedAt + c.lease && HeldStatus(c, s.table[d.id].status)))
  }

  predicate LeaseInv(c: Config, s: State) {
    Exclusive(s) && forall w | w in s.live :: Shielded(c, s, s.live[w])
  }

  lemma ShieldedIsNotEligible(c: Config, s: State, d: Dispatch)
    requires c.perAttempt <= c.lease
    requires Shielded(c, s, d)
    ensures !Eligible(s.table[d.id], s.now)
  {}

  /** A live dispatch keeps its message, its claim and its copy of the row, or is the one just
      claimed. */
  lemma LiveAfter(c: Config, s: State, step: Step, w: DispatchId)
    requires Enabled(c, s, step) && w in Next(c, s, step).live
    ensures var d := Next(c, s, step).live[w];
      if step.Claim? && w == step.w then d.id == step.id && d.claimedAt == s.now
      else w in s.live && d == s.live[w].(phase := d.phase, settled := d.settled, resent := d.resent)
  {}

  lemma ExclusionKept(c: Config, s: State, step: Step)
    requires Exclusive(s) && Enabled(c, s, step)
    requires step.Claim? ==> forall v | v in s.live :: s.live[v].id != step.id
    ensures Exclusive(Next(c, s, step))
  {
    var s' := Next(c, s, step);
    forall v, w | v in s'.live && w in s'.live && v != w ensures s'.live[v].id != s'.live[w].id {
      LiveAfter(c, s, step, v);
      LiveAfter(c, s, step, w);
    }
  }

  lemma ShieldKept(c: Config, s: State, step: Step, w: DispatchId)
    requires LeaseInv(c, s) && Enabled(c, s, step) && Tolerated(c, step)
    requires c.perAttempt <= c.lease
    requires w in Next(c, s, step).live
    ensures Shielded(c, Next(c, s, step), Next(c, s, step).live[w])
  {
    LiveAfter(c, s, step, w);
    if step.Claim? && w != step.w {
      ShieldedIsNotEligible(c, s, s.live[w]);
    }
    if w in s.live {
      assert Shielded(c, s, s.live[w]);
    }
    if (step.MarkSent? || step.MarkFailed?) && step.w != w {
      assert s.live[step.w].id != s.live[w].id;
    }
  }

  lemma StepKeepsLease(c: Config, s: State, step: Step)
    requires c.perAttempt <= c.lease
    requires LeaseInv(c, s) && Enabled(c, s, step) && Tolerated(c, step)
    ensures LeaseInv(c, Next(c, s, step))
  {
    if step.Claim? {
      forall v | v in s.live ensures s.live[v].id != step.id {
        ShieldedIsNotEligible(c, s, s.live[v]);
      }
    }
    ExclusionKept(c, s, step);
    forall w | w in Next(c, s, step).live ensures Shielded(c, Next(c, s, step), Next(c, s, step).live[w]) {
      ShieldKept(c, s, step, w);
    }
  }

  lemma {:induction false} RunKeepsLease(c: Config, s: State, steps: seq<Step>)
    requires c.perAttempt <= c.lease
    requires LeaseInv(c, s) && Run(c, s, steps).Some? && AllTolerated(c, steps)
    ensures LeaseInv(c, Run(c, s, steps).value)
    decreases |steps|
  {
    if steps != [] {
      RunKeepsLease(c, s, ButLast(steps));
      StepKeepsLease(c, Run(c, s, ButLast(steps)).value, Last(steps));
    }
  }

  ghost predicate AlwaysExclusive(c: Config) {
    forall steps | Run(c, Init(), steps).Some? && NoPut(steps) :: Exclusive(Run(c, Init(), steps).value)
  }

  predicate PutsToPendingOrSent(steps: seq<Step>) {
    forall i | 0 <= i < |steps| && steps[i].Put? :: steps[i].target.Pending? || steps[i].target.Sent?
  }

  ghost predicate AlwaysExclusiveUnderPut(c: Config) {
    forall steps | Run(c, Init(), steps).Some? && PutsToPendingOrSent(steps) ::
      Exclusive(Run(c, Init(), steps).value)
  }

  /** Grows a run by one step. */
  lemma Extend(c: Config, s: State, steps: seq<Step>, mid: State, step: Step) returns (longer: seq<Step>, next: State)
    requires Run(c, s, steps) == Some(mid) && Enabled(c, mid, step)
    ensures longer == steps + [step] && next == Next(c, mid, step)
    ensures Run(c, s, longer) == Some(next)
  {
    longer, next := steps + [step], Next(c, mid, step);
    assert ButLast(longer) == steps;
  }

  /** Every dispatch can crash at any point: from every state a run leads to the same table with no
      dispatch left. */
  lemma {:induction false} AllCanCrash(c: Config, start: State, steps: seq<Step>, s: State)
    returns (longer: seq<Step>, s': State)
    requires Run(c, start, steps) == Some(s)
    ensures Run(c, start, longer) == Some(s') && s'.now == s.now && s'.table == s.table && s'.live == map[]
    decreases |s.live|
  {
    longer, s' := steps, s;
    if s.live != map[] {
      var w :| w in s.live;
      var more, next := Extend(c, start, steps, s, Abandon(w));
      assert next.live.Keys == s.live.Keys - {w};
      longer, s' := AllCanCrash(c, start, more, next);
    }
  }

  /** SKIP LOCKED reaches every eligible row: it can be claimed exactly when it is eligible, given what
      other transactions have locked, and a locked row never is. */
  lemma ClaimableExactly(c: Config, s: State, w: DispatchId, id: MessageId)
    requires w !in s.live
    ensures (exists locked :: Enabled(c, s, Claim(w, id, locked))) <==> id in s.table && Eligible(s.table[id], s.now)
    ensures forall locked | Enabled(c, s, Claim(w, id, locked)) :: id !in locked
  {
    if id in s.table && Eligible(s.table[id], s.now) {
      assert Enabled(c, s, Claim(w, id, s.table.Keys - {id}));
    }
  }

  /** Operators may PUT exactly the statuses other than SENDING, at any time, and a PUT writes the status
      and the stamp alone. */
  lemma PutsExactly(c: Config, s: State, id: MessageId, target: Status)
    requires id in s.table && s.table[id].deletedAt.None?
    ensures Enabled(c, s, Put(id, target)) <==> target != Sending
    ensures target != Sending ==>
      Next(c, s, Put(id, target)) == s.(table := s.table[id := s.table[id].(status := target, modifiedAt := s.now)])
  {}

  /** One row, inserted and claimed at time zero. */
  lemma OneClaim(c: Config, maxAttempts: int, timeoutAt: Option<int>) returns (steps: seq<Step>, s: State)
    requires maxAttempts >= 1 && (timeoutAt.Some? ==> timeoutAt.value > 0)
    ensures Run(c, Init(), steps) == Some(s) && NoPut(steps)
    ensures s.now == 0 && s.table == map[0 := Claimed(Inserted(maxAttempts, timeoutAt, 0), 0, c.lease)]
    ensures s.live == map[0 := Dispatch(0, s.table[0], 0, Preparing, false, false, 0)]
  {
    steps, s := Extend(c, Init(), [], Init(), Insert(0, maxAttempts, timeoutAt));
    steps, s := Extend(c, Init(), steps, s, Claim(0, 0, {}));
  }

  /** An attempt that outlives its lease meets a second dispatch of its row. */
  lemma TwoClaims(c: Config) returns (steps: seq<Step>, s: State)
    requires c.perAttempt > c.lease
    ensures Run(c, Init(), steps) == Some(s) && NoPut(steps)
    ensures s.table.Keys == {0} && s.table[0].attempts == 2 && s.table[0].maxAttempts == 1
    ensures s.live.Keys == {0, 1} && s.live[0].id == s.live[1].id == 0
    ensures s.live[0].phase.Preparing? && s.live[1].phase.Preparing?
  {
    steps, s := OneClaim(c, 1, None);
    steps, s := Extend(c, Init(), steps, s, Tick(c.lease + 1));
    steps, s := Extend(c, Init(), steps, s, Claim(1, 0, {}));
  }

  /** An attempt as long as the lease meets a second dispatch once its row was put to PENDING. */
  lemma PutPendingDoubles(c: Config) returns (steps: seq<Step>, s: State)
    requires c.perAttempt >= c.lease
    ensures Run(c, Init(), steps) == Some(s) && PutsToPendingOrSent(steps)
    ensures 0 in s.live && 1 in s.live && s.live[0].id == s.live[1].id
  {
    steps, s := OneClaim(c, 1, None);
    steps, s := Extend(c, Init(), steps, s, Put(0, Pending));
    steps, s := Extend(c, Init(), steps, s, Tick(c.lease));
    steps, s := Extend(c, Init(), steps, s, Claim(1, 0, {}));
  }

  /** With operators limited to PENDING and SENT at any time, and Resend, sweeps, crashes and
      lost writes at any time, exclusion holds in every run exactly when an attempt is strictly
      shorter than the lease. */
  lemma LeaseExclusion(c: Config)
    ensures AlwaysExclusiveUnderPut(c) <==> c.perAttempt < c.lease
  {
    if c.perAttempt < c.lease {
      forall steps | Run(c, Init(), steps).Some? && PutsToPendingOrSent(steps)
        ensures Exclusive(Run(c, Init(), steps).value)
      {
        RunKeepsLease(c, Init(), steps);
      }
    } else {
      var steps, s := PutPendingDoubles(c);
    }
  }

  /** Without operator PUT an attempt as long as the lease is still safe, because an expired
      lease is claimable only strictly after its end; one unit longer is not. */
  lemma LeaseExclusionWithoutPut(c: Config)
    ensures AlwaysExclusive(c) <==> c.perAttempt <= c.lease
  {
    if c.perAttempt <= c.lease {
      forall steps | Run(c, Init(), steps).Some? && NoPut(steps)
        ensures Exclusive(Run(c, Init(), steps).value)
      {
        RunKeepsLease(c, Init(), steps);
      }
    } else {
      var steps, s := TwoClaims(c);
    }
  }

  // ----- Every operator PUT, and the one Resend that breaks the lease

  /** A Resend that takes effect on the row of a live dispatch before the row's deadline. */
  predicate Loud(s: State, step: Step) {
    && step.Resend? && step.id in s.table
    && Resendable(s.table[step.id]) && s.table[step.id].deletedAt.None?
    && !Overdue(s.table[step.id], s.now)
    && exists w :: w in s.live && s.live[w].id == step.id
  }

  predicate Scheduled(c: Config, s: State, d: Dispatch) {
    && d.id in s.table && s.table[d.id].deletedAt.None?
    && d.claimedAt <= s.now <= d.claimedAt + c.perAttempt
    && (Overdue(s.table[d.id], s.now) || s.table[d.id].nextAttemptAt >= d.claimedAt + c.lease)
  }

  predicate ScheduleInv(c: Config, s: State) {
    Exclusive(s) && forall w | w in s.live :: Scheduled(c, s, s.live[w])
  }

  /** No step of the run is a loud Resend. */
  predicate Quiet(c: Config, s: State, steps: seq<Step>)
    decreases |steps|
  {
    steps == [] ||
    (Quiet(c, s, ButLast(steps)) &&
     (Run(c, s, ButLast(steps)).Some? ==> !Loud(Run(c, s, ButLast(steps)).value, Last(steps))))
  }

  lemma ScheduleKept(c: Config, s: State, step: Step, w: DispatchId)
    requires c.perAttempt < c.lease
    requires ScheduleInv(c, s) && Enabled(c, s, step) && !Loud(s, step)
    requires w in Next(c, s, step).live
    ensures Scheduled(c, Next(c, s, step), Next(c, s, step).live[w])
  {
    LiveAfter(c, s, step, w);
    if w in s.live {
      assert Scheduled(c, s, s.live[w]);
    }
    if (step.MarkSent? || step.MarkFailed?) && step.w != w {
      assert s.live[step.w].id != s.live[w].id;
    }
  }

  lemma QuietStepKeepsSchedule(c: Config, s: State, step: Step)
    requires c.perAttempt < c.lease
    requires ScheduleInv(c, s) && Enabled(c, s, step) && !Loud(s, step)
    ensures ScheduleInv(c, Next(c, s, step))
  {
    if step.Claim? {
      forall v | v in s.live ensures s.live[v].id != step.id {
        assert Scheduled(c, s, s.live[v]);
      }
    }
    ExclusionKept(c, s, step);
    forall w | w in Next(c, s, step).live ensures Scheduled(c, Next(c, s, step), Next(c, s, step).live[w]) {
      ScheduleKept(c, s, step, w);
    }
  }

  /** With operators free to PUT every status they may assign, exclusion still holds in every
      run without a loud Resend. */
  lemma {:induction false} QuietRunsAreExclusive(c: Config, s: State, steps: seq<Step>)
    requires c.perAttempt < c.lease
    requires ScheduleInv(c, s) && Run(c, s, steps).Some? && Quiet(c, s, steps)
    ensures ScheduleInv(c, Run(c, s, steps).value) && Exclusive(Run(c, s, steps).value)
    decreases |steps|
  {
    if steps != [] {
      QuietRunsAreExclusive(c, s, ButLast(steps));
      QuietStepKeepsSchedule(c, Run(c, s, ButLast(steps)).value, Last(steps));
    }
  }

  /** Some claim right after the Resend gives the row a second live dispatch. */
  ghost predicate ReclaimableAfter(c: Config, s: State, id: MessageId)
    requires id in s.table
  {
    exists w, locked ::
      && Enabled(c, Next(c, s, Resend(id)), Claim(w, id, locked))
      && !Exclusive(Next(c, Next(c, s, Resend(id)), Claim(w, id, locked)))
  }

  lemma FreshDispatch(live: map<DispatchId, Dispatch>) returns (w: DispatchId)
    ensures w !in live
  {
    w := MaxPlusOne(live.Keys);
  }

  /** The guard of `Loud` is exact: in every such state a Resend lets the next claim double a
      dispatch if and only if it is loud. */
  lemma LoudResendIsExactlyTheBreach(c: Config, s: State, id: MessageId)
    requires c.perAttempt < c.lease
    requires ScheduleInv(c, s) && id in s.table
    ensures ReclaimableAfter(c, s, id) <==> Loud(s, Resend(id))
  {
    if Loud(s, Resend(id)) {
      var s1 := Next(c, s, Resend(id));
      var w := FreshDispatch(s1.live);
      var locked := s1.table.Keys - {id};
      assert Enabled(c, s1, Claim(w, id, locked));
      var v :| v in s.live && s.live[v].id == id;
      var s2 := Next(c, s1, Claim(w, id, locked));
      assert s2.live[v].id == s2.live[w].id && v != w;
    } else {
      forall w, locked | Enabled(c, Next(c, s, Resend(id)), Claim(w, id, locked))
        ensures Exclusive(Next(c, Next(c, s, Resend(id)), Claim(w, id, locked)))
      {
        var s1 := Next(c, s, Resend(id));
        QuietStepKeepsSchedule(c, s, Resend(id));
        QuietStepKeepsSchedule(c, s1, Claim(w, id, locked));
      }
    }
  }

  /** A loud Resend is reachable once an operator PUTs FAILED on an in-flight row. */
  lemma OperatorOverrideMakesResendLoud(c: Config)
    ensures exists steps :: Run(c, Init(), steps).Some? && Loud(Run(c, Init(), steps).value, Resend(0))
  {
    var steps, s := OneClaim(c, 1, None);
    steps, s := Extend(c, Init(), steps, s, Put(0, Failed));
    assert 0 in s.live && s.live[0].id == 0;
    assert Loud(s, Resend(0));
  }
}
