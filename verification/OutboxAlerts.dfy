/** The alert: after a failed attempt the worker picks its counter and its Slack branch from its own
    copy of the row, mirroring the CASE of the statement. When the two agree. */
module OutboxAlerts {
  import opened Domain
  import opened Messages
  import opened Outbox
  import opened OutboxLease
  import opened OutboxSchedule
  import Backoff

  predicate SnapshotFits(s: State, d: Dispatch) {
    && d.id in s.table && 1 <= d.snapshot.maxAttempts == s.table[d.id].maxAttempts
    && s.table[d.id].attempts == if d.resent then 0 else d.snapshot.attempts
  }

  /** The worker's counter and Slack branch name the status that the statement wrote. */
  predicate Mirrors(e: Event)
    requires e.FailureReported?
  {
    e.permanentBranch <==> e.wrote.PermanentFailed?
  }

  /** Live dispatches know their row's attempts, and every report so far mirrors the table except
      those of a last attempt whose row was resent meanwhile. */
  predicate AlertsFit(s: State) {
    && (forall id | id in s.table :: s.table[id].maxAttempts >= 1)
    && (forall w | w in s.live :: SnapshotFits(s, s.live[w]))
    && (forall k | 0 <= k < |s.log| && s.log[k].FailureReported? ::
          && (s.log[k].wrote.PermanentFailed? || s.log[k].wrote.Failed?)
          && (Mirrors(s.log[k]) <==> !(s.log[k].resent && s.log[k].permanentBranch)))
  }

  /** No step claims the row of a live dispatch. */
  predicate Unclaimable(s: State, step: Step) {
    step.Claim? ==> forall w | w in s.live :: s.live[w].id != step.id
  }

  lemma SnapshotKept(c: Config, s: State, step: Step, w: DispatchId)
    requires AlertsFit(s) && Exclusive(s) && Enabled(c, s, step) && Unclaimable(s, step)
    requires w in Next(c, s, step).live
    ensures SnapshotFits(Next(c, s, step), Next(c, s, step).live[w])
  {
    if w in s.live {
      assert SnapshotFits(s, s.live[w]);
    }
  }

  lemma ReportKept(c: Config, s: State, step: Step, k: nat)
    requires AlertsFit(s) && Enabled(c, s, step)
    requires k < |Next(c, s, step).log| && Next(c, s, step).log[k].FailureReported?
    ensures var e := Next(c, s, step).log[k];
      && (e.wrote.PermanentFailed? || e.wrote.Failed?)
      && (Mirrors(e) <==> !(e.resent && e.permanentBranch))
  {
    var s' := Next(c, s, step);
    if k < |s.log| {
      assert s'.log[k] == s.log[k];
    } else if step.MarkFailed? {
      assert SnapshotFits(s, s.live[step.w]);
    }
  }

  lemma StepKeepsAlerts(c: Config, s: State, step: Step)
    requires AlertsFit(s) && Exclusive(s) && Enabled(c, s, step) && Unclaimable(s, step)
    ensures AlertsFit(Next(c, s, step))
  {
    var s' := Next(c, s, step);
    forall id | id in s'.table ensures s'.table[id].maxAttempts >= 1 {
      if id in s.table { StepKeepsContract(c, s, step, id); }
    }
    forall w | w in s'.live ensures SnapshotFits(s', s'.live[w]) {
      SnapshotKept(c, s, step, w);
    }
    forall k | 0 <= k < |s'.log| && s'.log[k].FailureReported?
      ensures s'.log[k].wrote.PermanentFailed? || s'.log[k].wrote.Failed?
      ensures Mirrors(s'.log[k]) <==> !(s'.log[k].resent && s'.log[k].permanentBranch)
    {
      ReportKept(c, s, step, k);
    }
  }

  /** In every run without a loud Resend, every operator PUT included, a reported failure names the
      status that was written if and only if it is not the case that the row was resent during the
      attempt and the attempt was the last one by the worker's own copy. */
  lemma {:induction false} AlertMirrorsTable(c: Config, s: State, steps: seq<Step>)
    requires c.perAttempt < c.lease
    requires ScheduleInv(c, s) && AlertsFit(s) && Run(c, s, steps).Some? && Quiet(c, s, steps)
    ensures ScheduleInv(c, Run(c, s, steps).value) && AlertsFit(Run(c, s, steps).value)
    decreases |steps|
  {
    if steps != [] {
      AlertMirrorsTable(c, s, ButLast(steps));
      var mid, step := Run(c, s, ButLast(steps)).value, Last(steps);
      QuietStepKeepsSchedule(c, mid, step);
      assert forall w | w in mid.live :: Scheduled(c, mid, mid.live[w]);
      StepKeepsAlerts(c, mid, step);
    }
  }

  /** With PUT limited to what the lease tolerates the same holds in every run, every Resend
      included, and for attempts as long as the lease. */
  lemma {:induction false} AlertMirrorsTableUnderLease(c: Config, s: State, steps: seq<Step>)
    requires c.perAttempt <= c.lease
    requires LeaseInv(c, s) && AlertsFit(s) && Run(c, s, steps).Some? && AllTolerated(c, steps)
    ensures LeaseInv(c, Run(c, s, steps).value) && AlertsFit(Run(c, s, steps).value)
    decreases |steps|
  {
    if steps != [] {
      AlertMirrorsTableUnderLease(c, s, ButLast(steps));
      var mid, step := Run(c, s, ButLast(steps)).value, Last(steps);
      StepKeepsLease(c, mid, step);
      forall w | w in mid.live && step.Claim? ensures mid.live[w].id != step.id {
        ShieldedIsNotEligible(c, mid, mid.live[w]);
      }
      StepKeepsAlerts(c, mid, step);
    }
  }

  /** A last attempt whose row is swept at its deadline and then resent. */
  lemma ResentDuringLastAttempt(c: Config) returns (steps: seq<Step>, s: State)
    requires 1 <= c.perAttempt
    ensures Run(c, Init(), steps) == Some(s) && NoPut(steps)
    ensures 0 in s.table && s.table[0].attempts == 0 && s.table[0].maxAttempts == 1
    ensures 0 in s.live && s.live[0].id == 0 && s.live[0].phase.Preparing?
    ensures s.live[0].snapshot.attempts == s.live[0].snapshot.maxAttempts == 1
  {
    steps, s := OneClaim(c, 1, Some(1));
    steps, s := Extend(c, Init(), steps, s, Tick(1));
    steps, s := Extend(c, Init(), steps, s, Sweep);
    steps, s := Extend(c, Init(), steps, s, Resend(0));
  }

  /** Both sides of the condition are reachable: the failure of that attempt is reported as
      permanent while FAILED is written. */
  lemma AlertCanMisreport(c: Config) returns (steps: seq<Step>, s: State)
    requires 1 <= c.perAttempt
    ensures Run(c, Init(), steps) == Some(s) && NoPut(steps)
    ensures s.log != [] && Last(s.log).FailureReported? && !Mirrors(Last(s.log))
  {
    steps, s := ResentDuringLastAttempt(c);
    Backoff.ZeroIsPossible(1, c.baseBackoff, c.maxBackoff);
    steps, s := Extend(c, Init(), steps, s, AttemptFails(0, "x", 0));
    steps, s := Extend(c, Init(), steps, s, MarkFailed(0, Applied));
  }

  // In every run, without any assumption, a report compares two counts.

  /** The dispatch's copy of the row counts the claims as of its own claim. */
  predicate CopyCounted(s: State, d: Dispatch) {
    && d.id in s.table && d.snapshot.maxAttempts == s.table[d.id].maxAttempts
    && d.claim < |s.log| && s.log[d.claim] == RowClaimed(d.id, d.claimedAt)
    && ClaimsSinceResend(s.log[..d.claim + 1], d.id) == d.snapshot.attempts
  }

  /** The claims of the message since its last Resend had reached its limit after the first n events. */
  predicate Exhausted(s: State, id: MessageId, n: nat)
    requires id in s.table && n <= |s.log|
  {
    ClaimsSinceResend(s.log[..n], id) >= s.table[id].maxAttempts
  }

  /** The worker's branch says whether the claims had reached the limit at the attempt's own claim,
      the written status whether they have at the write. */
  predicate ReportCounted(s: State, k: nat)
    requires k < |s.log| && s.log[k].FailureReported?
  {
    var e := s.log[k];
    && e.id in s.table && e.claim < k && s.log[e.claim].RowClaimed? && s.log[e.claim].id == e.id
    && (e.permanentBranch <==> Exhausted(s, e.id, e.claim + 1))
    && (e.wrote.PermanentFailed? <==> Exhausted(s, e.id, k))
  }

  ghost predicate CountsInv(s: State) {
    && AttemptsCounted(s)
    && (forall w | w in s.live :: CopyCounted(s, s.live[w]))
    && (forall k | 0 <= k < |s.log| && s.log[k].FailureReported? :: ReportCounted(s, k))
  }

  lemma LogGrows(c: Config, s: State, step: Step)
    requires Enabled(c, s, step)
    ensures var log' := Next(c, s, step).log;
      |s.log| <= |log'| <= |s.log| + 1 && forall k | 0 <= k <= |s.log| :: log'[..k] == s.log[..k]
  {}

  lemma OldCopyKept(c: Config, s: State, step: Step, w: DispatchId)
    requires CountsInv(s) && Enabled(c, s, step) && w in s.live && w in Next(c, s, step).live
    ensures CopyCounted(Next(c, s, step), Next(c, s, step).live[w])
  {
    var s', d := Next(c, s, step), s.live[w];
    assert CopyCounted(s, d);
    LiveAfter(c, s, step, w);
    StepKeepsContract(c, s, step, d.id);
    LogGrows(c, s, step);
    assert s'.log[..d.claim + 1] == s.log[..d.claim + 1];
    assert s'.log[d.claim] == s'.log[..d.claim + 1][d.claim] == s.log[d.claim];
  }

  lemma NewCopyCounted(c: Config, s: State, step: Step)
    requires AttemptsCounted(s) && Enabled(c, s, step) && step.Claim?
    ensures CopyCounted(Next(c, s, step), Next(c, s, step).live[step.w])
  {
    StepCountsClaims(c, s, step);
    assert Next(c, s, step).log[..|s.log| + 1] == Next(c, s, step).log;
  }

  lemma OldReportKept(c: Config, s: State, step: Step, k: nat)
    requires CountsInv(s) && Enabled(c, s, step) && k < |s.log| && s.log[k].FailureReported?
    ensures k < |Next(c, s, step).log| && Next(c, s, step).log[k] == s.log[k]
    ensures ReportCounted(Next(c, s, step), k)
  {
    var s', e := Next(c, s, step), s.log[k];
    assert ReportCounted(s, k);
    LogGrows(c, s, step);
    StepKeepsContract(c, s, step, e.id);
    assert s'.log[k] == s'.log[..k + 1][k] == s.log[k];
    assert s'.log[..k] == s.log[..k] && s'.log[..e.claim + 1] == s.log[..e.claim + 1];
    assert s'.log[e.claim] == s'.log[..k][e.claim] == s.log[e.claim];
  }

  lemma NewReportCounted(c: Config, s: State, step: Step)
    requires CountsInv(s) && Enabled(c, s, step) && step.MarkFailed? && step.outcome.Applied?
    ensures var s' := Next(c, s, step);
      |s'.log| == |s.log| + 1 && s'.log[|s.log|].FailureReported? && ReportCounted(s', |s.log|)
  {
    var s', d := Next(c, s, step), s.live[step.w];
    assert CopyCounted(s, d);
    assert s'.log[..|s.log|] == s.log && s'.log[..d.claim + 1] == s.log[..d.claim + 1];
  }

  lemma OnlyMarkFailedReports(c: Config, s: State, step: Step)
    requires Enabled(c, s, step) && !(step.MarkFailed? && step.outcome.Applied?)
    ensures var log' := Next(c, s, step).log;
      |log'| > |s.log| ==> !log'[|s.log|].FailureReported?
  {}

  lemma StepKeepsCounts(c: Config, s: State, step: Step)
    requires CountsInv(s) && Enabled(c, s, step)
    ensures CountsInv(Next(c, s, step))
  {
    var s' := Next(c, s, step);
    StepCountsClaims(c, s, step);
    LogGrows(c, s, step);
    forall w | w in s'.live ensures CopyCounted(s', s'.live[w]) {
      if w in s.live {
        OldCopyKept(c, s, step, w);
      } else {
        LiveAfter(c, s, step, w);
        NewCopyCounted(c, s, step);
      }
    }
    forall k | 0 <= k < |s'.log| && s'.log[k].FailureReported? ensures ReportCounted(s', k) {
      if k < |s.log| {
        assert s'.log[k] == s'.log[..k + 1][k] == s.log[..k + 1][k] == s.log[k];
        OldReportKept(c, s, step, k);
      } else if step.MarkFailed? && step.outcome.Applied? {
        NewReportCounted(c, s, step);
      } else {
        OnlyMarkFailedReports(c, s, step);
      }
    }
  }

  lemma {:induction false} RunKeepsCounts(c: Config, s: State, steps: seq<Step>)
    requires CountsInv(s) && Run(c, s, steps).Some?
    ensures CountsInv(Run(c, s, steps).value)
    decreases |steps|
  {
    if steps != [] {
      RunKeepsCounts(c, s, ButLast(steps));
      StepKeepsCounts(c, Run(c, s, ButLast(steps)).value, Last(steps));
    }
  }

  /** The exact condition in every run, whatever operators do and however long attempts take: a
      reported failure names the status that was written if and only if the claims since the last
      Resend stood on the same side of the limit at the attempt's own claim and at its write. */
  lemma AlertMirrorsExactly(c: Config, steps: seq<Step>, k: nat)
    requires Run(c, Init(), steps).Some?
    requires var s := Run(c, Init(), steps).value; k < |s.log| && s.log[k].FailureReported?
    ensures var s := Run(c, Init(), steps).value; var e := s.log[k];
      && e.id in s.table && e.claim < k && s.log[e.claim].RowClaimed? && s.log[e.claim].id == e.id
      && (Mirrors(e) <==> (Exhausted(s, e.id, e.claim + 1) <==> Exhausted(s, e.id, k)))
  {
    RunKeepsCounts(c, Init(), steps);
    assert ReportCounted(Run(c, Init(), steps).value, k);
  }

  /** A loud Resend gives the row a second dispatch, whose copy of the row goes stale. */
  lemma DoubledByLoudResend(c: Config) returns (steps: seq<Step>, s: State)
    ensures Run(c, Init(), steps) == Some(s) && s.now == 0
    ensures s.table.Keys == {0} && s.table[0] == Claimed(Resent(s.table[0], 0), 0, c.lease)
    ensures s.table[0].maxAttempts == 2 && s.table[0].timeoutAt.None? && s.table[0].deletedAt.None?
    ensures s.live.Keys == {0, 1} && s.live[0].id == s.live[1].id == 0
    ensures s.live[0].phase.Preparing? && s.live[0].snapshot.attempts == 1
    ensures s.live[1].snapshot == s.table[0] && s.live[1].phase.Preparing? && !s.live[1].resent
  {
    steps, s := OneClaim(c, 2, None);
    steps, s := Extend(c, Init(), steps, s, Put(0, Failed));
    steps, s := Extend(c, Init(), steps, s, Resend(0));
    steps, s := Extend(c, Init(), steps, s, Claim(1, 0, {}));
  }

  /** The first dispatch fails and leaves the row FAILED, due at once; an operator reopens it. */
  lemma ReopenedUnderSecondDispatch(c: Config) returns (steps: seq<Step>, s: State)
    ensures Run(c, Init(), steps) == Some(s) && s.now == 0
    ensures s.table.Keys == {0} && s.table[0].status.Pending? && s.table[0].nextAttemptAt == 0
    ensures s.table[0].attempts == 1 && s.table[0].maxAttempts == 2
    ensures s.table[0].timeoutAt.None? && s.table[0].deletedAt.None?
    ensures s.live.Keys == {1} && s.live[1].id == 0 && s.live[1].phase.Preparing? && !s.live[1].resent
    ensures s.live[1].snapshot.attempts == 1 && s.live[1].snapshot.maxAttempts == 2
  {
    steps, s := DoubledByLoudResend(c);
    Backoff.ZeroIsPossible(1, c.baseBackoff, c.maxBackoff);
    steps, s := Extend(c, Init(), steps, s, AttemptFails(0, "x", 0));
    steps, s := Extend(c, Init(), steps, s, MarkFailed(0, Applied));
    steps, s := Extend(c, Init(), steps, s, Put(0, Pending));
  }

  /** After a loud Resend the condition no longer tells: an attempt during which its row was not
      resent reports a retry while PERMANENT_FAILED is written. */
  lemma LoudResendMisreports(c: Config) returns (steps: seq<Step>, s: State)
    ensures Run(c, Init(), steps) == Some(s)
    ensures s.log != [] && Last(s.log).FailureReported? && !Last(s.log).resent && !Mirrors(Last(s.log))
  {
    steps, s := ReopenedUnderSecondDispatch(c);
    steps, s := Extend(c, Init(), steps, s, Claim(2, 0, {}));
    Backoff.ZeroIsPossible(1, c.baseBackoff, c.maxBackoff);
    steps, s := Extend(c, Init(), steps, s, AttemptFails(1, "y", 0));
    steps, s := Extend(c, Init(), steps, s, MarkFailed(1, Applied));
  }

  /** From boot. */
  lemma AlertsFromBoot(c: Config, steps: seq<Step>)
    requires Run(c, Init(), steps).Some?
    requires (c.perAttempt < c.lease && Quiet(c, Init(), steps)) || (c.perAttempt <= c.lease && AllTolerated(c, steps))
    ensures AlertsFit(Run(c, Init(), steps).value)
  {
    if c.perAttempt < c.lease && Quiet(c, Init(), steps) {
      AlertMirrorsTable(c, Init(), steps);
    } else {
      AlertMirrorsTableUnderLease(c, Init(), steps);
    }
  }
}
