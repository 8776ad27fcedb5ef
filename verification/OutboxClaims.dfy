/** The outbox protocol with the claim as it runs: a transaction fixes its time, locks one
    eligible row, and commits later, while workers, reaper and operators go on. The lease counts
    from the time of the transaction, not from its commit. */
module OutboxClaims {
  import opened Domain
  import opened Messages
  import opened Outbox
  import opened OutboxLease
  import opened SkipLocked

  /** The state of the protocol, and the claims under way. */
  datatype Split = Split(s: State, txns: map<TxnId, Txn>)

  datatype SplitStep =
    | BeginClaim(x: TxnId)
    | LockRow(x: TxnId, id: MessageId)
    | CommitClaim(x: TxnId, w: DispatchId)
    | AbortClaim(x: TxnId)
    | Other(step: Step)

  function Locked(z: Split): set<MessageId> {
    set x | x in z.txns && z.txns[x].Holding? :: z.txns[x].id
  }

  /** A statement that would change a locked row waits for the lock. */
  predicate Unblocked(c: Config, z: Split, step: Step)
    requires Enabled(c, z.s, step)
  {
    forall id | id in Locked(z) && id in z.s.table ::
      id in Next(c, z.s, step).table && Next(c, z.s, step).table[id] == z.s.table[id]
  }

  /** The attempt's deadline counts from the time of the claiming transaction, so the claim
      returns within it. The row need not be the earliest any more when it is locked. */
  predicate SplitEnabled(c: Config, z: Split, step: SplitStep) {
    match step
    case BeginClaim(x) => x !in z.txns
    case LockRow(x, id) =>
      && x in z.txns && z.txns[x].Started?
      && id in z.s.table && id !in Locked(z) && Eligible(z.s.table[id], z.txns[x].at)
    case CommitClaim(x, w) =>
      && x in z.txns && z.txns[x].Holding? && z.txns[x].id in z.s.table && w !in z.s.live
      && z.s.now <= z.txns[x].at + c.perAttempt
    case AbortClaim(x) => x in z.txns
    case Other(step) => !step.Claim? && Enabled(c, z.s, step) && Unblocked(c, z, step)
  }

  function SplitNext(c: Config, z: Split, step: SplitStep): Split
    requires SplitEnabled(c, z, step)
  {
    match step
    case BeginClaim(x) => z.(txns := z.txns[x := Started(z.s.now)])
    case LockRow(x, id) => z.(txns := z.txns[x := Holding(z.txns[x].at, id)])
    case CommitClaim(x, w) => Split(ClaimedAt(c, z.s, z.txns[x].at, z.txns[x].id, w), z.txns - {x})
    case AbortClaim(x) => z.(txns := z.txns - {x})
    case Other(step) => z.(s := Next(c, z.s, step))
  }

  function SplitRun(c: Config, z: Split, steps: seq<SplitStep>): Option<Split>
    decreases |steps|
  {
    if steps == [] then Some(z)
    else match SplitRun(c, z, ButLast(steps))
      case None => None
      case Some(mid) => if SplitEnabled(c, mid, Last(steps)) then Some(SplitNext(c, mid, Last(steps))) else None
  }

  function SplitInit(): Split {
    Split(Init(), map[])
  }

  // ----- The invariant

  /** Past its deadline by its own schedule: no transaction of any time finds it eligible. */
  predicate Spent(m: Message, now: int) {
    Overdue(m, now) && Overdue(m, m.nextAttemptAt)
  }

  /** Why no transaction that began by now can claim the row of a live dispatch. */
  predicate Guarded(c: Config, s: State, d: Dispatch) {
    && d.id in s.table
    && d.claimedAt <= s.now <= d.claimedAt + c.perAttempt
    && var m := s.table[d.id];
       || Spent(m, s.now)
       || (m.nextAttemptAt >= d.claimedAt + c.lease
           && (HeldStatus(c, m.status) || (m.status.TimedOut? && Overdue(m, s.now))))
  }

  lemma GuardedIsNotEligible(c: Config, s: State, d: Dispatch, at: int)
    requires c.perAttempt <= c.lease && Guarded(c, s, d) && at <= s.now
    ensures !Eligible(s.table[d.id], at)
  {}

  predicate TxnFits(z: Split, t: Txn) {
    && t.at <= z.s.now
    && (t.Holding? ==> t.id in z.s.table && Eligible(z.s.table[t.id], t.at))
  }

  predicate LocksDiffer(txns: map<TxnId, Txn>) {
    forall x, y | x in txns && y in txns && x != y && txns[x].Holding? && txns[y].Holding? :: txns[x].id != txns[y].id
  }

  predicate SplitInv(c: Config, z: Split) {
    && Exclusive(z.s) && LocksDiffer(z.txns)
    && (forall w | w in z.s.live :: Guarded(c, z.s, z.s.live[w]))
    && (forall x | x in z.txns :: TxnFits(z, z.txns[x]))
  }

  predicate SplitTolerated(c: Config, step: SplitStep) {
    step.Other? ==> Tolerated(c, step.step)
  }

  lemma GuardKept(c: Config, s: State, step: Step, w: DispatchId)
    requires c.perAttempt <= c.lease && Exclusive(s) && (forall v | v in s.live :: Guarded(c, s, s.live[v]))
    requires Enabled(c, s, step) && !step.Claim? && Tolerated(c, step) && w in Next(c, s, step).live
    ensures Guarded(c, Next(c, s, step), Next(c, s, step).live[w])
  {
    LiveAfter(c, s, step, w);
    assert Guarded(c, s, s.live[w]);
    if (step.MarkSent? || step.MarkFailed?) && step.w != w {
      assert s.live[step.w].id != s.live[w].id;
    }
  }

  lemma TimeMovesOn(c: Config, s: State, step: Step)
    requires Enabled(c, s, step)
    ensures s.now <= Next(c, s, step).now
  {}

  lemma OtherKeepsInv(c: Config, z: Split, step: Step)
    requires c.perAttempt <= c.lease && SplitInv(c, z)
    requires SplitEnabled(c, z, Other(step)) && Tolerated(c, step)
    ensures SplitInv(c, SplitNext(c, z, Other(step)))
  {
    var z' := SplitNext(c, z, Other(step));
    ExclusionKept(c, z.s, step);
    TimeMovesOn(c, z.s, step);
    forall w | w in z'.s.live ensures Guarded(c, z'.s, z'.s.live[w]) {
      GuardKept(c, z.s, step, w);
    }
    forall x | x in z'.txns ensures TxnFits(z', z'.txns[x]) {
      assert TxnFits(z, z.txns[x]);
      if z.txns[x].Holding? { assert z.txns[x].id in Locked(z); }
    }
  }

  lemma NobodyGuards(c: Config, z: Split, x: TxnId)
    requires c.perAttempt <= c.lease && SplitInv(c, z) && x in z.txns && z.txns[x].Holding?
    ensures forall v | v in z.s.live :: z.s.live[v].id != z.txns[x].id
  {
    assert TxnFits(z, z.txns[x]);
    forall v | v in z.s.live ensures z.s.live[v].id != z.txns[x].id {
      GuardedIsNotEligible(c, z.s, z.s.live[v], z.txns[x].at);
    }
  }

  lemma CommitKeepsInv(c: Config, z: Split, x: TxnId, w: DispatchId)
    requires c.perAttempt <= c.lease && SplitInv(c, z) && SplitEnabled(c, z, CommitClaim(x, w))
    ensures SplitInv(c, SplitNext(c, z, CommitClaim(x, w)))
  {
    var z' := SplitNext(c, z, CommitClaim(x, w));
    NobodyGuards(c, z, x);
    assert TxnFits(z, z.txns[x]);
    forall v | v in z'.s.live ensures Guarded(c, z'.s, z'.s.live[v]) {
      if v != w { assert Guarded(c, z.s, z.s.live[v]); }
    }
    forall y | y in z'.txns ensures TxnFits(z', z'.txns[y]) {
      assert TxnFits(z, z.txns[y]);
    }
  }

  lemma TxnStepKeepsInv(c: Config, z: Split, step: SplitStep)
    requires SplitInv(c, z) && SplitEnabled(c, z, step) && !step.Other? && !step.CommitClaim?
    ensures SplitInv(c, SplitNext(c, z, step))
  {
    var z' := SplitNext(c, z, step);
    assert forall x | x in z.txns && z.txns[x].Holding? :: z.txns[x].id in Locked(z);
    forall x | x in z'.txns ensures TxnFits(z', z'.txns[x]) {
      if x in z.txns { assert TxnFits(z, z.txns[x]); }
    }
  }

  lemma {:induction false} SplitRunKeepsInv(c: Config, z: Split, steps: seq<SplitStep>)
    requires c.perAttempt <= c.lease && SplitInv(c, z) && SplitRun(c, z, steps).Some?
    requires forall i | 0 <= i < |steps| :: SplitTolerated(c, steps[i])
    ensures SplitInv(c, SplitRun(c, z, steps).value)
    decreases |steps|
  {
    if steps != [] {
      SplitRunKeepsInv(c, z, ButLast(steps));
      var mid, step := SplitRun(c, z, ButLast(steps)).value, Last(steps);
      match step
      case Other(inner) => OtherKeepsInv(c, mid, inner);
      case CommitClaim(x, w) => CommitKeepsInv(c, mid, x, w);
      case _ => TxnStepKeepsInv(c, mid, step);
    }
  }

  /** A claim keeps the row it locked until it commits or is given up, and no statement changes the row
      meanwhile. */
  lemma LockIsKept(c: Config, z: Split, step: SplitStep, x: TxnId)
    requires SplitInv(c, z) && x in z.txns && z.txns[x].Holding? && SplitEnabled(c, z, step)
    requires step != AbortClaim(x) && !(step.CommitClaim? && step.x == x)
    ensures var z', id := SplitNext(c, z, step), z.txns[x].id;
      && x in z'.txns && z'.txns[x] == z.txns[x]
      && id in z.s.table && id in z'.s.table && z'.s.table[id] == z.s.table[id]
  {
    assert TxnFits(z, z.txns[x]) && z.txns[x].id in Locked(z);
  }

  // ----- Atomic claims are a special case

  lemma SplitExtend(c: Config, steps: seq<SplitStep>, mid: Split, step: SplitStep)
    returns (longer: seq<SplitStep>, next: Split)
    requires SplitRun(c, SplitInit(), steps) == Some(mid) && SplitEnabled(c, mid, step)
    ensures longer == steps + [step] && next == SplitNext(c, mid, step)
    ensures SplitRun(c, SplitInit(), longer) == Some(next)
  {
    longer, next := steps + [step], SplitNext(c, mid, step);
    assert ButLast(longer) == steps;
  }

  /** An atomic claim is one whose transaction nothing interrupts. */
  lemma ClaimAtOnce(c: Config, steps: seq<SplitStep>, s: State, claim: Step) returns (longer: seq<SplitStep>)
    requires SplitRun(c, SplitInit(), steps) == Some(Split(s, map[])) && Enabled(c, s, claim) && claim.Claim?
    ensures longer == steps + [BeginClaim(0), LockRow(0, claim.id), CommitClaim(0, claim.w)]
    ensures SplitRun(c, SplitInit(), longer) == Some(Split(Next(c, s, claim), map[]))
  {
    var z;
    longer, z := SplitExtend(c, steps, Split(s, map[]), BeginClaim(0));
    longer, z := SplitExtend(c, longer, z, LockRow(0, claim.id));
    longer, z := SplitExtend(c, longer, z, CommitClaim(0, claim.w));
    assert z == Split(Next(c, s, claim), map[]);
  }

  predicate SplitNoPut(steps: seq<SplitStep>) {
    forall i | 0 <= i < |steps| && steps[i].Other? :: !steps[i].step.Put?
  }

  predicate SplitPutsToPendingOrSent(steps: seq<SplitStep>) {
    forall i | 0 <= i < |steps| && steps[i].Other? && steps[i].step.Put? ::
      steps[i].step.target.Pending? || steps[i].step.target.Sent?
  }

  /** Every run with atomic claims is a run with split ones. */
  lemma {:induction false} AtomicRunsAreSplit(c: Config, steps: seq<Step>) returns (split: seq<SplitStep>)
    requires Run(c, Init(), steps).Some?
    ensures SplitRun(c, SplitInit(), split) == Some(Split(Run(c, Init(), steps).value, map[]))
    ensures NoPut(steps) ==> SplitNoPut(split)
    ensures PutsToPendingOrSent(steps) ==> SplitPutsToPendingOrSent(split)
    decreases |steps|
  {
    split := [];
    if steps != [] {
      var before := AtomicRunsAreSplit(c, ButLast(steps));
      var s := Run(c, Init(), ButLast(steps)).value;
      if Last(steps).Claim? {
        split := ClaimAtOnce(c, before, s, Last(steps));
      } else {
        var z;
        split, z := SplitExtend(c, before, Split(s, map[]), Other(Last(steps)));
      }
    }
  }

  lemma InsertBesideClaims(c: Config, steps: seq<SplitStep>, z: Split, id: MessageId)
    returns (longer: seq<SplitStep>, z': Split)
    requires SplitRun(c, SplitInit(), steps) == Some(z) && id !in z.s.table
    ensures SplitRun(c, SplitInit(), longer) == Some(z')
    ensures z' == z.(s := z.s.(table := z.s.table[id := Inserted(1, None, z.s.now)]))
  {
    longer, z' := SplitExtend(c, steps, z, Other(Insert(id, 1, None)));
  }

  /** A claim began at time zero; another row was inserted since, and time passed. */
  lemma ClaimUnderWay(c: Config) returns (steps: seq<SplitStep>, z: Split)
    ensures SplitRun(c, SplitInit(), steps) == Some(z)
    ensures var row := Inserted(1, None, 0);
      z == Split(State(1, map[0 := row, 1 := row], map[], []), map[7 := Started(0)])
  {
    var row := Inserted(1, None, 0);
    steps, z := InsertBesideClaims(c, [], SplitInit(), 0);
    steps, z := SplitExtend(c, steps, z, BeginClaim(7));
    assert z == Split(State(0, map[0 := row], map[], []), map[7 := Started(0)]);
    steps, z := InsertBesideClaims(c, steps, z, 1);
    assert z == Split(State(0, map[0 := row, 1 := row], map[], []), map[7 := Started(0)]);
    steps, z := SplitExtend(c, steps, z, Other(Tick(1)));
  }

  /** Claims do overlap with other steps: that one locks its row and commits later still, and its
      lease counts from its start. */
  lemma ClaimCommitsLate(c: Config) returns (steps: seq<SplitStep>, z: Split)
    requires c.perAttempt >= 2
    ensures SplitRun(c, SplitInit(), steps) == Some(z) && z.s.now == 2 && z.txns == map[]
    ensures 0 in z.s.table && z.s.table[0].status.Sending? && z.s.table[0].nextAttemptAt == c.lease
    ensures 0 in z.s.live && z.s.live[0].id == 0 && z.s.live[0].claimedAt == 0
  {
    steps, z := ClaimUnderWay(c);
    steps, z := SplitExtend(c, steps, z, LockRow(7, 0));
    steps, z := SplitExtend(c, steps, z, Other(Tick(2)));
    steps, z := SplitExtend(c, steps, z, CommitClaim(7, 0));
  }

  /** Every claim under way can be given up: from every state a run leads to the same state with no
      claim under way. */
  lemma {:induction false} AllCanAbort(c: Config, steps: seq<SplitStep>, z: Split)
    returns (longer: seq<SplitStep>, z': Split)
    requires SplitRun(c, SplitInit(), steps) == Some(z)
    ensures SplitRun(c, SplitInit(), longer) == Some(z') && z' == Split(z.s, map[])
    decreases |z.txns|
  {
    longer, z' := steps, z;
    if z.txns != map[] {
      var x :| x in z.txns;
      var more, next := SplitExtend(c, steps, z, AbortClaim(x));
      assert next.txns.Keys == z.txns.Keys - {x};
      longer, z' := AllCanAbort(c, more, next);
    }
  }

  // ----- Exclusion

  ghost predicate SplitExclusive(c: Config) {
    forall steps | SplitRun(c, SplitInit(), steps).Some? && SplitNoPut(steps) ::
      Exclusive(SplitRun(c, SplitInit(), steps).value.s)
  }

  ghost predicate SplitExclusiveUnderPut(c: Config) {
    forall steps | SplitRun(c, SplitInit(), steps).Some? && SplitPutsToPendingOrSent(steps) ::
      Exclusive(SplitRun(c, SplitInit(), steps).value.s)
  }

  /** Lease exclusion survives claims that take their time: however a claim's lock and commit
      interleave with everything else, no message has two live dispatches in any run under the
      same two conditions as with atomic claims, and under no weaker ones. */
  lemma SplitLeaseExclusion(c: Config)
    ensures SplitExclusiveUnderPut(c) <==> c.perAttempt < c.lease
    ensures SplitExclusive(c) <==> c.perAttempt <= c.lease
  {
    if c.perAttempt < c.lease {
      forall steps | SplitRun(c, SplitInit(), steps).Some? && SplitPutsToPendingOrSent(steps)
        ensures Exclusive(SplitRun(c, SplitInit(), steps).value.s)
      {
        SplitRunKeepsInv(c, SplitInit(), steps);
      }
    } else {
      var steps, s := PutPendingDoubles(c);
      var split := AtomicRunsAreSplit(c, steps);
    }
    if c.perAttempt <= c.lease {
      forall steps | SplitRun(c, SplitInit(), steps).Some? && SplitNoPut(steps)
        ensures Exclusive(SplitRun(c, SplitInit(), steps).value.s)
      {
        SplitRunKeepsInv(c, SplitInit(), steps);
      }
    } else {
      var steps, s := TwoClaims(c);
      var split := AtomicRunsAreSplit(c, steps);
    }
  }
}
