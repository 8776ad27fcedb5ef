/** What the log of every run with split claims says: the results about duplicate sends, SENT rows,
    columns, deadlines and alerts hold for claims as they run, not for atomic ones alone. */
module OutboxClaimsHistory {
  import opened Domain
  import opened Messages
  import opened Outbox
  import opened OutboxLease
  import opened OutboxHistory
  import opened OutboxSchedule
  import opened OutboxAlerts
  import opened SkipLocked
  import opened OutboxClaims

  /** Everything the log says, of a run without PUT. */
  ghost predicate Chronicle(s: State) {
    Story(s) && SentReports(s) && AllColumnsFit(s) && ClaimsInTime(s)
  }

  lemma CommitKeepsReports(c: Config, s: State, at: int, id: MessageId, w: DispatchId)
    requires SentReports(s) && id in s.table && !s.table[id].status.Sent?
    ensures SentReports(ClaimedAt(c, s, at, id, w))
  {
    var s' := ClaimedAt(c, s, at, id, w);
    assert forall o :: SentReported(o) in s'.log ==> SentReported(o) in s.log;
  }

  lemma CommitKeepsColumns(c: Config, s: State, at: int, id: MessageId, w: DispatchId)
    requires AllColumnsFit(s) && id in s.table && (s.table[id].status.Pending? || s.table[id].status.Sending?)
    ensures AllColumnsFit(ClaimedAt(c, s, at, id, w))
  {
    assert ColumnsFit(s.table[id]);
  }

  lemma CommitKeepsInTime(c: Config, s: State, at: int, id: MessageId, w: DispatchId)
    requires ClaimsInTime(s) && id in s.table && !Overdue(s.table[id], at) && at <= s.now
    ensures ClaimsInTime(ClaimedAt(c, s, at, id, w))
  {
    var s' := ClaimedAt(c, s, at, id, w);
    forall k | 0 <= k < |s'.log| && s'.log[k].RowClaimed?
      ensures s'.log[k].id in s'.table && s'.log[k].at <= s'.now
      ensures !Overdue(s'.table[s'.log[k].id], s'.log[k].at)
    {
      if k < |s.log| { assert s'.log[k] == s.log[k]; }
    }
  }

  lemma CommitKeepsChronicle(c: Config, z: Split, x: TxnId, w: DispatchId)
    requires c.perAttempt <= c.lease && SplitInv(c, z) && Chronicle(z.s) && SplitEnabled(c, z, CommitClaim(x, w))
    ensures Chronicle(SplitNext(c, z, CommitClaim(x, w)).s)
  {
    var at, id := z.txns[x].at, z.txns[x].id;
    assert TxnFits(z, z.txns[x]);
    NobodyGuards(c, z, x);
    ClaimKeepsStory(c, z.s, at, id, w);
    CommitKeepsReports(c, z.s, at, id, w);
    CommitKeepsColumns(c, z.s, at, id, w);
    CommitKeepsInTime(c, z.s, at, id, w);
  }

  lemma OtherKeepsChronicle(c: Config, s: State, step: Step)
    requires Exclusive(s) && Chronicle(s) && Enabled(c, s, step) && !step.Claim? && !step.Put?
    ensures Chronicle(Next(c, s, step))
  {
    StepKeepsStory(c, s, step);
    StepKeepsReports(c, s, step);
    StepKeepsColumns(c, s, step);
    StepKeepsInTime(c, s, step);
  }

  /** Along every run with split claims and without PUT, under the lease: the log tells the story of
      every dispatch and row, SENT is counted once per message, the columns of a row agree, and no
      claim takes a row that was overdue when its transaction began. */
  lemma {:induction false} SplitRunKeepsChronicle(c: Config, z: Split, steps: seq<SplitStep>)
    requires c.perAttempt <= c.lease && SplitInv(c, z) && Chronicle(z.s)
    requires SplitRun(c, z, steps).Some? && SplitNoPut(steps)
    ensures SplitInv(c, SplitRun(c, z, steps).value) && Chronicle(SplitRun(c, z, steps).value.s)
    decreases |steps|
  {
    SplitRunKeepsInv(c, z, steps);
    if steps != [] {
      SplitRunKeepsChronicle(c, z, ButLast(steps));
      var mid, step := SplitRun(c, z, ButLast(steps)).value, Last(steps);
      match step
      case Other(inner) => OtherKeepsChronicle(c, mid.s, inner);
      case CommitClaim(x, w) => CommitKeepsChronicle(c, mid, x, w);
      case _ =>
    }
  }

  /** A message sent twice was reopened in between, also when claims are split. */
  lemma SplitDuplicateSends(c: Config, steps: seq<SplitStep>, id: MessageId, i: nat, j: nat)
    requires c.perAttempt <= c.lease
    requires SplitRun(c, SplitInit(), steps).Some? && SplitNoPut(steps)
    requires var log := SplitRun(c, SplitInit(), steps).value.s.log;
      i < j < |log| && log[i] == SendCalled(id) && log[j] == SendCalled(id)
    ensures var log := SplitRun(c, SplitInit(), steps).value.s.log;
      exists k :: i < k < j && Reopens(log[k], id)
  {
    SplitRunKeepsChronicle(c, SplitInit(), steps);
    var k := OpenedBetween(SplitRun(c, SplitInit(), steps).value.s.log, id, i, j);
  }

  lemma SplitStepKeepsSent(c: Config, z: Split, step: SplitStep, id: MessageId)
    requires SplitInv(c, z) && Story(z.s) && SplitEnabled(c, z, step) && !(step.Other? && step.step.Put?)
    requires id in z.s.table && z.s.table[id].status.Sent?
    ensures var s' := SplitNext(c, z, step).s; id in s'.table && s'.table[id].status.Sent?
  {
    match step
    case Other(inner) => StepKeepsSent(c, z.s, inner, id);
    case CommitClaim(x, w) => assert TxnFits(z, z.txns[x]);
    case _ =>
  }

  /** And SENT is absorbing. */
  lemma {:induction false} SplitSentIsAbsorbing(c: Config, z: Split, steps: seq<SplitStep>, id: MessageId)
    requires c.perAttempt <= c.lease && SplitInv(c, z) && Chronicle(z.s)
    requires SplitRun(c, z, steps).Some? && SplitNoPut(steps)
    requires id in z.s.table && z.s.table[id].status.Sent?
    ensures var t := SplitRun(c, z, steps).value.s.table; id in t && t[id].status.Sent?
    decreases |steps|
  {
    if steps != [] {
      SplitSentIsAbsorbing(c, z, ButLast(steps), id);
      SplitRunKeepsChronicle(c, z, ButLast(steps));
      SplitStepKeepsSent(c, SplitRun(c, z, ButLast(steps)).value, Last(steps), id);
    }
  }

  // ----- Alerts, with every PUT and any attempt length

  lemma CommitCountsClaims(c: Config, s: State, at: int, id: MessageId, w: DispatchId)
    requires AttemptsCounted(s) && id in s.table
    ensures AttemptsCounted(ClaimedAt(c, s, at, id, w))
  {
    assert ButLast(ClaimedAt(c, s, at, id, w).log) == s.log;
  }

  lemma CommitKeepsCopy(c: Config, s: State, at: int, id: MessageId, w: DispatchId, d: Dispatch)
    requires CopyCounted(s, d) && id in s.table
    ensures CopyCounted(ClaimedAt(c, s, at, id, w), d)
  {
    var s' := ClaimedAt(c, s, at, id, w);
    assert s'.log[..d.claim + 1] == s.log[..d.claim + 1] && s'.log[d.claim] == s.log[d.claim];
  }

  lemma CommitKeepsReport(c: Config, s: State, at: int, id: MessageId, w: DispatchId, k: nat)
    requires id in s.table && k < |s.log| && s.log[k].FailureReported? && ReportCounted(s, k)
    ensures ClaimedAt(c, s, at, id, w).log[k] == s.log[k] && ReportCounted(ClaimedAt(c, s, at, id, w), k)
  {
    var s', e := ClaimedAt(c, s, at, id, w), s.log[k];
    assert s'.log[..k] == s.log[..k] && s'.log[..e.claim + 1] == s.log[..e.claim + 1];
  }

  lemma CommitKeepsCounts(c: Config, s: State, at: int, id: MessageId, w: DispatchId)
    requires CountsInv(s) && id in s.table && w !in s.live
    ensures CountsInv(ClaimedAt(c, s, at, id, w))
  {
    var s' := ClaimedAt(c, s, at, id, w);
    CommitCountsClaims(c, s, at, id, w);
    assert s'.log[..|s.log| + 1] == s'.log;
    forall v | v in s'.live ensures CopyCounted(s', s'.live[v]) {
      if v != w { CommitKeepsCopy(c, s, at, id, w, s.live[v]); }
    }
    forall k | 0 <= k < |s'.log| && s'.log[k].FailureReported? ensures ReportCounted(s', k) {
      assert s'.log[k] == s.log[k];
      CommitKeepsReport(c, s, at, id, w, k);
    }
  }

  lemma {:induction false} SplitRunKeepsCounts(c: Config, z: Split, steps: seq<SplitStep>)
    requires CountsInv(z.s) && SplitRun(c, z, steps).Some?
    ensures CountsInv(SplitRun(c, z, steps).value.s)
    decreases |steps|
  {
    if steps != [] {
      SplitRunKeepsCounts(c, z, ButLast(steps));
      var mid, step := SplitRun(c, z, ButLast(steps)).value, Last(steps);
      match step
      case Other(inner) => StepKeepsCounts(c, mid.s, inner);
      case CommitClaim(x, w) => CommitKeepsCounts(c, mid.s, mid.txns[x].at, mid.txns[x].id, w);
      case _ =>
    }
  }

  /** The exact condition of the alert is the same. */
  lemma SplitAlertMirrorsExactly(c: Config, steps: seq<SplitStep>, k: nat)
    requires SplitRun(c, SplitInit(), steps).Some?
    requires var s := SplitRun(c, SplitInit(), steps).value.s; k < |s.log| && s.log[k].FailureReported?
    ensures var s := SplitRun(c, SplitInit(), steps).value.s; var e := s.log[k];
      && e.id in s.table && e.claim < k && s.log[e.claim].RowClaimed? && s.log[e.claim].id == e.id
      && (Mirrors(e) <==> (Exhausted(s, e.id, e.claim + 1) <==> Exhausted(s, e.id, k)))
  {
    SplitRunKeepsCounts(c, SplitInit(), steps);
    assert ReportCounted(SplitRun(c, SplitInit(), steps).value.s, k);
  }
}
