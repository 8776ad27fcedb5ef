/** Properties of whole runs without operator PUT: when a message can be sent twice, what a
    SENT row proves, and which rows stay where they are. */
module OutboxHistory {
  import opened Domain
  import opened Messages
  import opened Outbox
  import opened OutboxLease
  import Backoff

  /** A Resend of the message, or the end of one of its dispatches none of whose writes took
      effect. */
  predicate Reopens(e: Event, id: MessageId) {
    e == RowResent(id) || e == Abandoned(id)
  }

  /** Send was called for the message and nothing has reopened it since. */
  predicate Closed(log: seq<Event>, id: MessageId)
    decreases |log|
  {
    log != [] && !Reopens(Last(log), id) && (Last(log) == SendCalled(id) || Closed(ButLast(log), id))
  }

  /** Every Send found its message open. */
  ghost predicate Spaced(log: seq<Event>) {
    forall k, id | 0 <= k < |log| && log[k] == SendCalled(id) :: !Closed(log[..k], id)
  }

  predicate Idle(s: State, id: MessageId) {
    forall w | w in s.live :: s.live[w].id != id
  }

  predicate DispatchHistory(s: State, d: Dispatch) {
    && d.id in s.table
    && (d.phase.Preparing? ==> !Closed(s.log, d.id))
    && (d.settled <==> s.table[d.id].status.Sent?)
    && (d.settled ==> d.phase.Delivered?)
    && (d.phase.Delivered? ==> SendAccepted(d.id, d.phase.resultId) in s.log)
  }

  predicate RowHistory(s: State, id: MessageId)
    requires id in s.table
  {
    var m := s.table[id];
    && (Idle(s, id) && (m.status.Pending? || m.status.Sending?) ==> !Closed(s.log, id))
    && (m.status.Sent? ==> m.resultId.Some? && SendAccepted(id, m.resultId.value) in s.log)
  }

  /** What the log says of the dispatches and the rows. */
  ghost predicate Story(s: State) {
    && (forall w | w in s.live :: DispatchHistory(s, s.live[w]))
    && (forall id | id in s.table :: RowHistory(s, id))
    && (forall id | Closed(s.log, id) :: id in s.table)
    && Spaced(s.log)
  }

  ghost predicate HistoryInv(c: Config, s: State) {
    LeaseInv(c, s) && Story(s)
  }

  lemma ClosedAfter(log: seq<Event>, e: Event)
    ensures forall id :: Closed(log + [e], id) <==> !Reopens(e, id) && (e == SendCalled(id) || Closed(log, id))
  {
    assert ButLast(log + [e]) == log;
  }

  lemma SpacedAfter(log: seq<Event>, e: Event)
    requires Spaced(log)
    requires forall id :: e == SendCalled(id) ==> !Closed(log, id)
    ensures Spaced(log + [e])
  {
    forall k, id | 0 <= k < |log + [e]| && (log + [e])[k] == SendCalled(id)
      ensures !Closed((log + [e])[..k], id)
    {
      assert (log + [e])[..k] == log[..k];
      assert log[..|log|] == log;
    }
  }

  lemma LogKept(c: Config, s: State, step: Step)
    requires Story(s) && Enabled(c, s, step)
    ensures var s' := Next(c, s, step);
      Spaced(s'.log) && forall id | Closed(s'.log, id) :: id in s'.table
  {
    var s' := Next(c, s, step);
    if s'.log != s.log {
      var e := Last(s'.log);
      assert s'.log == s.log + [e];
      ClosedAfter(s.log, e);
      SpacedAfter(s.log, e);
    }
  }

  /** A claim, at whatever time its transaction began, of a row nobody dispatches. */
  lemma ClaimKeepsStory(c: Config, s: State, at: int, id: MessageId, w: DispatchId)
    requires Story(s) && Idle(s, id) && w !in s.live
    requires id in s.table && (s.table[id].status.Pending? || s.table[id].status.Sending?)
    ensures Story(ClaimedAt(c, s, at, id, w))
  {
    var s' := ClaimedAt(c, s, at, id, w);
    assert RowHistory(s, id);
    ClosedAfter(s.log, RowClaimed(id, at));
    SpacedAfter(s.log, RowClaimed(id, at));
    forall v | v in s'.live ensures DispatchHistory(s', s'.live[v]) {
      if v != w { assert DispatchHistory(s, s.live[v]); }
    }
    forall o | o in s'.table ensures RowHistory(s', o) {
      assert RowHistory(s, o);
      assert s'.live[w].id == id;
      assert Idle(s', o) ==> Idle(s, o) by {
        assert forall v | v in s.live :: s'.live[v] == s.live[v];
      }
    }
  }

  predicate Acts(step: Step, w: DispatchId) {
    && (step.CallSend? || step.SendSucceeds? || step.AttemptFails?
        || step.MarkSent? || step.MarkFailed? || step.Abandon?)
    && step.w == w
  }

  lemma ActorHistoryKept(c: Config, s: State, step: Step, w: DispatchId)
    requires Story(s) && Enabled(c, s, step) && Acts(step, w)
    requires w in Next(c, s, step).live
    ensures DispatchHistory(Next(c, s, step), Next(c, s, step).live[w])
  {
    assert DispatchHistory(s, s.live[w]);
    assert s.log <= Next(c, s, step).log;
  }

  /** A step of somebody else neither settles nor unsettles the row of a live dispatch. */
  lemma BystanderRow(c: Config, s: State, step: Step, w: DispatchId)
    requires Exclusive(s) && Enabled(c, s, step) && !step.Put? && !step.Claim? && !Acts(step, w)
    requires w in s.live && s.live[w].id in s.table
    ensures var s', d := Next(c, s, step), s.live[w];
      && w in s'.live && (s'.live[w] == d || s'.live[w] == d.(resent := true))
      && d.id in s'.table && (s'.table[d.id].status.Sent? <==> s.table[d.id].status.Sent?)
  {}

  lemma BystanderLog(c: Config, s: State, step: Step, w: DispatchId)
    requires Exclusive(s) && Enabled(c, s, step) && !Acts(step, w) && w in s.live
    ensures var log' := Next(c, s, step).log;
      log' == s.log || (log' == s.log + [Last(log')] && Last(log') != SendCalled(s.live[w].id))
  {}

  lemma BystanderHistoryKept(c: Config, s: State, step: Step, w: DispatchId)
    requires Story(s) && Exclusive(s) && Enabled(c, s, step) && !step.Put? && !step.Claim? && !Acts(step, w)
    requires w in s.live
    ensures w in Next(c, s, step).live && DispatchHistory(Next(c, s, step), Next(c, s, step).live[w])
  {
    assert DispatchHistory(s, s.live[w]);
    BystanderRow(c, s, step, w);
    BystanderLog(c, s, step, w);
    if Next(c, s, step).log != s.log {
      ClosedAfter(s.log, Last(Next(c, s, step).log));
    }
  }

  lemma NobodyHolds(c: Config, s: State, id: MessageId)
    requires c.perAttempt <= c.lease && LeaseInv(c, s)
    requires id in s.table && Eligible(s.table[id], s.now)
    ensures Idle(s, id)
  {
    forall v | v in s.live ensures s.live[v].id != id {
      ShieldedIsNotEligible(c, s, s.live[v]);
    }
  }

  /** Only a Resend brings a row back to PENDING or SENDING, other than a claim or a PUT. */
  lemma OnlyResendReopens(c: Config, s: State, step: Step, id: MessageId)
    requires Enabled(c, s, step) && !step.Put? && !step.Claim? && id in s.table
    requires Next(c, s, step).table[id].status.Pending? || Next(c, s, step).table[id].status.Sending?
    ensures s.table[id].status.Pending? || s.table[id].status.Sending?
      || Next(c, s, step).log == s.log + [RowResent(id)]
  {}

  lemma NoSendWhileIdle(c: Config, s: State, step: Step, id: MessageId)
    requires Enabled(c, s, step) && Idle(s, id)
    ensures var log' := Next(c, s, step).log;
      log' == s.log || (log' == s.log + [Last(log')] && Last(log') != SendCalled(id))
  {}

  lemma OpenWhileIdle(c: Config, s: State, step: Step, id: MessageId)
    requires Story(s) && Enabled(c, s, step) && !step.Put? && !step.Claim?
    requires Idle(s, id) && id in Next(c, s, step).table
    requires Next(c, s, step).table[id].status.Pending? || Next(c, s, step).table[id].status.Sending?
    ensures !Closed(Next(c, s, step).log, id)
  {
    var log' := Next(c, s, step).log;
    NoSendWhileIdle(c, s, step, id);
    if log' != s.log {
      ClosedAfter(s.log, Last(log'));
    }
    if id in s.table {
      assert RowHistory(s, id);
      OnlyResendReopens(c, s, step, id);
      assert log' == s.log + [RowResent(id)] ==> Last(log') == RowResent(id);
    }
  }

  /** How a dispatch ends: its row is decided, or its end is recorded. */
  lemma EndsDecidedOrRecorded(c: Config, s: State, step: Step, w: DispatchId)
    requires Enabled(c, s, step) && w in s.live && s.live[w].id in s.table && w !in Next(c, s, step).live
    requires s.live[w].settled ==> s.table[s.live[w].id].status.Sent?
    ensures var s', id := Next(c, s, step), s.live[w].id;
      && id in s'.table
      && (s'.log == s.log + [Abandoned(id)]
          || s'.table[id].status.Sent? || s'.table[id].status.Failed? || s'.table[id].status.PermanentFailed?)
  {}

  /** A dispatch that ends leaves its row decided or its message reopened. */
  lemma OpenAfterEnd(c: Config, s: State, step: Step, w: DispatchId)
    requires Story(s) && Enabled(c, s, step)
    requires w in s.live && w !in Next(c, s, step).live
    ensures s.live[w].id in Next(c, s, step).table
    ensures var row := Next(c, s, step).table[s.live[w].id];
      row.status.Pending? || row.status.Sending? ==> !Closed(Next(c, s, step).log, s.live[w].id)
  {
    assert DispatchHistory(s, s.live[w]);
    EndsDecidedOrRecorded(c, s, step, w);
    ClosedAfter(s.log, Abandoned(s.live[w].id));
  }

  lemma OpenRowKept(c: Config, s: State, step: Step, id: MessageId)
    requires Story(s) && Enabled(c, s, step) && !step.Put? && !step.Claim?
    requires var s' := Next(c, s, step);
      id in s'.table && Idle(s', id) && (s'.table[id].status.Pending? || s'.table[id].status.Sending?)
    ensures !Closed(Next(c, s, step).log, id)
  {
    var s' := Next(c, s, step);
    if Idle(s, id) {
      OpenWhileIdle(c, s, step, id);
    } else {
      var w :| w in s.live && s.live[w].id == id;
      if w in s'.live { LiveAfter(c, s, step, w); }
      OpenAfterEnd(c, s, step, w);
    }
  }

  lemma SentRowKept(c: Config, s: State, step: Step, id: MessageId)
    requires Story(s) && Enabled(c, s, step) && !step.Put?
    requires id in Next(c, s, step).table && Next(c, s, step).table[id].status.Sent?
    ensures var s' := Next(c, s, step);
      s'.table[id].resultId.Some? && SendAccepted(id, s'.table[id].resultId.value) in s'.log
  {
    if step.MarkSent? {
      assert DispatchHistory(s, s.live[step.w]);
    }
    if id in s.table {
      assert RowHistory(s, id);
    }
    assert s.log <= Next(c, s, step).log;
  }

  /** A step that claims no row of a live dispatch, and is no PUT. */
  lemma StepKeepsStory(c: Config, s: State, step: Step)
    requires Story(s) && Exclusive(s) && Enabled(c, s, step) && !step.Put?
    requires step.Claim? ==> Idle(s, step.id)
    ensures Story(Next(c, s, step))
  {
    if step.Claim? {
      ClaimKeepsStory(c, s, s.now, step.id, step.w);
    } else {
      OtherStepKeepsStory(c, s, step);
    }
  }

  lemma OtherStepKeepsStory(c: Config, s: State, step: Step)
    requires Story(s) && Exclusive(s) && Enabled(c, s, step) && !step.Put? && !step.Claim?
    ensures Story(Next(c, s, step))
  {
    var s' := Next(c, s, step);
    LogKept(c, s, step);
    forall w | w in s'.live ensures DispatchHistory(s', s'.live[w]) {
      LiveAfter(c, s, step, w);
      if Acts(step, w) {
        ActorHistoryKept(c, s, step, w);
      } else {
        BystanderHistoryKept(c, s, step, w);
      }
    }
    forall id | id in s'.table ensures RowHistory(s', id) {
      if s'.table[id].status.Sent? {
        SentRowKept(c, s, step, id);
      } else if Idle(s', id) && (s'.table[id].status.Pending? || s'.table[id].status.Sending?) {
        OpenRowKept(c, s, step, id);
      }
    }
  }

  lemma StepKeepsHistory(c: Config, s: State, step: Step)
    requires c.perAttempt <= c.lease
    requires HistoryInv(c, s) && Enabled(c, s, step) && !step.Put?
    ensures HistoryInv(c, Next(c, s, step))
  {
    StepKeepsLease(c, s, step);
    if step.Claim? { NobodyHolds(c, s, step.id); }
    StepKeepsStory(c, s, step);
  }

  lemma {:induction false} RunKeepsHistory(c: Config, s: State, steps: seq<Step>)
    requires c.perAttempt <= c.lease
    requires HistoryInv(c, s) && Run(c, s, steps).Some? && NoPut(steps)
    ensures HistoryInv(c, Run(c, s, steps).value)
    decreases |steps|
  {
    if steps != [] {
      RunKeepsHistory(c, s, ButLast(steps));
      StepKeepsHistory(c, Run(c, s, ButLast(steps)).value, Last(steps));
    }
  }

  lemma {:induction false} OpenedBetween(log: seq<Event>, id: MessageId, i: nat, j: nat) returns (k: nat)
    requires i < j <= |log| && log[i] == SendCalled(id) && !Closed(log[..j], id)
    ensures i < k < j && Reopens(log[k], id)
    decreases j
  {
    assert ButLast(log[..j]) == log[..j - 1] && Last(log[..j]) == log[j - 1];
    if Reopens(log[j - 1], id) {
      k := j - 1;
    } else {
      assert i < j - 1;
      k := OpenedBetween(log, id, i, j - 1);
    }
  }

  /** A message sent twice was reopened in between: by a Resend, or by a dispatch of it that
      ended without any of its writes taking effect. */
  lemma DuplicateSends(c: Config, steps: seq<Step>, id: MessageId, i: nat, j: nat)
    requires c.perAttempt <= c.lease
    requires Run(c, Init(), steps).Some? && NoPut(steps)
    requires var log := Run(c, Init(), steps).value.log;
             i < j < |log| && log[i] == SendCalled(id) && log[j] == SendCalled(id)
    ensures var log := Run(c, Init(), steps).value.log;
            exists k :: i < k < j && Reopens(log[k], id)
  {
    RunKeepsHistory(c, Init(), steps);
    var log := Run(c, Init(), steps).value.log;
    var k := OpenedBetween(log, id, i, j);
  }

  /** A SENT row carries the result of a Send that signal-cli accepted for it. */
  lemma SentWasAccepted(c: Config, steps: seq<Step>, id: MessageId)
    requires c.perAttempt <= c.lease
    requires Run(c, Init(), steps).Some? && NoPut(steps)
    requires var t := Run(c, Init(), steps).value.table; id in t && t[id].status.Sent?
    ensures var s := Run(c, Init(), steps).value;
            s.table[id].resultId.Some? && SendAccepted(id, s.table[id].resultId.value) in s.log
  {
    RunKeepsHistory(c, Init(), steps);
  }

  lemma StepKeepsSent(c: Config, s: State, step: Step, id: MessageId)
    requires Story(s) && Enabled(c, s, step) && !step.Put?
    requires id in s.table && s.table[id].status.Sent?
    ensures id in Next(c, s, step).table && Next(c, s, step).table[id].status.Sent?
  {
    if step.MarkFailed? {
      assert DispatchHistory(s, s.live[step.w]);
    }
  }

  /** SENT is absorbing, even while the dispatch that wrote it is still retrying. */
  lemma {:induction false} SentIsAbsorbing(c: Config, s: State, steps: seq<Step>, id: MessageId)
    requires c.perAttempt <= c.lease
    requires HistoryInv(c, s) && Run(c, s, steps).Some? && NoPut(steps)
    requires id in s.table && s.table[id].status.Sent?
    ensures var t := Run(c, s, steps).value.table; id in t && t[id].status.Sent?
    decreases |steps|
  {
    if steps != [] {
      SentIsAbsorbing(c, s, ButLast(steps), id);
      RunKeepsHistory(c, s, ButLast(steps));
      StepKeepsSent(c, Run(c, s, ButLast(steps)).value, Last(steps), id);
    }
  }

  /** A run after which the row was SENT, and a continuation after which it is not. */
  predicate Unsends(c: Config, before: seq<Step>, after: seq<Step>, id: MessageId) {
    && NoPut(before) && NoPut(after)
    && Run(c, Init(), before).Some? && id in Run(c, Init(), before).value.table
    && Run(c, Init(), before).value.table[id].status.Sent?
    && var end := Run(c, Run(c, Init(), before).value, after);
       end.Some? && !(id in end.value.table && end.value.table[id].status.Sent?)
  }

  /** SENT is absorbing in every run exactly when no attempt outlives its lease. */
  lemma SentAbsorbingExactlyUnderLease(c: Config)
    ensures (forall before, after, id :: !Unsends(c, before, after, id)) <==> c.perAttempt <= c.lease
  {
    if c.perAttempt <= c.lease {
      forall before, after, id ensures !Unsends(c, before, after, id) {
        if Unsends(c, before, after, id) {
          RunKeepsHistory(c, Init(), before);
          SentIsAbsorbing(c, Run(c, Init(), before).value, after, id);
        }
      }
    } else {
      var before, s := SentBySecondDispatch(c);
      Backoff.ZeroIsPossible(s.live[0].snapshot.attempts, c.baseBackoff, c.maxBackoff);
      var after, s' := Extend(c, s, [], s, AttemptFails(0, "late", 0));
      after, s' := Extend(c, s, after, s', MarkFailed(0, Applied));
      assert s'.table[0].status.PermanentFailed?;
      assert Unsends(c, before, after, 0);
    }
  }

  lemma SentBySecondDispatch(c: Config) returns (steps: seq<Step>, s: State)
    requires c.perAttempt > c.lease
    ensures NoPut(steps) && Run(c, Init(), steps) == Some(s)
    ensures 0 in s.table && s.table[0].status.Sent? && s.table[0].attempts >= s.table[0].maxAttempts
    ensures 0 in s.live && s.live[0].id == 0 && s.live[0].phase.Preparing?
  {
    steps, s := TwoClaims(c);
    steps, s := Extend(c, Init(), steps, s, CallSend(1));
    steps, s := Extend(c, Init(), steps, s, SendSucceeds(1, "1"));
    steps, s := Extend(c, Init(), steps, s, MarkSent(1, Applied));
  }

  predicate LeavesAlone(step: Step, id: MessageId) {
    step != Resend(id) && !(step.Put? && step.id == id)
  }

  predicate Parked(s: State, id: MessageId) {
    id in s.table && Idle(s, id) && !s.table[id].status.Pending? && !s.table[id].status.Sending?
  }

  lemma ParkedStep(c: Config, s: State, step: Step, id: MessageId)
    requires Enabled(c, s, step) && LeavesAlone(step, id) && Parked(s, id)
    ensures var s' := Next(c, s, step);
      && s.now <= s'.now && Parked(s', id)
      && s'.table[id] == if step.Sweep? then SweptRow(s.table[id], s.now) else s.table[id]
  {
    forall w | w in Next(c, s, step).live ensures Next(c, s, step).live[w].id != id {
      LiveAfter(c, s, step, w);
    }
  }

  /** A row without a live dispatch that is neither PENDING nor SENDING is out of the worker's
      reach: until a Resend or PUT of this very row it is never claimed again, and only a FAILED
      row still moves, to TIMED_OUT, when its deadline passes. This needs no lease assumption. */
  lemma {:induction false} ParkedRowsStay(c: Config, s: State, steps: seq<Step>, id: MessageId)
    requires Run(c, s, steps).Some?
    requires forall i | 0 <= i < |steps| :: LeavesAlone(steps[i], id)
    requires Parked(s, id)
    ensures var s' := Run(c, s, steps).value;
      && s.now <= s'.now && Parked(s', id)
      && (s'.table[id] == s.table[id]
          || (s.table[id].status.Failed? && Overdue(s.table[id], s'.now)
              && s'.table[id] == Reaped(s.table[id], s'.table[id].modifiedAt)))
      && (IsTerminal(s.table[id].status) ==> s'.table[id] == s.table[id])
    decreases |steps|
  {
    if steps != [] {
      ParkedRowsStay(c, s, ButLast(steps), id);
      ParkedStep(c, Run(c, s, ButLast(steps)).value, Last(steps), id);
    }
  }

  /** A FAILED row does move: the sweep times it out once its deadline has passed. */
  lemma FailedRowTimesOut(c: Config, s: State, id: MessageId)
    requires Parked(s, id) && s.table[id].status.Failed? && s.table[id].deletedAt.None? && Overdue(s.table[id], s.now)
    ensures Next(c, s, Sweep).table[id] == s.table[id].(status := TimedOut, modifiedAt := s.now)
  {}

  /** A Resend brings a row out of the worker's reach back at once, exactly when the row is not SENT
      and not past its deadline. */
  lemma ResendRevivesExactly(c: Config, s: State, id: MessageId)
    requires Parked(s, id) && s.table[id].deletedAt.None?
    ensures var m := Next(c, s, Resend(id)).table[id];
      && (Eligible(m, s.now) <==> s.table[id].status != Sent && !Overdue(s.table[id], s.now))
      && (s.table[id].status != Sent ==> m.status == Pending && m.attempts == 0 && m.lastError == None)
  {}

  // ----- The phases of a dispatch

  /** Send was called before it was accepted, and MarkSent was tried at most three times since. */
  predicate PhasesFit(s: State) {
    && (forall w | w in s.live && (s.live[w].phase.Awaiting? || s.live[w].phase.Delivered?) ::
          SendCalled(s.live[w].id) in s.log)
    && (forall w | w in s.live && s.live[w].phase.Delivered? :: s.live[w].phase.tries <= 3)
    && (forall k | 0 <= k < |s.log| && s.log[k].SendAccepted? :: SendCalled(s.log[k].id) in s.log[..k])
  }

  lemma DispatchPhaseKept(c: Config, s: State, step: Step, w: DispatchId)
    requires PhasesFit(s) && Enabled(c, s, step) && w in Next(c, s, step).live
    ensures var s' := Next(c, s, step);
      && (s'.live[w].phase.Awaiting? || s'.live[w].phase.Delivered? ==> SendCalled(s'.live[w].id) in s'.log)
      && (s'.live[w].phase.Delivered? ==> s'.live[w].phase.tries <= 3)
  {
    var s' := Next(c, s, step);
    LiveAfter(c, s, step, w);
    assert s.log <= s'.log;
    if step == CallSend(w) { assert s'.log[|s.log|] == SendCalled(s.live[w].id); }
  }

  lemma AcceptedKept(c: Config, s: State, step: Step, k: nat)
    requires PhasesFit(s) && Enabled(c, s, step) && k < |Next(c, s, step).log| && Next(c, s, step).log[k].SendAccepted?
    ensures var log' := Next(c, s, step).log; SendCalled(log'[k].id) in log'[..k]
  {
    var log' := Next(c, s, step).log;
    if k < |s.log| {
      assert log'[..k] == s.log[..k] && log'[k] == s.log[k];
    } else {
      assert log'[..k] == s.log;
    }
  }

  /** In every run no Send is accepted that was not called, and no dispatch tries MarkSent more than three
      times. */
  lemma {:induction false} PhasesInOrder(c: Config, s: State, steps: seq<Step>)
    requires PhasesFit(s) && Run(c, s, steps).Some?
    ensures PhasesFit(Run(c, s, steps).value)
    decreases |steps|
  {
    if steps != [] {
      PhasesInOrder(c, s, ButLast(steps));
      var mid, step := Run(c, s, ButLast(steps)).value, Last(steps);
      var end := Next(c, mid, step);
      forall w | w in end.live
        ensures end.live[w].phase.Awaiting? || end.live[w].phase.Delivered? ==> SendCalled(end.live[w].id) in end.log
        ensures end.live[w].phase.Delivered? ==> end.live[w].phase.tries <= 3
      {
        DispatchPhaseKept(c, mid, step, w);
      }
      forall k | 0 <= k < |end.log| && end.log[k].SendAccepted? ensures SendCalled(end.log[k].id) in end.log[..k] {
        AcceptedKept(c, mid, step, k);
      }
    }
  }

  // ----- The failure a row records

  lemma {:induction false} FailingWaits(c: Config, s: State, steps: seq<Step>, w: DispatchId)
    requires Run(c, s, steps).Some? && w in s.live && s.live[w].phase.Failing? && s.live[w].id in s.table
    requires forall i | 0 <= i < |steps| :: !Acts(steps[i], w)
    ensures var s' := Run(c, s, steps).value;
      && w in s'.live && s'.live[w].phase == s.live[w].phase && s'.live[w].id == s.live[w].id
      && s'.live[w].snapshot == s.live[w].snapshot && s.live[w].id in s'.table
    decreases |steps|
  {
    if steps != [] {
      FailingWaits(c, s, ButLast(steps), w);
    }
  }

  lemma FailureWritten(c: Config, s: State, w: DispatchId, error: string, next: int, outcome: WriteOutcome)
    requires w in s.live && s.live[w].phase == Failing(error, next) && s.live[w].id in s.table && outcome != Lost
    ensures Enabled(c, s, MarkFailed(w, outcome)) && w !in Next(c, s, MarkFailed(w, outcome)).live
    ensures var id, m := s.live[w].id, s.table[s.live[w].id];
      Next(c, s, MarkFailed(w, outcome)).table == s.table[id := m.(
        status := if m.attempts < m.maxAttempts then Failed else PermanentFailed,
        lastError := Some(error), nextAttemptAt := next, modifiedAt := s.now)]
  {}

  /** In every run, whatever others do between the two: once the failure of an attempt is written,
      acknowledged or not, its row carries that attempt's error and the schedule computed when it
      failed, and no other column but status and stamp changed. */
  lemma FailureIsRecorded(c: Config, s: State, w: DispatchId, error: string, delay: int, failing: State,
                          steps: seq<Step>, mid: State, outcome: WriteOutcome)
    requires Enabled(c, s, AttemptFails(w, error, delay)) && s.live[w].id in s.table && outcome != Lost
    requires failing == Next(c, s, AttemptFails(w, error, delay)) && Run(c, failing, steps) == Some(mid)
    requires forall i | 0 <= i < |steps| :: !Acts(steps[i], w)
    ensures Enabled(c, mid, MarkFailed(w, outcome)) && w !in Next(c, mid, MarkFailed(w, outcome)).live
    ensures s.live[w].id in mid.table
    ensures var id, m := s.live[w].id, mid.table[s.live[w].id];
      Next(c, mid, MarkFailed(w, outcome)).table == mid.table[id := m.(
        status := if m.attempts < m.maxAttempts then Failed else PermanentFailed,
        lastError := Some(error), nextAttemptAt := s.now + delay, modifiedAt := mid.now)]
  {
    FailingWaits(c, failing, steps, w);
    FailureWritten(c, mid, w, error, s.now + delay, outcome);
  }

  // ----- The sent counter

  ghost predicate SentReports(s: State) {
    && (forall id | SentReported(id) in s.log :: id in s.table && s.table[id].status.Sent? && Idle(s, id))
    && (forall i, j | 0 <= i < j < |s.log| && s.log[i].SentReported? :: s.log[i] != s.log[j])
  }

  lemma ReportedStaysSettled(c: Config, s: State, step: Step, id: MessageId)
    requires Story(s) && Enabled(c, s, step) && !step.Put?
    requires id in s.table && s.table[id].status.Sent? && Idle(s, id)
    ensures id in Next(c, s, step).table && Next(c, s, step).table[id].status.Sent? && Idle(Next(c, s, step), id)
  {
    StepKeepsSent(c, s, step, id);
    forall w | w in Next(c, s, step).live ensures Next(c, s, step).live[w].id != id {
      LiveAfter(c, s, step, w);
    }
  }

  lemma FreshReport(c: Config, s: State, step: Step)
    requires Story(s) && Exclusive(s) && SentReports(s)
    requires Enabled(c, s, step) && step.MarkSent? && step.outcome.Applied?
    ensures var id := s.live[step.w].id;
      && SentReported(id) !in s.log && Next(c, s, step).log == s.log + [SentReported(id)]
      && id in Next(c, s, step).table && Next(c, s, step).table[id].status.Sent? && Idle(Next(c, s, step), id)
  {
    assert DispatchHistory(s, s.live[step.w]);
  }

  lemma StepKeepsReports(c: Config, s: State, step: Step)
    requires Story(s) && Exclusive(s) && SentReports(s) && Enabled(c, s, step) && !step.Put?
    ensures SentReports(Next(c, s, step))
  {
    var s' := Next(c, s, step);
    forall id | SentReported(id) in s.log
      ensures id in s'.table && s'.table[id].status.Sent? && Idle(s', id)
    {
      ReportedStaysSettled(c, s, step, id);
    }
    if step.MarkSent? && step.outcome.Applied? {
      FreshReport(c, s, step);
    } else {
      OnlyMarkSentReports(c, s, step);
    }
  }

  lemma OnlyMarkSentReports(c: Config, s: State, step: Step)
    requires Enabled(c, s, step) && !(step.MarkSent? && step.outcome.Applied?)
    ensures var log' := Next(c, s, step).log;
      log' == s.log || (log' == s.log + [Last(log')] && !Last(log').SentReported?)
  {}

  /** In every run the sent counter counts each message at most once, and only messages that are
      SENT and have no dispatch left. */
  lemma {:induction false} SentIsCountedOnce(c: Config, s: State, steps: seq<Step>)
    requires c.perAttempt <= c.lease
    requires HistoryInv(c, s) && SentReports(s) && Run(c, s, steps).Some? && NoPut(steps)
    ensures SentReports(Run(c, s, steps).value)
    decreases |steps|
  {
    if steps != [] {
      SentIsCountedOnce(c, s, ButLast(steps));
      RunKeepsHistory(c, s, ButLast(steps));
      StepKeepsReports(c, Run(c, s, ButLast(steps)).value, Last(steps));
    }
  }

  // ----- What the columns of a row say

  predicate ColumnsFit(m: Message) {
    && m.maxAttempts >= 1
    && (m.resultId.Some? <==> m.status.Sent?)
    && (m.status.Pending? ==> m.attempts == 0)
    && (m.status.Sending? ==> m.attempts >= 1)
    && (m.status.Pending? || m.status.Sending? ==> m.lastError.None?)
    && (m.status.Failed? ==> m.attempts < m.maxAttempts && m.lastError.Some?)
    && (m.status.PermanentFailed? ==> m.attempts >= m.maxAttempts && m.lastError.Some?)
  }

  predicate AllColumnsFit(s: State) {
    forall id | id in s.table :: ColumnsFit(s.table[id])
  }

  lemma ColumnsKept(c: Config, s: State, step: Step, id: MessageId)
    requires Story(s) && AllColumnsFit(s) && Enabled(c, s, step) && !step.Put?
    requires id in Next(c, s, step).table
    ensures ColumnsFit(Next(c, s, step).table[id])
  {
    if step.MarkFailed? {
      assert DispatchHistory(s, s.live[step.w]);
    }
    if id in s.table {
      assert ColumnsFit(s.table[id]);
    }
  }

  lemma StepKeepsColumns(c: Config, s: State, step: Step)
    requires Story(s) && AllColumnsFit(s) && Enabled(c, s, step) && !step.Put?
    ensures AllColumnsFit(Next(c, s, step))
  {
    forall id | id in Next(c, s, step).table ensures ColumnsFit(Next(c, s, step).table[id]) {
      ColumnsKept(c, s, step, id);
    }
  }

  /** In every run a row's status, attempts, error and result agree: a result exactly on SENT rows,
      FAILED below and PERMANENT_FAILED at the attempt limit, both with an error, and PENDING rows
      as good as new. */
  lemma {:induction false} ColumnsAgree(c: Config, s: State, steps: seq<Step>)
    requires c.perAttempt <= c.lease
    requires HistoryInv(c, s) && AllColumnsFit(s) && Run(c, s, steps).Some? && NoPut(steps)
    ensures AllColumnsFit(Run(c, s, steps).value)
    decreases |steps|
  {
    if steps != [] {
      ColumnsAgree(c, s, ButLast(steps));
      RunKeepsHistory(c, s, ButLast(steps));
      StepKeepsColumns(c, Run(c, s, ButLast(steps)).value, Last(steps));
    }
  }

  /** Delivery is at least once: a crash between an accepted Send and its MarkSent sends the
      message again once the lease is over. */
  lemma CrashAfterSendDuplicates(c: Config) returns (steps: seq<Step>, s: State)
    ensures Run(c, Init(), steps) == Some(s) && NoPut(steps)
    ensures exists i, j | 0 <= i < j < |s.log| :: s.log[i] == SendCalled(0) && s.log[j] == SendCalled(0)
  {
    steps, s := CrashAfterSend(c);
    var i :| 0 <= i < |s.log| && s.log[i] == SendCalled(0);
    steps, s := Extend(c, Init(), steps, s, Tick(c.lease + 1));
    steps, s := Extend(c, Init(), steps, s, Claim(1, 0, {}));
    var j := |s.log|;
    steps, s := Extend(c, Init(), steps, s, CallSend(1));
    assert s.log[i] == SendCalled(0) && s.log[j] == SendCalled(0);
  }

  lemma CrashAfterSend(c: Config) returns (steps: seq<Step>, s: State)
    ensures Run(c, Init(), steps) == Some(s) && NoPut(steps)
    ensures s.now == 0 && s.table == map[0 := Claimed(Inserted(1, None, 0), 0, c.lease)] && s.live == map[]
    ensures SendCalled(0) in s.log
  {
    steps, s := OneClaim(c, 1, None);
    var n := |s.log|;
    steps, s := Extend(c, Init(), steps, s, CallSend(0));
    assert s.log[n] == SendCalled(0);
    steps, s := Extend(c, Init(), steps, s, SendSucceeds(0, "1"));
    steps, s := Extend(c, Init(), steps, s, Abandon(0));
    assert s.log[n] == SendCalled(0);
  }

  /** All of this from boot. */
  lemma EveryRunWithoutPut(c: Config, steps: seq<Step>)
    requires c.perAttempt <= c.lease && Run(c, Init(), steps).Some? && NoPut(steps)
    ensures HistoryInv(c, Run(c, Init(), steps).value)
    ensures SentReports(Run(c, Init(), steps).value) && AllColumnsFit(Run(c, Init(), steps).value)
  {
    RunKeepsHistory(c, Init(), steps);
    SentIsCountedOnce(c, Init(), steps);
    ColumnsAgree(c, Init(), steps);
  }
}
