/** What the worker does is a run of the protocol: every dispatch and every drain is a sequence of
    protocol steps, so what holds of all runs holds of the worker, and its counters are those the
    log of the run determines. */
module WorkerRuns {
  import opened Domain
  import opened Messages
  import opened Outbox
  import opened OutboxLease
  import opened Worker
  import Backoff

  // ----- Reachability

  ghost predicate KeptByAllSteps(c: Config, p: State -> bool) {
    forall s, step | p(s) && Enabled(c, s, step) :: p(Next(c, s, step))
  }

  /** Whatever holds of `s` and is kept by all steps holds of `s'`. */
  ghost predicate Reaches(c: Config, s: State, s': State) {
    forall p: State -> bool | KeptByAllSteps(c, p) && p(s) :: p(s')
  }

  lemma ReachesByStep(c: Config, s: State, step: Step) returns (s': State)
    requires Enabled(c, s, step)
    ensures s' == Next(c, s, step) && Reaches(c, s, s')
  {
    s' := Next(c, s, step);
  }

  lemma ReachesOn(c: Config, a: State, b: State, d: State)
    requires Reaches(c, a, b) && Reaches(c, b, d)
    ensures Reaches(c, a, d)
  {}

  lemma {:induction false} RunReaches(c: Config, s: State, steps: seq<Step>)
    requires Run(c, s, steps).Some?
    ensures Reaches(c, s, Run(c, s, steps).value)
    decreases |steps|
  {
    if steps != [] {
      RunReaches(c, s, ButLast(steps));
      var mid := Run(c, s, ButLast(steps)).value;
      var end := ReachesByStep(c, mid, Last(steps));
    }
  }

  lemma ReachedByRun(c: Config, s: State, s': State) returns (steps: seq<Step>)
    requires Reaches(c, s, s')
    ensures Run(c, s, steps) == Some(s')
  {
    var p := (x: State) => exists steps :: Run(c, s, steps) == Some(x);
    assert Run(c, s, []) == Some(s);
    assert p(s);
    forall x, step | p(x) && Enabled(c, x, step) ensures p(Next(c, x, step)) {
      var before :| Run(c, s, before) == Some(x);
      var longer, next := Extend(c, s, before, x, step);
    }
    assert KeptByAllSteps(c, p);
    assert p(s');
    steps :| Run(c, s, steps) == Some(s');
  }

  /** Reachable is what some run leads to. */
  lemma ReachesExactly(c: Config, s: State, s': State)
    ensures Reaches(c, s, s') <==> exists steps :: Run(c, s, steps) == Some(s')
  {
    if Reaches(c, s, s') {
      var steps := ReachedByRun(c, s, s');
    }
    if exists steps :: Run(c, s, steps) == Some(s') {
      var steps :| Run(c, s, steps) == Some(s');
      RunReaches(c, s, steps);
    }
  }

  // ----- What one dispatch does next

  lemma CountsAfter(log: seq<Event>, e: Event)
    ensures CountsOf(log + [e]) == Counted(CountsOf(log), e)
  {
    assert ButLast(log + [e]) == log;
  }

  /** Dispatch 0 is the one live dispatch, of row `id`, claimed at `since`. */
  predicate OnlyLive(s: State, id: MessageId, msg: Message, since: int, phase: Phase) {
    s.live.Keys == {0} && s.live[0].id == id && id in s.table && s.live[0].snapshot == msg
    && s.live[0].claimedAt == since && s.live[0].phase == phase
  }

  /** Time passes, within the deadline of the one live dispatch. */
  lemma Pass(c: Config, s: State, id: MessageId, msg: Message, since: int, phase: Phase, wait: nat) returns (s': State)
    requires OnlyLive(s, id, msg, since, phase) && s.now + wait <= since + c.perAttempt
    ensures Reaches(c, s, s') && s' == s.(now := s.now + wait)
  {
    s' := ReachesByStep(c, s, Step.Tick(s.now + wait));
  }

  lemma AttemptFailing(c: Config, s: State, id: MessageId, msg: Message, since: int, phase: Phase, error: string,
                       delay: int)
    returns (s': State)
    requires OnlyLive(s, id, msg, since, phase) && (phase.Preparing? || phase.Awaiting?)
    requires Backoff.Possible(msg.attempts, c.baseBackoff, c.maxBackoff, delay)
    ensures Reaches(c, s, s') && s'.now == s.now && s'.table == s.table && s'.log == s.log
    ensures OnlyLive(s', id, msg, since, Failing(error, s.now + delay))
  {
    s' := ReachesByStep(c, s, AttemptFails(0, error, delay));
  }

  /** What MarkFailed adds to the log. */
  lemma MarkFailedLog(c: Config, s: State, id: MessageId, msg: Message, since: int, phase: Phase, outcome: WriteOutcome)
    requires OnlyLive(s, id, msg, since, phase) && phase.Failing?
    ensures var log' := Next(c, s, Step.MarkFailed(0, outcome)).log;
      match outcome
      case Lost => log' == s.log + [Abandoned(id)]
      case LostAck => log' == s.log
      case Applied =>
        && log' == s.log + [Last(log')] && Last(log').FailureReported?
        && (Last(log').permanentBranch <==> msg.attempts >= msg.maxAttempts)
  {}

  lemma MarkFailedCounts(c: Config, s: State, id: MessageId, msg: Message, since: int, phase: Phase,
                         outcome: WriteOutcome)
    requires OnlyLive(s, id, msg, since, phase) && phase.Failing?
    ensures CountsOf(Next(c, s, Step.MarkFailed(0, outcome)).log) == CountedFailure(CountsOf(s.log), msg, outcome)
  {
    MarkFailedLog(c, s, id, msg, since, phase, outcome);
    match outcome
    case Lost => CountsAfter(s.log, Abandoned(id));
    case LostAck =>
    case Applied => CountsAfter(s.log, Last(Next(c, s, Step.MarkFailed(0, outcome)).log));
  }

  lemma MarkFailing(c: Config, s: State, id: MessageId, msg: Message, since: int, error: string, delay: int,
                    outcome: WriteOutcome)
    returns (s': State)
    requires OnlyLive(s, id, msg, since, Failing(error, s.now + delay))
    ensures Reaches(c, s, s') && s'.now == s.now && s'.live == map[]
    ensures s'.table == s.table[id := FailedRow(s.table[id], error, delay, outcome, s.now)]
    ensures CountsOf(s'.log) == CountedFailure(CountsOf(s.log), msg, outcome)
  {
    assert s.live - {0} == map[];
    s' := ReachesByStep(c, s, Step.MarkFailed(0, outcome));
    MarkFailedCounts(c, s, id, msg, since, Failing(error, s.now + delay), outcome);
  }

  /** After a while the attempt fails and is recorded. */
  lemma FailureRun(c: Config, s: State, id: MessageId, msg: Message, since: int, phase: Phase, wait: nat,
                   error: string, delay: int, outcome: WriteOutcome)
    returns (s': State)
    requires OnlyLive(s, id, msg, since, phase) && (phase.Preparing? || phase.Awaiting?)
    requires s.now + wait <= since + c.perAttempt
    requires Backoff.Possible(msg.attempts, c.baseBackoff, c.maxBackoff, delay)
    ensures Reaches(c, s, s') && s'.now == s.now + wait && s'.live == map[]
    ensures s'.table == s.table[id := FailedRow(s.table[id], error, delay, outcome, s'.now)]
    ensures CountsOf(s'.log) == CountedFailure(CountsOf(s.log), msg, outcome)
  {
    var s1 := Pass(c, s, id, msg, since, phase, wait);
    var s2 := AttemptFailing(c, s1, id, msg, since, phase, error, delay);
    s' := MarkFailing(c, s2, id, msg, since, error, delay, outcome);
    ReachesOn(c, s, s1, s2);
    ReachesOn(c, s, s2, s');
  }

  /** After a while the one live dispatch calls Send. */
  lemma SendRun(c: Config, s: State, id: MessageId, msg: Message, since: int, wait: nat) returns (s': State)
    requires OnlyLive(s, id, msg, since, Preparing) && s.now + wait <= since + c.perAttempt
    ensures Reaches(c, s, s') && s'.now == s.now + wait && s'.table == s.table
    ensures OnlyLive(s', id, msg, since, Awaiting)
    ensures CountsOf(s'.log) == CountsOf(s.log).(sends := CountsOf(s.log).sends + 1)
  {
    var s1 := Pass(c, s, id, msg, since, Preparing, wait);
    s' := ReachesByStep(c, s1, CallSend(0));
    ReachesOn(c, s, s1, s');
    CountsAfter(s.log, SendCalled(id));
  }

  /** After a while Send returns a result to the one live dispatch. */
  lemma AcceptRun(c: Config, s: State, id: MessageId, msg: Message, since: int, wait: nat, resultId: string)
    returns (s': State)
    requires OnlyLive(s, id, msg, since, Awaiting) && s.now + wait <= since + c.perAttempt
    ensures Reaches(c, s, s') && s'.now == s.now + wait && s'.table == s.table
    ensures OnlyLive(s', id, msg, since, Phase.Delivered(resultId, 0)) && CountsOf(s'.log) == CountsOf(s.log)
  {
    var s1 := Pass(c, s, id, msg, since, Awaiting, wait);
    s' := ReachesByStep(c, s1, SendSucceeds(0, resultId));
    ReachesOn(c, s, s1, s');
    CountsAfter(s.log, SendAccepted(id, resultId));
  }

  /** After a while the one live dispatch tries MarkSent. */
  lemma MarkSentRun(c: Config, s: State, id: MessageId, msg: Message, since: int, resultId: string, i: nat, t: Try)
    returns (s': State)
    requires OnlyLive(s, id, msg, since, Phase.Delivered(resultId, i)) && i < MARK_SENT_TRIES
    requires s.now + t.wait <= since + c.perAttempt
    ensures Reaches(c, s, s') && s'.now == s.now + t.wait
    ensures s'.table
      == if t.outcome.Lost? then s.table else s.table[id := MarkedSent(s.table[id], resultId, s'.now)]
    ensures t.outcome.Applied? ==>
      s'.live == map[] && CountsOf(s'.log) == CountsOf(s.log).(sent := CountsOf(s.log).sent + 1)
    ensures !t.outcome.Applied? ==>
      OnlyLive(s', id, msg, since, Phase.Delivered(resultId, i + 1)) && CountsOf(s'.log) == CountsOf(s.log)
  {
    var s1 := Pass(c, s, id, msg, since, Phase.Delivered(resultId, i), t.wait);
    assert s1.live - {0} == map[];
    s' := ReachesByStep(c, s1, Step.MarkSent(0, t.outcome));
    ReachesOn(c, s, s1, s');
    CountsAfter(s.log, SentReported(id));
  }

  /** The one live dispatch ends. */
  lemma AbandonRun(c: Config, s: State, id: MessageId, msg: Message, since: int, phase: Phase) returns (s': State)
    requires OnlyLive(s, id, msg, since, phase)
    ensures Reaches(c, s, s') && s'.now == s.now && s'.table == s.table && s'.live == map[]
    ensures CountsOf(s'.log) == CountsOf(s.log)
  {
    s' := ReachesByStep(c, s, Abandon(0));
    CountsAfter(s.log, Abandoned(id));
    assert s.log + [] == s.log;
  }

  /** The last try of MarkSent, and the end of the dispatch. */
  lemma LastTryRun(c: Config, s: State, id: MessageId, msg: Message, since: int, resultId: string, i: nat, t: Try)
    returns (s': State)
    requires OnlyLive(s, id, msg, since, Phase.Delivered(resultId, i)) && i < MARK_SENT_TRIES
    requires s.now + t.wait <= since + c.perAttempt && IsLast(t)
    ensures Reaches(c, s, s') && s'.now == s.now + t.wait && s'.live == map[]
    ensures s'.table
      == if t.outcome.Lost? then s.table else s.table[id := MarkedSent(s.table[id], resultId, s'.now)]
    ensures CountsOf(s'.log) == if t.outcome.Applied? then CountsOf(s.log).(sent := CountsOf(s.log).sent + 1)
                                else CountsOf(s.log)
  {
    s' := MarkSentRun(c, s, id, msg, since, resultId, i, t);
    if !t.outcome.Applied? {
      var s1 := s';
      s' := AbandonRun(c, s1, id, msg, since, Phase.Delivered(resultId, i + 1));
      ReachesOn(c, s, s1, s');
    }
  }

  /** The tries of MarkSent, and the end of the dispatch. */
  lemma {:induction false} TriesRun(c: Config, s: State, id: MessageId, msg: Message, since: int, resultId: string,
                                    i: nat, tries: seq<Try>)
    returns (s': State)
    requires OnlyLive(s, id, msg, since, Phase.Delivered(resultId, i)) && i + |tries| == MARK_SENT_TRIES
    requires s.now + TriesTake(tries) <= since + c.perAttempt
    ensures Reaches(c, s, s') && s'.now == s.now + TriesTake(tries) && s'.live == map[]
    ensures s'.table == s.table[id := SentRow(s.table[id], resultId, tries, s.now)]
    ensures CountsOf(s'.log) == CountedTries(CountsOf(s.log), tries)
    decreases |tries|
  {
    if tries == [] {
      s' := AbandonRun(c, s, id, msg, since, Phase.Delivered(resultId, i));
    } else if IsLast(tries[0]) {
      s' := LastTryRun(c, s, id, msg, since, resultId, i, tries[0]);
    } else {
      var s1 := MarkSentRun(c, s, id, msg, since, resultId, i, tries[0]);
      s' := TriesRun(c, s1, id, msg, since, resultId, i + 1, tries[1..]);
      ReachesOn(c, s, s1, s');
    }
  }

  /** Send was called; the rest of the dispatch. */
  lemma ReplyRun(c: Config, s: State, id: MessageId, msg: Message, since: int, wx: Weather) returns (s': State)
    requires OnlyLive(s, id, msg, since, Awaiting) && s.table[id] == msg
    requires s.now + SendTakes(wx) <= since + c.perAttempt && |wx.sentWrites| == MARK_SENT_TRIES
    requires Backoff.Possible(msg.attempts, c.baseBackoff, c.maxBackoff, wx.delay(msg.attempts))
    ensures Reaches(c, s, s') && s'.now == s.now + SendTakes(wx) && s'.live == map[]
    ensures s'.table == s.table[id := SendOutcome(msg, wx, s.now)]
    ensures CountsOf(s'.log) == CountedReply(CountsOf(s.log), msg, wx)
  {
    if wx.reply.Refused? {
      s' := FailureRun(c, s, id, msg, since, Awaiting, wx.sending, wx.reply.error, wx.delay(msg.attempts),
                       wx.failedWrite);
    } else {
      var s1 := AcceptRun(c, s, id, msg, since, wx.sending, wx.reply.resultId);
      s' := TriesRun(c, s1, id, msg, since, wx.reply.resultId, 0, wx.sentWrites);
      ReachesOn(c, s, s1, s');
    }
  }

  /** A whole dispatch is a run of the protocol that leaves the row the worker leaves, takes as
      long, and logs what the worker counts. */
  lemma DispatchRun(c: Config, s: State, id: MessageId, msg: Message, wx: Weather) returns (s': State)
    requires OnlyLive(s, id, msg, s.now, Preparing) && s.table[id] == msg && Complete(c, wx)
    ensures Reaches(c, s, s') && s'.now == s.now + Duration(wx) && s'.live == map[]
    ensures s'.table == s.table[id := Outcome(msg, wx, s.now)]
    ensures CountsOf(s'.log) == CountedDispatch(CountsOf(s.log), msg, wx)
  {
    var delay := wx.delay(msg.attempts);
    if wx.preparation.Some? {
      s' := FailureRun(c, s, id, msg, s.now, Preparing, wx.preparing, wx.preparation.value, delay, wx.failedWrite);
    } else {
      var s1 := SendRun(c, s, id, msg, s.now, wx.preparing);
      s' := ReplyRun(c, s1, id, msg, s.now, wx);
      ReachesOn(c, s, s1, s');
    }
  }

  /** After a while a worker without a dispatch claims a row. */
  lemma ClaimRun(c: Config, s: State, wait: nat, id: MessageId) returns (s': State)
    requires s.live == map[] && Earliest(s.table, s.now + wait, {}, id)
    ensures Reaches(c, s, s') && s'.now == s.now + wait && CountsOf(s'.log) == CountsOf(s.log)
    ensures var row := Claimed(s.table[id], s'.now, c.lease);
      s'.table == s.table[id := row] && OnlyLive(s', id, row, s'.now, Preparing)
  {
    var s1 := ReachesByStep(c, s, Step.Tick(s.now + wait));
    s' := ReachesByStep(c, s1, Claim(0, id, {}));
    ReachesOn(c, s, s1, s');
    CountsAfter(s.log, RowClaimed(id, s'.now));
  }

  /** A drain is a run of the protocol: whatever the protocol keeps in all runs, a draining worker
      keeps, and its counters are those the log of the run determines. */
  lemma {:induction false} DrainIsARun(c: Config, tables: seq<Table>, claims: seq<ClaimAt>, turns: seq<Turn>,
                                       start: int)
    returns (s: State)
    requires History(c, tables, claims, turns) && (claims != [] ==> start <= claims[0].at)
    requires forall k | 0 <= k < |turns| :: Complete(c, turns[k].wx)
    ensures exists steps :: Run(c, State(start, tables[0], map[], []), steps) == Some(s)
    ensures s.table == tables[|claims|] && s.live == map[]
    ensures s.now == if claims == [] then start else EndOf(Last(claims), turns[|claims| - 1])
    ensures CountsOf(s.log) == CountedClaims(Counts(0, 0, 0, 0), claims, turns)
    decreases |claims|
  {
    var boot := State(start, tables[0], map[], []);
    if claims == [] {
      s := boot;
    } else {
      var n := |claims| - 1;
      var before := DrainIsARun(c, tables[..n + 1], claims[..n], turns, start);
      s := TurnRun(c, before, tables[n], claims[n], turns[n], tables[n + 1]);
      ReachesExactly(c, boot, before);
      ReachesOn(c, boot, before, s);
    }
    ReachesExactly(c, boot, s);
  }

  lemma TurnRun(c: Config, s: State, before: Table, claim: ClaimAt, turn: Turn, t: Table) returns (s': State)
    requires Follows(c, before, claim, turn, t) && Complete(c, turn.wx)
    requires s.table == before && s.live == map[] && s.now <= claim.at
    ensures Reaches(c, s, s') && s'.table == t && s'.live == map[] && s'.now == EndOf(claim, turn)
    ensures CountsOf(s'.log) == CountedDispatch(CountsOf(s.log), claim.row, turn.wx)
  {
    var s1 := ClaimRun(c, s, claim.at - s.now, claim.id);
    s' := DispatchRun(c, s1, claim.id, claim.row, turn.wx);
    ReachesOn(c, s, s1, s');
  }
}
