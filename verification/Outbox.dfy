/** The outbox protocol: any number of workers, the timeout reaper and operators step on the
    same rows. One step is one SQL statement, one phase of a dispatch, a crash, or the clock. */
module Outbox {
  import opened Domain
  import opened Messages
  import Backoff

  datatype Config = Config(lease: nat, perAttempt: nat, baseBackoff: nat, maxBackoff: nat)

  type DispatchId = nat

  /** Where a dispatch stands: downloading and building; inside Send; Send accepted and MarkSent
      tried `tries` times; failed and about to MarkFailed with the schedule it computed. */
  datatype Phase =
    | Preparing
    | Awaiting
    | Delivered(resultId: string, tries: nat)
    | Failing(error: string, next: int)

  /** A dispatch that may still call Send or write its row. `settled`, `resent` and `claim` are
      history: whether one of its writes took effect, whether a Resend hit its row meanwhile, and
      the position of its claim in the log. */
  datatype Dispatch = Dispatch(
    id: MessageId, snapshot: Message, claimedAt: int, phase: Phase, settled: bool, resent: bool, claim: nat)

  /** A write can take effect and be acknowledged, take effect and report an error, or not
      take effect. */
  datatype WriteOutcome = Applied | LostAck | Lost

  datatype Event =
    | RowClaimed(id: MessageId, at: int)
    | SendCalled(id: MessageId)
    | SendAccepted(id: MessageId, resultId: string)
    | RowResent(id: MessageId)
    | Abandoned(id: MessageId)
    | SentReported(id: MessageId)
    | FailureReported(id: MessageId, permanentBranch: bool, wrote: Status, resent: bool, claim: nat)

  datatype State = State(now: int, table: Table, live: map<DispatchId, Dispatch>, log: seq<Event>)

  datatype Step =
    | Insert(id: MessageId, maxAttempts: int, timeoutAt: Option<int>)
    | Claim(w: DispatchId, id: MessageId, locked: set<MessageId>)
    | CallSend(w: DispatchId)
    | SendSucceeds(w: DispatchId, resultId: string)
    | AttemptFails(w: DispatchId, error: string, delay: int)
    | MarkSent(w: DispatchId, outcome: WriteOutcome)
    | MarkFailed(w: DispatchId, outcome: WriteOutcome)
    | Abandon(w: DispatchId)
    | Sweep
    | Resend(id: MessageId)
    | Put(id: MessageId, target: Status)
    | Tick(to: int)

  const MARK_SENT_TRIES := 3

  function Init(): State {
    State(0, map[], map[], [])
  }

  /** The per-attempt deadline is the guard of the clock: time does not pass the deadline of a
      dispatch that has not ended. */
  predicate Enabled(c: Config, s: State, step: Step) {
    match step
    case Insert(id, maxAttempts, timeoutAt) => id !in s.table && maxAttempts >= 1
    case Claim(w, id, locked) => w !in s.live && Earliest(s.table, s.now, locked, id)
    case CallSend(w) => w in s.live && s.live[w].phase.Preparing?
    case SendSucceeds(w, resultId) => w in s.live && s.live[w].phase.Awaiting?
    case AttemptFails(w, error, delay) =>
      && w in s.live && (s.live[w].phase.Preparing? || s.live[w].phase.Awaiting?)
      && Backoff.Possible(s.live[w].snapshot.attempts, c.baseBackoff, c.maxBackoff, delay)
    case MarkSent(w, outcome) =>
      w in s.live && s.live[w].phase.Delivered? && s.live[w].phase.tries < MARK_SENT_TRIES
    case MarkFailed(w, outcome) => w in s.live && s.live[w].phase.Failing?
    case Abandon(w) => w in s.live
    case Sweep => true
    case Resend(id) => id in s.table
    case Put(id, target) => id in s.table && s.table[id].deletedAt.None? && IsOperatorAssignable(target)
    case Tick(to) => s.now <= to && forall w | w in s.live :: to <= s.live[w].claimedAt + c.perAttempt
  }

  function Next(c: Config, s: State, step: Step): State
    requires Enabled(c, s, step)
  {
    match step
    case Insert(id, maxAttempts, timeoutAt) =>
      s.(table := s.table[id := Inserted(maxAttempts, timeoutAt, s.now)])
    case Claim(w, id, locked) => ClaimedAt(c, s, s.now, id, w)
    case CallSend(w) =>
      s.(live := s.live[w := s.live[w].(phase := Awaiting)], log := s.log + [SendCalled(s.live[w].id)])
    case SendSucceeds(w, resultId) =>
      s.(live := s.live[w := s.live[w].(phase := Delivered(resultId, 0))],
         log := s.log + [SendAccepted(s.live[w].id, resultId)])
    case AttemptFails(w, error, delay) =>
      s.(live := s.live[w := s.live[w].(phase := Failing(error, s.now + delay))])
    case MarkSent(w, outcome) => MarkSentNext(s, w, outcome)
    case MarkFailed(w, outcome) => MarkFailedNext(s, w, outcome)
    case Abandon(w) =>
      Ended(s, w, if s.live[w].settled then [] else [Abandoned(s.live[w].id)])
    case Sweep => s.(table := Swept(s.table, s.now))
    case Resend(id) => if Resendable(s.table[id]) then ResendNext(s, id) else s
    case Put(id, target) => s.(table := s.table[id := Overridden(s.table[id], target, s.now)])
    case Tick(to) => s.(now := to)
  }

  /** The state after a claim whose transaction began at `at`. */
  function ClaimedAt(c: Config, s: State, at: int, id: MessageId, w: DispatchId): State
    requires id in s.table
  {
    var row := Claimed(s.table[id], at, c.lease);
    s.(table := s.table[id := row],
       live := s.live[w := Dispatch(id, row, at, Preparing, false, false, |s.log|)],
       log := s.log + [RowClaimed(id, at)])
  }

  function Ended(s: State, w: DispatchId, events: seq<Event>): State {
    s.(live := s.live - {w}, log := s.log + events)
  }

  function MarkSentNext(s: State, w: DispatchId, outcome: WriteOutcome): State
    requires w in s.live && s.live[w].phase.Delivered?
  {
    var d := s.live[w];
    var t := if outcome.Lost? then s.table else WithSent(s.table, d.id, d.phase.resultId, s.now);
    if outcome.Applied? then Ended(s.(table := t), w, [SentReported(d.id)])
    else
      var retry := d.(phase := Delivered(d.phase.resultId, d.phase.tries + 1),
                      settled := d.settled || outcome.LostAck?);
      s.(table := t, live := s.live[w := retry])
  }

  function MarkFailedNext(s: State, w: DispatchId, outcome: WriteOutcome): State
    requires w in s.live && s.live[w].phase.Failing?
  {
    var d := s.live[w];
    if outcome.Lost? then Ended(s, w, [Abandoned(d.id)])
    else
      var t := WithFailed(s.table, d.id, d.phase.error, d.phase.next, s.now);
      // The worker mirrors the CASE of the statement on its own copy of the row.
      var exhausted := d.snapshot.attempts >= d.snapshot.maxAttempts;
      var events := if outcome.LostAck? || d.id !in t then []
                    else [FailureReported(d.id, exhausted, t[d.id].status, d.resent, d.claim)];
      Ended(s.(table := t), w, events)
  }

  function ResendNext(s: State, id: MessageId): State
    requires id in s.table
  {
    s.(table := s.table[id := Resent(s.table[id], s.now)],
       live := map w | w in s.live ::
         if s.live[w].id == id then s.live[w].(resent := true) else s.live[w],
       log := s.log + [RowResent(id)])
  }

  function ButLast<T>(xs: seq<T>): seq<T>
    requires xs != []
  {
    xs[..|xs| - 1]
  }

  function Last<T>(xs: seq<T>): T
    requires xs != []
  {
    xs[|xs| - 1]
  }

  /** The state a sequence of steps leads to, if every step is enabled when it is taken. */
  function Run(c: Config, s: State, steps: seq<Step>): Option<State>
    decreases |steps|
  {
    if steps == [] then Some(s)
    else match Run(c, s, ButLast(steps))
      case None => None
      case Some(mid) => if Enabled(c, mid, Last(steps)) then Some(Next(c, mid, Last(steps))) else None
  }

  /** No message has two live dispatches. */
  predicate Exclusive(s: State) {
    forall v, w | v in s.live && w in s.live && v != w :: s.live[v].id != s.live[w].id
  }
}
