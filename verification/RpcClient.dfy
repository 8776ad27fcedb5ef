/** The TCP JSON-RPC client: many Send callers, one dial and read goroutine, a pending map and
    a gate behind one mutex, capacity-1 reply channels, and Close. */
module RpcClient {
  import opened Domain

  type RequestId = nat
  type GateId = nat

  datatype Body = ResultBody(payload: string) | ErrorBody(code: int, message: string)

  /** A line as the demultiplexer sees it: a response carries a non-empty id; everything else is
      a notification, blank or malformed and never reaches the pending map. */
  datatype Frame = Response(id: RequestId, body: Body) | Other

  /** A value put on a reply channel. `frame` is the position of the line it came from. */
  datatype Reply = Answer(frame: nat, body: Body) | Disconnect

  /** Everything ever sent on a reply channel, and how much of it was received. */
  datatype Chan = Chan(sent: seq<Reply>, taken: nat) {
    /** Room for one more value in a channel of capacity one. */
    predicate Free() {
      |sent| <= taken
    }
    function Put(r: Reply): Chan {
      Chan(sent + [r], taken)
    }
    /** A send of a disconnect that gives up when there is no room. */
    function Fail(): Chan {
      if Free() then Put(Disconnect) else this
    }
  }

  /** The fields behind the mutex, the reply channels, and the gates closed so far in order. */
  datatype Shared = Shared(
    closed: bool, connected: bool, pending: set<RequestId>, chans: map<RequestId, Chan>,
    gate: GateId, closings: seq<GateId>)

  // ----- The mutex sections, as functions on the shared fields

  function FailedChan(sh: Shared, r: RequestId): Chan
    requires r in sh.chans
  {
    if r in sh.pending then sh.chans[r].Fail() else sh.chans[r]
  }

  /** failPending: a disconnect for every entry whose channel has room, and no entry left. */
  function FailPending(sh: Shared): Shared {
    sh.(pending := {}, chans := map r | r in sh.chans :: FailedChan(sh, r))
  }

  function Register(sh: Shared, r: RequestId): Shared {
    sh.(pending := sh.pending + {r}, chans := sh.chans[r := Chan([], 0)])
  }

  function Unregister(sh: Shared, r: RequestId): Shared {
    sh.(pending := sh.pending - {r})
  }

  function Connect(sh: Shared): Shared {
    sh.(connected := true, closings := sh.closings + [sh.gate])
  }

  /** The second half of markShutdown: close the gate unless it is closed already. */
  function Shut(sh: Shared): Shared {
    sh.(closed := true,
        closings := if sh.gate in sh.closings then sh.closings else sh.closings + [sh.gate])
  }

  /** The object whose methods are those sections. */
  class TcpClient {
    var closed: bool
    var connected: bool
    var pending: set<RequestId>
    var chans: map<RequestId, Chan>
    var gate: GateId
    var closings: seq<GateId>

    function View(): Shared
      reads this
    {
      Shared(closed, connected, pending, chans, gate, closings)
    }

    constructor ()
      ensures View() == Shared(false, false, {}, map[], 0, [])
    {
      closed, connected, pending, chans, gate, closings := false, false, {}, map[], 0, [];
    }

    method FailAllPending()
      requires pending <= chans.Keys
      modifies this
      ensures View() == FailPending(old(View()))
    {
      ghost var sh := View();
      while pending != {}
        invariant pending <= sh.pending <= sh.chans.Keys && chans.Keys == sh.chans.Keys
        invariant closed == sh.closed && connected == sh.connected && gate == sh.gate && closings == sh.closings
        invariant forall r | r in pending :: chans[r] == sh.chans[r]
        invariant forall r | r in chans && r !in pending :: chans[r] == FailedChan(sh, r)
        decreases |pending|
      {
        var r :| r in pending;
        if chans[r].Free() {
          chans := chans[r := chans[r].Put(Disconnect)];
        }
        pending := pending - {r};
      }
      assert chans == FailPending(sh).chans;
    }

    /** The section of sendAwait that adds the call, unless the client is closed. */
    method TryRegister(r: RequestId) returns (ok: bool)
      modifies this
      ensures ok <==> !old(closed)
      ensures View() == if ok then Register(old(View()), r) else old(View())
    {
      if closed {
        return false;
      }
      pending, chans := pending + {r}, chans[r := Chan([], 0)];
      return true;
    }

    /** The section of dispatchFrame that looks an id up and takes its entry. */
    method TakePending(r: RequestId) returns (found: bool)
      modifies this
      ensures found <==> r in old(pending)
      ensures View() == Unregister(old(View()), r)
    {
      found := r in pending;
      if found {
        pending := pending - {r};
      }
    }

    /** The second section of markShutdown. */
    method FinishShutdown()
      modifies this
      ensures View() == Shut(old(View()))
    {
      if !closed {
        closed := true;
      }
      if gate !in closings {
        closings := closings + [gate];
      }
    }

    method MarkShutdown()
      requires pending <= chans.Keys
      modifies this
      ensures View() == Shut(FailPending(old(View())))
    {
      FailAllPending();
      FinishShutdown();
    }
  }

  // ----- The protocol

  datatype Result =
    | Ok(payload: string)
    | DaemonError(code: int, message: string)
    | Disconnected
    | Shutdown
    | Cancelled
    | TimedOut
    | WriteFailed

  /** Where a Send call stands. A call is registered from Registered to Returning; `Writing` holds
      the connection it took, which belongs to the gate its dial closed. */
  datatype Call =
    | AtGate(gate: GateId)
    | Ready
    | Registered
    | Writing(gate: GateId)
    | Awaiting
    | Returning(result: Result)
    | Returned(result: Result)

  /** Where the dial and read goroutine stands. */
  datatype Dialer =
    | Dialing
    | Reading
    | Handing(id: RequestId, reply: Reply)  // entry taken, value not yet on its channel
    | ReadEnded
    | PendingFailed
    | ConnDropped(sawClosed: bool)
    | Rearming
    | ShutdownBegun
    | ShutdownFailed
    | Exited

  datatype State = State(
    sh: Shared, cancelled: bool, calls: map<RequestId, Call>, dialer: Dialer, frames: seq<Frame>)

  datatype Step =
    | StartSend(r: RequestId)
    | PassGate(r: RequestId)
    | LeaveGate(r: RequestId, result: Result)
    | RegisterCall(r: RequestId)
    | TakeConn(r: RequestId)
    | WriteFrame(r: RequestId, ok: bool)
    | StopAwaiting(r: RequestId, result: Result)
    | Receive(r: RequestId)
    | Return(r: RequestId)
    | DialSucceeds
    | DialAborts
    | ReadFrame(frame: Frame)
    | HandOver
    | EndRead
    | FailOnDisconnect
    | DropConn
    | Decide
    | Rearm
    | FailOnShutdown
    | FinishShutdown
    | Close
    | CancelRun

  function Init(): State {
    State(Shared(false, false, {}, map[], 0, []), false, map[], Dialing, [])
  }

  predicate In(s: State, r: RequestId, c: Call) {
    r in s.calls && s.calls[r] == c
  }

  /** Request ids are fresh: StartSend never reuses one. A dial that fails and is retried changes
      nothing and has no step. */
  predicate Enabled(s: State, step: Step) {
    match step
    case StartSend(r) => r !in s.calls
    case PassGate(r) => r in s.calls && s.calls[r].AtGate? && s.calls[r].gate in s.sh.closings
    case LeaveGate(r, result) =>
      r in s.calls && s.calls[r].AtGate? && (result.Cancelled? || (result.Shutdown? && s.cancelled))
    case RegisterCall(r) => In(s, r, Ready)
    case TakeConn(r) => In(s, r, Registered)
    // A connection is closed before it is dropped: a write can succeed only on the current one.
    case WriteFrame(r, ok) =>
      r in s.calls && s.calls[r].Writing? && (ok ==> s.sh.connected && s.calls[r].gate == s.sh.gate)
    case StopAwaiting(r, result) =>
      In(s, r, Awaiting) && (result.Cancelled? || result.TimedOut? || (result.Shutdown? && s.cancelled))
    case Receive(r) => In(s, r, Awaiting) && r in s.sh.chans && !s.sh.chans[r].Free()
    case Return(r) => r in s.calls && s.calls[r].Returning?
    case DialSucceeds => s.dialer.Dialing?
    case DialAborts => s.dialer.Dialing? && s.cancelled
    case ReadFrame(frame) => s.dialer.Reading?
    case HandOver => s.dialer.Handing? && s.dialer.id in s.sh.chans && s.sh.chans[s.dialer.id].Free()
    case EndRead => s.dialer.Reading?
    case FailOnDisconnect => s.dialer.ReadEnded?
    case DropConn => s.dialer.PendingFailed?
    case Decide => s.dialer.ConnDropped?
    case Rearm => s.dialer.Rearming?
    case FailOnShutdown => s.dialer.ShutdownBegun?
    case FinishShutdown => s.dialer.ShutdownFailed?
    case Close => true
    case CancelRun => s.sh.closed  // runCancel is called by Close alone, after it set closed
  }

  function Outcome(reply: Reply): Result {
    match reply
    case Disconnect => Disconnected
    case Answer(_, ResultBody(payload)) => Ok(payload)
    case Answer(_, ErrorBody(code, message)) => DaemonError(code, message)
  }

  function Next(s: State, step: Step): State
    requires Enabled(s, step)
  {
    match step
    case StartSend(r) => s.(calls := s.calls[r := if s.sh.closed then Returned(Shutdown) else AtGate(s.sh.gate)])
    case PassGate(r) => s.(calls := s.calls[r := Ready])
    case LeaveGate(r, result) => s.(calls := s.calls[r := Returned(result)])
    case RegisterCall(r) =>
      if s.sh.closed then s.(calls := s.calls[r := Returned(Shutdown)])
      else s.(sh := Register(s.sh, r), calls := s.calls[r := Registered])
    case TakeConn(r) =>
      s.(calls := s.calls[r := if s.sh.connected then Writing(s.sh.gate) else Returning(Disconnected)])
    case WriteFrame(r, ok) => s.(calls := s.calls[r := if ok then Awaiting else Returning(WriteFailed)])
    case StopAwaiting(r, result) => s.(calls := s.calls[r := Returning(result)])
    case Receive(r) =>
      var ch := s.sh.chans[r];
      s.(sh := s.sh.(chans := s.sh.chans[r := ch.(taken := ch.taken + 1)]),
         calls := s.calls[r := Returning(Outcome(ch.sent[ch.taken]))])
    case Return(r) =>
      s.(sh := Unregister(s.sh, r), calls := s.calls[r := Returned(s.calls[r].result)])
    case DialSucceeds => s.(sh := Connect(s.sh), dialer := Reading)
    case DialAborts => s.(dialer := ShutdownBegun)
    case ReadFrame(frame) =>
      var seen := s.(frames := s.frames + [frame]);
      if frame.Response? && frame.id in s.sh.pending then
        seen.(sh := Unregister(s.sh, frame.id),
              dialer := Handing(frame.id, Answer(|s.frames|, frame.body)))
      else seen
    case HandOver =>
      var r := s.dialer.id;
      s.(sh := s.sh.(chans := s.sh.chans[r := s.sh.chans[r].Put(s.dialer.reply)]), dialer := Reading)
    case EndRead => s.(dialer := ReadEnded)
    case FailOnDisconnect => s.(sh := FailPending(s.sh), dialer := PendingFailed)
    case DropConn => s.(sh := s.sh.(connected := false), dialer := ConnDropped(s.sh.closed))
    case Decide => s.(dialer := if s.dialer.sawClosed || s.cancelled then ShutdownBegun else Rearming)
    case Rearm => s.(sh := s.sh.(gate := s.sh.gate + 1), dialer := Dialing)
    case FailOnShutdown => s.(sh := FailPending(s.sh), dialer := ShutdownFailed)
    case FinishShutdown => s.(sh := Shut(s.sh), dialer := Exited)
    case Close => s.(sh := s.sh.(closed := true))
    case CancelRun => s.(cancelled := true)
  }

  function Run(s: State, steps: seq<Step>): Option<State>
    decreases |steps|
  {
    if steps == [] then Some(s)
    else match Run(s, steps[..|steps| - 1])
      case None => None
      case Some(mid) =>
        var last := steps[|steps| - 1];
        if Enabled(mid, last) then Some(Next(mid, last)) else None
  }
}
