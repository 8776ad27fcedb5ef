/** What every interleaving of Send, read, disconnect, reconnect and Close keeps. */
module RpcClientProofs {
  import opened Domain
  import opened RpcClient

  predicate IsRegistered(c: Call) {
    c.Registered? || c.Writing? || c.Awaiting? || c.Returning?
  }

  predicate BeingHanded(s: State, r: RequestId) {
    s.dialer.Handing? && s.dialer.id == r
  }

  /** Registered and not yet returned, no value ever sent to it, and none on its way. */
  predicate Outstanding(s: State, r: RequestId) {
    && r in s.calls && IsRegistered(s.calls[r])
    && r in s.sh.chans && s.sh.chans[r].sent == [] && !BeingHanded(s, r)
  }

  /** The reply came from a line that carried this id. */
  predicate Genuine(s: State, r: RequestId, reply: Reply) {
    reply.Answer? ==> reply.frame < |s.frames| && s.frames[reply.frame] == Response(r, reply.body)
  }

  /** What a received value makes Send return: the payload of a result, an error for an error object,
      and ErrDisconnected for a disconnect. */
  predicate Tells(reply: Reply, result: Result) {
    && (result.Ok? <==> reply.Answer? && reply.body.ResultBody?)
    && (result.Ok? ==> result.payload == reply.body.payload)
    && (result.DaemonError? <==> reply.Answer? && reply.body.ErrorBody?)
    && (result.DaemonError? ==> result.code == reply.body.code && result.message == reply.body.message)
    && (reply.Disconnect? ==> result.Disconnected?)
  }

  /** The call took the one value of its channel. */
  predicate TookValue(s: State, r: RequestId) {
    r in s.sh.chans && |s.sh.chans[r].sent| == 1 && s.sh.chans[r].taken == 1
  }

  /** Results and daemon errors are what the call received; a shutdown is one. */
  predicate ResultFits(s: State, r: RequestId, result: Result) {
    && (result.Ok? || result.DaemonError? ==> TookValue(s, r))
    && (TookValue(s, r) ==> Tells(s.sh.chans[r].sent[0], result))
    && (result.Shutdown? ==> s.sh.closed)
  }

  predicate CallInv(s: State, r: RequestId) {
    && (r in s.sh.pending <==> Outstanding(s, r))
    && (r in s.calls && IsRegistered(s.calls[r]) ==> r in s.sh.chans)
    && (r in s.sh.chans ==>
          && r in s.calls && (IsRegistered(s.calls[r]) || s.calls[r].Returned?)
          && |s.sh.chans[r].sent| <= 1
          && s.sh.chans[r].taken <= |s.sh.chans[r].sent|
          && (IsRegistered(s.calls[r]) && !s.calls[r].Returning? ==> s.sh.chans[r].taken == 0)
          && (forall i | 0 <= i < |s.sh.chans[r].sent| :: Genuine(s, r, s.sh.chans[r].sent[i])))
    && (BeingHanded(s, r) ==>
          r in s.sh.chans && s.sh.chans[r].sent == [] && s.sh.chans[r].taken == 0
          && Genuine(s, r, s.dialer.reply) && s.dialer.reply.Answer?)
    && (r in s.calls && (s.calls[r].Returning? || s.calls[r].Returned?) ==> ResultFits(s, r, s.calls[r].result))
    && (r in s.calls && s.calls[r].AtGate? ==> s.calls[r].gate <= s.sh.gate)
  }

  predicate GateOpen(s: State) {
    s.sh.gate !in s.sh.closings
  }

  predicate Distinct(gates: seq<GateId>) {
    forall i, j | 0 <= i < j < |gates| :: gates[i] != gates[j]
  }

  predicate GateInv(s: State) {
    && Distinct(s.sh.closings)
    && (forall g | g in s.sh.closings :: g <= s.sh.gate)
    && (forall g: GateId | g < s.sh.gate :: g in s.sh.closings)
    && (s.dialer.Dialing? ==> GateOpen(s))
    && (!s.dialer.Dialing? && !s.dialer.ShutdownBegun? && !s.dialer.ShutdownFailed? ==> !GateOpen(s))
  }

  predicate ShutdownInv(s: State) {
    && (s.cancelled ==> s.sh.closed)
    && (s.dialer.ConnDropped? && s.dialer.sawClosed ==> s.sh.closed)
    && (s.dialer.ShutdownBegun? || s.dialer.ShutdownFailed? || s.dialer.Exited? ==> s.sh.closed)
    && (s.dialer.ShutdownFailed? || s.dialer.Exited? ==> s.sh.pending == {})
  }

  ghost predicate Inv(s: State) {
    (forall r :: CallInv(s, r)) && GateInv(s) && ShutdownInv(s)
  }

  lemma GateKept(s: State, step: Step)
    requires Inv(s) && Enabled(s, step)
    ensures GateInv(Next(s, step))
  {
    var s' := Next(s, step);
    if s'.sh.closings != s.sh.closings {
      assert s'.sh.closings == s.sh.closings + [s.sh.gate];
    }
  }

  predicate ByCaller(step: Step, r: RequestId) {
    && (step.StartSend? || step.PassGate? || step.LeaveGate? || step.RegisterCall? || step.TakeConn? || step.WriteFrame?
        || step.StopAwaiting? || step.Receive? || step.Return?)
    && step.r == r
  }

  lemma CallerKept(s: State, step: Step, r: RequestId)
    requires Inv(s) && Enabled(s, step) && ByCaller(step, r)
    ensures CallInv(Next(s, step), r)
  {
    assert CallInv(s, r);
  }

  lemma ReadKept(s: State, frame: Frame, r: RequestId)
    requires Inv(s) && Enabled(s, ReadFrame(frame))
    ensures CallInv(Next(s, ReadFrame(frame)), r)
  {
    assert CallInv(s, r);
    assert s.frames <= Next(s, ReadFrame(frame)).frames;
  }

  lemma HandOverKept(s: State, r: RequestId)
    requires Inv(s) && Enabled(s, HandOver)
    ensures CallInv(Next(s, HandOver), r)
  {
    assert CallInv(s, r) && CallInv(s, s.dialer.id);
  }

  predicate Fails(step: Step) {
    step.FailOnDisconnect? || step.FailOnShutdown?
  }

  lemma FailKept(s: State, step: Step, r: RequestId)
    requires Inv(s) && Enabled(s, step) && Fails(step)
    ensures CallInv(Next(s, step), r)
  {
    assert CallInv(s, r);
  }

  /** Nothing that concerns the call changed. */
  predicate Untouched(s: State, s': State, r: RequestId) {
    && (r in s'.calls <==> r in s.calls) && (r in s.calls ==> s'.calls[r] == s.calls[r])
    && (r in s'.sh.chans <==> r in s.sh.chans) && (r in s.sh.chans ==> s'.sh.chans[r] == s.sh.chans[r])
    && (r in s'.sh.pending <==> r in s.sh.pending)
    && (BeingHanded(s', r) <==> BeingHanded(s, r)) && (BeingHanded(s, r) ==> s'.dialer == s.dialer)
    && (s.sh.closed ==> s'.sh.closed)
    && s'.frames == s.frames && s.sh.gate <= s'.sh.gate
  }

  lemma UntouchedKept(s: State, s': State, r: RequestId)
    requires CallInv(s, r) && Untouched(s, s', r)
    ensures CallInv(s', r)
  {}

  lemma BystanderUntouched(s: State, step: Step, r: RequestId)
    requires Enabled(s, step) && !ByCaller(step, r) && !step.ReadFrame? && !step.HandOver? && !Fails(step)
    ensures Untouched(s, Next(s, step), r)
  {}

  lemma StepKeepsInv(s: State, step: Step)
    requires Inv(s) && Enabled(s, step)
    ensures Inv(Next(s, step))
  {
    GateKept(s, step);
    forall r ensures CallInv(Next(s, step), r) {
      if ByCaller(step, r) {
        CallerKept(s, step, r);
      } else if step.ReadFrame? {
        ReadKept(s, step.frame, r);
      } else if step.HandOver? {
        HandOverKept(s, r);
      } else if Fails(step) {
        FailKept(s, step, r);
      } else {
        BystanderUntouched(s, step, r);
        UntouchedKept(s, Next(s, step), r);
      }
    }
  }

  lemma {:induction false} RunKeepsInv(s: State, steps: seq<Step>)
    requires Inv(s) && Run(s, steps).Some?
    ensures Inv(Run(s, steps).value)
    decreases |steps|
  {
    if steps != [] {
      RunKeepsInv(s, steps[..|steps| - 1]);
      StepKeepsInv(Run(s, steps[..|steps| - 1]).value, steps[|steps| - 1]);
    }
  }

  /** Its channel has received the one value it will ever receive. */
  predicate HasItsValue(s: State, r: RequestId) {
    r in s.sh.chans && |s.sh.chans[r].sent| == 1
  }

  // ----- Pending-map accounting

  /** The pending ids are exactly the registered calls not yet answered, failed or returned. */
  lemma PendingAccounting(steps: seq<Step>)
    requires Run(Init(), steps).Some?
    ensures var s := Run(Init(), steps).value;
      forall r :: r in s.sh.pending <==> Outstanding(s, r)
  {
    RunKeepsInv(Init(), steps);
    var s := Run(Init(), steps).value;
    forall r ensures r in s.sh.pending <==> Outstanding(s, r) {
      assert CallInv(s, r);
    }
  }

  /** The call has not begun, waits at a gate, has passed it, or was refused. */
  predicate Unregistered(s: State, r: RequestId) {
    r !in s.calls || s.calls[r].AtGate? || s.calls[r].Ready? || s.calls[r] in {Returned(Shutdown), Returned(Cancelled)}
  }

  lemma ClosedStep(s: State, step: Step)
    requires s.sh.closed && Enabled(s, step)
    ensures Next(s, step).sh.closed && Next(s, step).sh.pending <= s.sh.pending
    ensures s.dialer.Exited? ==> Next(s, step).dialer.Exited?
    ensures forall r | Unregistered(s, r) :: Unregistered(Next(s, step), r)
    ensures forall r | r in Next(s, step).calls && r !in s.calls :: Next(s, step).calls[r] == Returned(Shutdown)
  {}

  /** Once `closed` is set it stays set and no call is added: a Send that begins returns a shutdown,
      and one that had not registered yet never does. */
  lemma {:induction false} NothingAddedOnceClosed(s: State, steps: seq<Step>)
    requires s.sh.closed && Run(s, steps).Some?
    ensures Run(s, steps).value.sh.closed && Run(s, steps).value.sh.pending <= s.sh.pending
    ensures forall r | Unregistered(s, r) :: Unregistered(Run(s, steps).value, r)
    ensures forall r | r in Run(s, steps).value.calls && r !in s.calls ::
      Run(s, steps).value.calls[r] == Returned(Shutdown)
    decreases |steps|
  {
    if steps != [] {
      NothingAddedOnceClosed(s, steps[..|steps| - 1]);
      ClosedStep(Run(s, steps[..|steps| - 1]).value, steps[|steps| - 1]);
    }
  }

  predicate Quiet(s: State) {
    && s.sh.closed && s.sh.pending == {}
    && (forall r | r in s.calls && IsRegistered(s.calls[r]) :: HasItsValue(s, r))
    && (forall r | r in s.calls && s.calls[r].AtGate? :: Enabled(s, PassGate(r)))
  }

  lemma ExitedIsQuiet(s: State)
    requires Inv(s) && s.dialer.Exited?
    ensures Quiet(s)
  {
    assert forall r | r in s.calls :: CallInv(s, r);
  }

  /** After the dial loop has exited nothing is pending ever again, every call still registered
      has its one value, and no call is held at a gate. */
  lemma {:induction false} QuietAfterExit(s: State, steps: seq<Step>)
    requires Inv(s) && s.dialer.Exited? && Run(s, steps).Some?
    ensures Run(s, steps).value.dialer.Exited? && Quiet(Run(s, steps).value)
    decreases |steps|
  {
    RunKeepsInv(s, steps);
    if steps != [] {
      QuietAfterExit(s, steps[..|steps| - 1]);
      ClosedStep(Run(s, steps[..|steps| - 1]).value, steps[|steps| - 1]);
    }
    ExitedIsQuiet(Run(s, steps).value);
  }

  // ----- Single delivery

  /** Each reply channel receives at most one value in its whole life. The unguarded send of the
      reader finds room, so it never blocks; and failPending finds room in every entry, so its
      default branch is never taken and each entry gets a disconnect. */
  lemma SingleDelivery(steps: seq<Step>)
    requires Run(Init(), steps).Some?
    ensures var s := Run(Init(), steps).value;
      && (forall r | r in s.sh.chans :: |s.sh.chans[r].sent| <= 1)
      && (s.dialer.Handing? ==> Enabled(s, HandOver))
      && (forall r | r in s.sh.pending ::
            r in s.sh.chans && s.sh.chans[r].Free() && FailPending(s.sh).chans[r].sent == [Disconnect])
  {
    RunKeepsInv(Init(), steps);
    var s := Run(Init(), steps).value;
    forall r ensures CallInv(s, r) {}
    if s.dialer.Handing? { assert CallInv(s, s.dialer.id); }
    assert forall r | r in s.sh.pending :: CallInv(s, r);
    assert forall r | r in s.sh.chans :: CallInv(s, r);
  }

  /** A disconnect reaches every call registered at that moment: none is left without a value. */
  lemma DisconnectReachesEveryone(s: State, step: Step)
    requires Inv(s) && Enabled(s, step) && (step.FailOnDisconnect? || step.FailOnShutdown?)
    ensures var s' := Next(s, step);
      forall r | r in s'.calls && IsRegistered(s'.calls[r]) :: HasItsValue(s', r)
  {
    StepKeepsInv(s, step);
    var s' := Next(s, step);
    forall r | r in s'.calls && IsRegistered(s'.calls[r]) ensures HasItsValue(s', r) {
      assert CallInv(s', r);
    }
  }

  // ----- Response correlation

  /** In every run a Send that returned a result returned the payload of a result line that carried
      its own id; one that returned a daemon error, the error object of such a line; one that
      returned a shutdown did so after Close; and a Send that took a value from its channel returned
      what that value tells, a disconnect included. */
  lemma ResponsesCorrelate(steps: seq<Step>, r: RequestId)
    requires Run(Init(), steps).Some?
    requires var s := Run(Init(), steps).value; r in s.calls && s.calls[r].Returned?
    ensures var s := Run(Init(), steps).value;
      match s.calls[r].result
      case Ok(payload) => Response(r, ResultBody(payload)) in s.frames
      case DaemonError(code, message) => Response(r, ErrorBody(code, message)) in s.frames
      case Shutdown => s.sh.closed
      case _ => true
    ensures var s := Run(Init(), steps).value;
      TookValue(s, r) ==> Tells(s.sh.chans[r].sent[0], s.calls[r].result)
  {
    RunKeepsInv(Init(), steps);
    var s := Run(Init(), steps).value;
    assert CallInv(s, r);
    if s.calls[r].result.Ok? || s.calls[r].result.DaemonError? {
      assert Genuine(s, r, s.sh.chans[r].sent[0]);
    }
  }

  /** The call has its result, whether it has returned it yet or not. */
  predicate Decided(s: State, r: RequestId, result: Result) {
    In(s, r, Returning(result)) || In(s, r, Returned(result))
  }

  lemma DecidedStep(s: State, step: Step, r: RequestId, result: Result)
    requires Decided(s, r, result) && Enabled(s, step)
    ensures Decided(Next(s, step), r, result)
  {}

  lemma {:induction false} DecidedStays(s: State, steps: seq<Step>, r: RequestId, result: Result)
    requires Decided(s, r, result) && Run(s, steps).Some?
    ensures Decided(Run(s, steps).value, r, result)
    decreases |steps|
  {
    if steps != [] {
      DecidedStays(s, steps[..|steps| - 1], r, result);
      DecidedStep(Run(s, steps[..|steps| - 1]).value, steps[|steps| - 1], r, result);
    }
  }

  /** How a Send ends without a value: it leaves its gate or stops waiting for the reason given, it
      finds no connection, or its write fails. */
  predicate GivesUp(s: State, step: Step, r: RequestId, result: Result) {
    || step == LeaveGate(r, result) || step == StopAwaiting(r, result)
    || (step == TakeConn(r) && !s.sh.connected && result == Disconnected)
    || (step == WriteFrame(r, false) && result == WriteFailed)
  }

  /** And whatever happens afterwards, that is what it returns. */
  lemma GivingUpIsReturned(s: State, step: Step, r: RequestId, result: Result, next: State, steps: seq<Step>)
    requires GivesUp(s, step, r, result) && Enabled(s, step)
    requires next == Next(s, step) && Run(next, steps).Some?
    ensures Decided(Run(next, steps).value, r, result)
  {
    DecidedStays(next, steps, r, result);
  }

  /** No line answers two calls. */
  lemma NoFrameAnswersTwice(steps: seq<Step>, q: RequestId, r: RequestId, i: nat, j: nat)
    requires Run(Init(), steps).Some?
    requires var s := Run(Init(), steps).value;
      && q in s.sh.chans && i < |s.sh.chans[q].sent| && s.sh.chans[q].sent[i].Answer?
      && r in s.sh.chans && j < |s.sh.chans[r].sent| && s.sh.chans[r].sent[j].Answer?
      && s.sh.chans[q].sent[i].frame == s.sh.chans[r].sent[j].frame
    ensures q == r && i == j
  {
    RunKeepsInv(Init(), steps);
    var s := Run(Init(), steps).value;
    assert CallInv(s, q) && CallInv(s, r);
    assert Genuine(s, q, s.sh.chans[q].sent[i]) && Genuine(s, r, s.sh.chans[r].sent[j]);
  }

  // ----- The gate

  /** No gate is ever closed twice, a dial finds its gate open, and a call waits at a gate only
      while there is no connection. */
  lemma GateSafety(steps: seq<Step>)
    requires Run(Init(), steps).Some?
    ensures var s := Run(Init(), steps).value;
      && Distinct(s.sh.closings)
      && (s.dialer.Dialing? ==> s.sh.gate !in s.sh.closings)
      && (forall r | r in s.calls && s.calls[r].AtGate? && !Enabled(s, PassGate(r)) ::
            s.calls[r].gate == s.sh.gate
            && (s.dialer.Dialing? || s.dialer.ShutdownBegun? || s.dialer.ShutdownFailed?))
  {
    RunKeepsInv(Init(), steps);
    var s := Run(Init(), steps).value;
    forall r | r in s.calls && s.calls[r].AtGate? && !Enabled(s, PassGate(r))
      ensures s.calls[r].gate == s.sh.gate
      ensures s.dialer.Dialing? || s.dialer.ShutdownBegun? || s.dialer.ShutdownFailed?
    {
      assert CallInv(s, r);
    }
  }

  lemma HeldStep(s: State, step: Step, r: RequestId, gate: GateId)
    requires s.sh.gate == gate && GateOpen(s) && GateInv(s) && Enabled(s, step)
    requires !step.DialSucceeds? && !step.FinishShutdown?
    requires In(s, r, AtGate(gate)) || (r in s.calls && s.calls[r].Returned?)
    ensures var s' := Next(s, step);
      && s'.sh.gate == gate && GateOpen(s')
      && (In(s', r, AtGate(gate)) || (r in s'.calls && s'.calls[r].Returned?))
  {}

  /** And it does wait: until a dial succeeds or the loop has shut down, a call at the open gate gets
      nowhere but back to its caller. */
  lemma {:induction false} HeldUntilDial(s: State, steps: seq<Step>, r: RequestId)
    requires Inv(s) && GateOpen(s) && In(s, r, AtGate(s.sh.gate)) && Run(s, steps).Some?
    requires DialSucceeds !in steps && FinishShutdown !in steps
    ensures var s' := Run(s, steps).value;
      && s'.sh.gate == s.sh.gate && GateOpen(s')
      && (In(s', r, AtGate(s.sh.gate)) || (r in s'.calls && s'.calls[r].Returned?))
    decreases |steps|
  {
    if steps != [] {
      assert steps[|steps| - 1] in steps && forall x | x in steps[..|steps| - 1] :: x in steps;
      HeldUntilDial(s, steps[..|steps| - 1], r);
      RunKeepsInv(s, steps[..|steps| - 1]);
      HeldStep(Run(s, steps[..|steps| - 1]).value, steps[|steps| - 1], r, s.sh.gate);
    }
  }

  // ----- Calls that slip between failPending and the loss of the connection

  /** Waiting for a reply with no value sent and nobody about to send one. */
  predicate Stranded(s: State, r: RequestId) {
    In(s, r, Awaiting) && Outstanding(s, r)
  }

  /** No connection, and none being read. */
  predicate Offline(s: State) {
    !s.sh.connected && !s.dialer.Handing? && !s.dialer.Reading?
  }

  lemma OfflineStep(s: State, step: Step, r: RequestId)
    requires Inv(s) && Offline(s) && Enabled(s, step) && !step.DialSucceeds?
    ensures Offline(Next(s, step))
    ensures Stranded(Next(s, step), r) ==> Stranded(s, r)
  {
    assert CallInv(s, r);
  }

  /** Without a connection nobody starts to wait: until the next dial the stranded calls only
      become fewer. */
  lemma {:induction false} NobodyIsStrandedLater(s: State, steps: seq<Step>, r: RequestId)
    requires Inv(s) && Offline(s) && Run(s, steps).Some?
    requires forall i | 0 <= i < |steps| :: !steps[i].DialSucceeds?
    ensures Offline(Run(s, steps).value)
    ensures Stranded(Run(s, steps).value, r) ==> Stranded(s, r)
    decreases |steps|
  {
    if steps != [] {
      NobodyIsStrandedLater(s, steps[..|steps| - 1], r);
      RunKeepsInv(s, steps[..|steps| - 1]);
      OfflineStep(Run(s, steps[..|steps| - 1]).value, steps[|steps| - 1], r);
    }
  }

  /** The goroutine is between failPending and its next successful dial. */
  predicate BetweenConnections(s: State) {
    || s.dialer.PendingFailed? || s.dialer.ConnDropped? || s.dialer.Rearming?
    || s.dialer.Dialing? || s.dialer.ShutdownBegun?
  }

  /** The call wrote its frame after failPending and before the connection was dropped. */
  predicate WroteLate(steps: seq<Step>, r: RequestId) {
    exists i | 0 <= i < |steps| ::
      && steps[i] == WriteFrame(r, true)
      && Run(Init(), steps[..i]).Some? && Run(Init(), steps[..i]).value.dialer.PendingFailed?
  }

  lemma WroteLateKept(steps: seq<Step>, r: RequestId)
    requires steps != [] && WroteLate(steps[..|steps| - 1], r)
    ensures WroteLate(steps, r)
  {
    var before := steps[..|steps| - 1];
    var i :| 0 <= i < |before| && before[i] == WriteFrame(r, true)
      && Run(Init(), before[..i]).Some? && Run(Init(), before[..i]).value.dialer.PendingFailed?;
    assert steps[..i] == before[..i] && steps[i] == before[i];
  }

  lemma StrandedStep(s: State, step: Step, r: RequestId)
    requires Inv(s) && Enabled(s, step)
    requires BetweenConnections(s) && !s.dialer.PendingFailed? ==> !s.sh.connected
    ensures var s' := Next(s, step);
      && (BetweenConnections(s') && !s'.dialer.PendingFailed? ==> !s'.sh.connected)
      && (BetweenConnections(s') && Stranded(s', r) ==>
            (BetweenConnections(s) && Stranded(s, r)) || (s.dialer.PendingFailed? && step == WriteFrame(r, true)))
  {
    assert CallInv(s, r);
  }

  /** In every run, only calls that wrote in that window are left waiting once the connection
      is lost. */
  lemma {:induction false} StrandedWroteLate(steps: seq<Step>, r: RequestId)
    requires Run(Init(), steps).Some?
    ensures var s := Run(Init(), steps).value;
      && (BetweenConnections(s) && !s.dialer.PendingFailed? ==> !s.sh.connected)
      && (BetweenConnections(s) && Stranded(s, r) ==> WroteLate(steps, r))
    decreases |steps|
  {
    if steps != [] {
      var before := steps[..|steps| - 1];
      StrandedWroteLate(before, r);
      RunKeepsInv(Init(), before);
      StrandedStep(Run(Init(), before).value, steps[|steps| - 1], r);
      if WroteLate(before, r) { WroteLateKept(steps, r); }
    }
  }

  /** The call registered after a failPending and before that connection was dropped, and no
      failPending has run since. */
  predicate RegisteredLate(steps: seq<Step>, r: RequestId)
    decreases |steps|
  {
    steps != [] &&
    var before, last := steps[..|steps| - 1], steps[|steps| - 1];
    if last == RegisterCall(r) then Run(Init(), before).Some? && Run(Init(), before).value.dialer.PendingFailed?
    else !Fails(last) && RegisteredLate(before, r)
  }

  /** `late` tells the calls failPending missed from those it reached. */
  predicate LateFits(s: State, r: RequestId, late: bool) {
    && (BetweenConnections(s) && !s.dialer.PendingFailed? ==> !s.sh.connected)
    && (s.dialer.PendingFailed? && r in s.calls && IsRegistered(s.calls[r]) ==> (Outstanding(s, r) <==> late))
    && (BetweenConnections(s) && In(s, r, Awaiting) ==> (Outstanding(s, r) <==> late))
  }

  /** What RegisteredLate becomes after the step. */
  predicate LateAfter(s: State, step: Step, r: RequestId, late: bool) {
    if step == RegisterCall(r) then s.dialer.PendingFailed? else !Fails(step) && late
  }

  lemma LateOfCaller(s: State, step: Step, r: RequestId, late: bool)
    requires Inv(s) && Enabled(s, step) && LateFits(s, r, late) && ByCaller(step, r)
    ensures LateFits(Next(s, step), r, LateAfter(s, step, r, late))
  {
    assert CallInv(s, r);
  }

  lemma LateOfDialer(s: State, step: Step, r: RequestId, late: bool)
    requires Inv(s) && Enabled(s, step) && LateFits(s, r, late) && (step.ReadFrame? || step.HandOver? || Fails(step))
    ensures LateFits(Next(s, step), r, LateAfter(s, step, r, late))
  {
    assert CallInv(s, r);
  }

  lemma LateOfOther(s: State, step: Step, r: RequestId, late: bool)
    requires Inv(s) && Enabled(s, step) && LateFits(s, r, late)
    requires !ByCaller(step, r) && !step.ReadFrame? && !step.HandOver? && !Fails(step)
    ensures LateFits(Next(s, step), r, LateAfter(s, step, r, late))
  {
    BystanderUntouched(s, step, r);
  }

  lemma LateStep(s: State, step: Step, r: RequestId, late: bool)
    requires Inv(s) && Enabled(s, step) && LateFits(s, r, late)
    ensures LateFits(Next(s, step), r, LateAfter(s, step, r, late))
  {
    if ByCaller(step, r) {
      LateOfCaller(s, step, r, late);
    } else if step.ReadFrame? || step.HandOver? || Fails(step) {
      LateOfDialer(s, step, r, late);
    } else {
      LateOfOther(s, step, r, late);
    }
  }

  lemma {:induction false} LateRun(steps: seq<Step>, r: RequestId)
    requires Run(Init(), steps).Some?
    ensures LateFits(Run(Init(), steps).value, r, RegisteredLate(steps, r))
    decreases |steps|
  {
    if steps != [] {
      var before := steps[..|steps| - 1];
      LateRun(before, r);
      RunKeepsInv(Init(), before);
      LateStep(Run(Init(), before).value, steps[|steps| - 1], r, RegisteredLate(before, r));
    }
  }

  /** In every run a call that waits between connections is left to its timer exactly when it
      registered after the last failPending, before the connection was dropped, and it wrote its
      frame in that window too; any other has its value already. */
  lemma StrandedExactlyIfLate(steps: seq<Step>, r: RequestId)
    requires Run(Init(), steps).Some?
    requires var s := Run(Init(), steps).value; BetweenConnections(s) && In(s, r, Awaiting)
    ensures var s := Run(Init(), steps).value;
      && (Stranded(s, r) <==> RegisteredLate(steps, r)) && (Stranded(s, r) ==> WroteLate(steps, r))
      && (Enabled(s, Receive(r)) <==> !RegisteredLate(steps, r))
  {
    LateRun(steps, r);
    StrandedWroteLate(steps, r);
    RunKeepsInv(Init(), steps);
    assert CallInv(Run(Init(), steps).value, r);
  }

  lemma Extend(steps: seq<Step>, mid: State, step: Step) returns (longer: seq<Step>, next: State)
    requires Run(Init(), steps) == Some(mid) && Enabled(mid, step)
    ensures longer == steps + [step] && next == Next(mid, step) && Run(Init(), longer) == Some(next)
  {
    longer, next := steps + [step], Next(mid, step);
    assert longer[..|longer| - 1] == steps;
  }

  lemma PastGateAtDisconnect() returns (steps: seq<Step>, s: State)
    ensures Run(Init(), steps) == Some(s)
    ensures s.dialer.PendingFailed? && In(s, 0, Ready) && s.sh.connected && !s.sh.closed && !s.cancelled
  {
    steps, s := Extend([], Init(), DialSucceeds);
    steps, s := Extend(steps, s, StartSend(0));
    steps, s := Extend(steps, s, PassGate(0));
    steps, s := Extend(steps, s, EndRead);
    steps, s := Extend(steps, s, FailOnDisconnect);
  }

  /** It does happen: a call that registers and writes after failPending and before the
      connection is dropped is left to its timer while the client redials. */
  lemma StrandedCallExists() returns (steps: seq<Step>, s: State)
    ensures Run(Init(), steps) == Some(s) && s.dialer.Dialing? && Offline(s) && Stranded(s, 0)
  {
    steps, s := PastGateAtDisconnect();
    steps, s := Extend(steps, s, RegisterCall(0));
    steps, s := Extend(steps, s, TakeConn(0));
    steps, s := Extend(steps, s, WriteFrame(0, true));
    steps, s := Extend(steps, s, DropConn);
    steps, s := Extend(steps, s, Decide);
    steps, s := Extend(steps, s, Rearm);
  }

  // ----- Progress

  lemma ExtendFrom(start: State, steps: seq<Step>, mid: State, step: Step) returns (longer: seq<Step>, next: State)
    requires Run(start, steps) == Some(mid) && Enabled(mid, step)
    ensures longer == steps + [step] && next == Next(mid, step) && Run(start, longer) == Some(next)
  {
    longer, next := steps + [step], Next(mid, step);
    assert longer[..|longer| - 1] == steps;
  }

  /** What the line makes Send return. */
  function Answered(body: Body): Result {
    match body
    case ResultBody(payload) => Ok(payload)
    case ErrorBody(code, message) => DaemonError(code, message)
  }

  /** Read from the line, handed over, received and returned. */
  lemma AnswerReachesCall(s: State, r: RequestId, body: Body) returns (steps: seq<Step>, s': State)
    requires Inv(s) && s.dialer.Reading? && In(s, r, Awaiting) && Outstanding(s, r)
    ensures steps == [ReadFrame(Response(r, body)), HandOver, Receive(r), Return(r)] && Run(s, steps) == Some(s')
    ensures s'.dialer.Reading? && In(s', r, Returned(Answered(body)))
  {
    assert CallInv(s, r);
    assert Run(s, []) == Some(s);
    steps, s' := ExtendFrom(s, [], s, ReadFrame(Response(r, body)));
    steps, s' := ExtendFrom(s, steps, s', HandOver);
    steps, s' := ExtendFrom(s, steps, s', Receive(r));
    steps, s' := ExtendFrom(s, steps, s', Return(r));
  }

  /** While a connection is read and the client is open, a new Send gets its frame out and waits. */
  lemma CallReachesWire(s: State, r: RequestId) returns (steps: seq<Step>, s': State)
    requires Inv(s) && s.dialer.Reading? && s.sh.connected && !s.sh.closed && r !in s.calls
    ensures Run(s, steps) == Some(s') && s'.dialer.Reading? && In(s', r, Awaiting) && Outstanding(s', r)
  {
    assert Run(s, []) == Some(s);
    steps, s' := ExtendFrom(s, [], s, StartSend(r));
    steps, s' := ExtendFrom(s, steps, s', PassGate(r));
    steps, s' := ExtendFrom(s, steps, s', RegisterCall(r));
    steps, s' := ExtendFrom(s, steps, s', TakeConn(r));
    steps, s' := ExtendFrom(s, steps, s', WriteFrame(r, true));
  }

  lemma {:induction false} RunsCompose(s: State, a: seq<Step>, mid: State, b: seq<Step>)
    requires Run(s, a) == Some(mid)
    ensures Run(s, a + b) == Run(mid, b)
    decreases |b|
  {
    if b == [] {
      assert a + b == a;
    } else {
      assert (a + b)[..|a + b| - 1] == a + b[..|b| - 1];
      RunsCompose(s, a, mid, b[..|b| - 1]);
    }
  }

  /** From every such state a Send can be answered: whatever the line with its id carries, a result
      or an error object, is what it returns. */
  lemma SendReturnsItsAnswer(s: State, r: RequestId, body: Body) returns (steps: seq<Step>, s': State)
    requires Inv(s) && s.dialer.Reading? && s.sh.connected && !s.sh.closed && r !in s.calls
    ensures Run(s, steps) == Some(s') && In(s', r, Returned(Answered(body)))
  {
    var out, mid := CallReachesWire(s, r);
    RunKeepsInv(s, out);
    var back, end := AnswerReachesCall(mid, r, body);
    RunsCompose(s, out, mid, back);
    steps, s' := out + back, end;
  }

  /** What a call that wants to end does next, and how many steps it takes. */
  function EndStep(s: State, r: RequestId): Step
    requires r in s.calls && !s.calls[r].Returned?
  {
    match s.calls[r]
    case AtGate(_) => LeaveGate(r, Cancelled)
    case Ready => RegisterCall(r)
    case Registered => TakeConn(r)
    case Writing(_) => WriteFrame(r, false)
    case Awaiting => StopAwaiting(r, Result.TimedOut)
    case Returning(_) => Return(r)
  }

  function StepsToEnd(c: Call): nat {
    match c
    case AtGate(_) => 1
    case Ready => 4
    case Registered => 3
    case Writing(_) => 2
    case Awaiting => 2
    case Returning(_) => 1
    case Returned(_) => 0
  }

  lemma EndAdvances(s: State, r: RequestId)
    requires r in s.calls && !s.calls[r].Returned?
    ensures Enabled(s, EndStep(s, r))
    ensures var s' := Next(s, EndStep(s, r)); r in s'.calls && StepsToEnd(s'.calls[r]) < StepsToEnd(s.calls[r])
  {}

  /** No Send is ever stuck: from every state, by its own steps alone and within four of them, it can
      return, if need be when its context or its timer ends. */
  lemma {:induction false} SendCanReturn(s: State, r: RequestId) returns (steps: seq<Step>, s': State)
    requires r in s.calls
    ensures Run(s, steps) == Some(s') && r in s'.calls && s'.calls[r].Returned? && |steps| <= 4
    ensures |steps| <= StepsToEnd(s.calls[r]) && forall i | 0 <= i < |steps| :: ByCaller(steps[i], r)
    decreases StepsToEnd(s.calls[r])
  {
    assert Run(s, []) == Some(s);
    steps, s' := [], s;
    if !s.calls[r].Returned? {
      EndAdvances(s, r);
      var first, mid := ExtendFrom(s, [], s, EndStep(s, r));
      var rest, end := SendCanReturn(mid, r);
      RunsCompose(s, first, mid, rest);
      steps, s' := first + rest, end;
    }
  }

  /** Once Close has cancelled the client, a call held at a gate or waiting for a reply can return a
      shutdown at once. */
  lemma CancelReleases(s: State, r: RequestId) returns (steps: seq<Step>, s': State)
    requires s.cancelled && r in s.calls && (s.calls[r].AtGate? || s.calls[r].Awaiting?)
    ensures Run(s, steps) == Some(s') && In(s', r, Returned(Shutdown))
    ensures steps == if s.calls[r].AtGate? then [LeaveGate(r, Shutdown)] else [StopAwaiting(r, Shutdown), Return(r)]
  {
    assert Run(s, []) == Some(s);
    if s.calls[r].AtGate? {
      steps, s' := ExtendFrom(s, [], s, LeaveGate(r, Shutdown));
    } else {
      steps, s' := ExtendFrom(s, [], s, StopAwaiting(r, Shutdown));
      steps, s' := ExtendFrom(s, steps, s', Return(r));
    }
  }

  lemma {:induction false} DroppedWaits(s: State, steps: seq<Step>)
    requires s.dialer.ConnDropped? && Run(s, steps).Some? && Decide !in steps
    ensures Run(s, steps).value.dialer == s.dialer
    decreases |steps|
  {
    if steps != [] {
      assert steps[|steps| - 1] in steps && forall x | x in steps[..|steps| - 1] :: x in steps;
      DroppedWaits(s, steps[..|steps| - 1]);
    }
  }

  /** After a lost connection the loop redials exactly when the client was not closed as the connection
      was dropped and is not cancelled when it decides, whatever happens in between; otherwise it
      shuts down. */
  lemma RedialsExactly(s: State, dropped: State, steps: seq<Step>, mid: State)
    requires s.dialer.PendingFailed? && dropped == Next(s, DropConn)
    requires Run(dropped, steps) == Some(mid) && Decide !in steps
    ensures Enabled(mid, Decide)
    ensures Next(mid, Decide).dialer == if s.sh.closed || mid.cancelled then ShutdownBegun else Rearming
  {
    DroppedWaits(dropped, steps);
  }

  /** The connection of the gate is dropped for good. */
  predicate Gone(s: State, gate: GateId) {
    gate < s.sh.gate
    || (gate == s.sh.gate && !s.sh.connected && !s.dialer.Dialing? && !s.dialer.Reading? && !s.dialer.Handing?)
  }

  lemma GoneStep(s: State, step: Step, r: RequestId, gate: GateId)
    requires Gone(s, gate) && Enabled(s, step) && (In(s, r, Writing(gate)) || Decided(s, r, WriteFailed))
    ensures var s' := Next(s, step); Gone(s', gate) && (In(s', r, Writing(gate)) || Decided(s', r, WriteFailed))
  {}

  lemma {:induction false} GoneStays(s: State, steps: seq<Step>, r: RequestId, gate: GateId)
    requires Gone(s, gate) && (In(s, r, Writing(gate)) || Decided(s, r, WriteFailed)) && Run(s, steps).Some?
    ensures var s' := Run(s, steps).value;
      Gone(s', gate) && (In(s', r, Writing(gate)) || Decided(s', r, WriteFailed))
    decreases |steps|
  {
    if steps != [] {
      GoneStays(s, steps[..|steps| - 1], r, gate);
      GoneStep(Run(s, steps[..|steps| - 1]).value, steps[|steps| - 1], r, gate);
    }
  }

  /** A Send that took its connection but has not written when the connection is dropped never gets its
      frame out, also after a reconnect: the one result it can return is a failed write. */
  lemma StaleWriteFails(s: State, dropped: State, steps: seq<Step>, r: RequestId)
    requires s.dialer.PendingFailed? && In(s, r, Writing(s.sh.gate)) && dropped == Next(s, DropConn)
    requires Run(dropped, steps).Some?
    ensures var s' := Run(dropped, steps).value; In(s', r, Writing(s.sh.gate)) || Decided(s', r, WriteFailed)
  {
    GoneStays(dropped, steps, r, s.sh.gate);
  }

  /** How far the goroutine is from its exit once the client is cancelled. */
  function StagesLeft(d: Dialer): nat {
    match d
    case Handing(_, _) => 10
    case Reading => 9
    case ReadEnded => 8
    case PendingFailed => 7
    case ConnDropped(_) => 6
    case Rearming => 5
    case Dialing => 4
    case ShutdownBegun => 3
    case ShutdownFailed => 2
    case Exited => 1
  }

  function StageStep(d: Dialer): Step
    requires !d.Exited?
  {
    match d
    case Handing(_, _) => HandOver
    case Reading => EndRead
    case ReadEnded => FailOnDisconnect
    case PendingFailed => DropConn
    case ConnDropped(_) => Decide
    case Rearming => Rearm
    case Dialing => DialAborts
    case ShutdownBegun => FailOnShutdown
    case ShutdownFailed => FinishShutdown
  }

  lemma StageAdvances(s: State)
    requires Inv(s) && s.cancelled && !s.dialer.Exited?
    ensures Enabled(s, StageStep(s.dialer))
    ensures var s' := Next(s, StageStep(s.dialer)); s'.cancelled && StagesLeft(s'.dialer) < StagesLeft(s.dialer)
  {
    if s.dialer.Handing? { assert CallInv(s, s.dialer.id); }
  }

  lemma {:induction false} CancelledExits(start: State, steps: seq<Step>, s: State)
    returns (longer: seq<Step>, s': State)
    requires Run(start, steps) == Some(s) && Inv(s) && s.cancelled
    ensures Run(start, longer) == Some(s') && s'.dialer.Exited?
    decreases StagesLeft(s.dialer)
  {
    longer, s' := steps, s;
    if !s.dialer.Exited? {
      StageAdvances(s);
      StepKeepsInv(s, StageStep(s.dialer));
      var more, next := ExtendFrom(start, steps, s, StageStep(s.dialer));
      longer, s' := CancelledExits(start, more, next);
    }
  }

  /** Close ends the client from every state: the dial loop can always go on to its exit. */
  lemma CloseCanFinish(s: State) returns (steps: seq<Step>, s': State)
    requires Inv(s)
    ensures Run(s, steps) == Some(s') && s'.sh.closed && s'.dialer.Exited?
  {
    assert Run(s, []) == Some(s);
    steps, s' := ExtendFrom(s, [], s, Close);
    steps, s' := ExtendFrom(s, steps, s', CancelRun);
    RunKeepsInv(s, steps);
    steps, s' := CancelledExits(s, steps, s');
    RunKeepsInv(s, steps);
  }
}
