/** Concurrent Enqueue calls: validation, the idempotency lookup, uploads, the insert with its
    unique keys, and the rollback, each database or store operation a step of its own. */
module Enqueue {
  import opened Domain
  import opened Attachments

  type CallId = string  // the uuid each call draws: key prefix and correlation id
  type RowId = nat

  datatype Request = Request(
    externalId: string, idempotencyKey: Option<string>, recipient: Option<string>, groupId: Option<string>,
    sender: Option<string>, content: string, parts: seq<Part>)

  datatype Error = InvalidField(field: string) | SenderMismatch | LookupFailed | UploadFailed | InsertFailed

  // ----- Validation

  predicate IsSpace(ch: char) {
    || '\t' <= ch <= '\r' || ch == ' ' || ch == '\U{85}' || ch == '\U{A0}' || ch == '\U{1680}'
    || '\U{2000}' <= ch <= '\U{200A}' || ch == '\U{2028}' || ch == '\U{2029}' || ch == '\U{202F}'
    || ch == '\U{205F}' || ch == '\U{3000}'
  }

  predicate IsBlank(s: string) {
    forall i | 0 <= i < |s| :: IsSpace(s[i])
  }

  /** Length in bytes of the UTF-8 encoding. */
  function ByteLength(s: string): nat {
    if s == "" then 0
    else (if s[0] < '\U{80}' then 1 else if s[0] < '\U{800}' then 2 else if s[0] < '\U{10000}' then 3 else 4)
         + ByteLength(s[1..])
  }

  predicate IsSet(v: Option<string>) {
    v.Some? && v.value != ""
  }

  function Validate(senderPhone: string, m: Request): Option<Error> {
    if IsBlank(m.externalId) then Some(InvalidField("externalId"))
    else if ByteLength(m.externalId) > 255 then Some(InvalidField("externalId"))
    else if IsBlank(m.content) then Some(InvalidField("content"))
    else if IsSet(m.recipient) == IsSet(m.groupId) then Some(InvalidField("recipient|groupId"))
    else if IsSet(m.sender) && m.sender.value != senderPhone then Some(SenderMismatch)
    else None
  }

  /** White space as Unicode lists it, which is what strings.TrimSpace trims. */
  const WHITE_SPACE: set<int> := {
    0x09, 0x0A, 0x0B, 0x0C, 0x0D, 0x20, 0x85, 0xA0, 0x1680, 0x2000, 0x2001, 0x2002, 0x2003, 0x2004, 0x2005, 0x2006,
    0x2007, 0x2008, 0x2009, 0x200A, 0x2028, 0x2029, 0x202F, 0x205F, 0x3000}

  /** How many characters lie at or above the code point. */
  function CountFrom(s: string, point: int): nat {
    if s == "" then 0 else (if s[0] as int >= point then 1 else 0) + CountFrom(s[1..], point)
  }

  /** A character takes one byte, and one more from each of U+0080, U+0800 and U+10000 on. */
  lemma {:induction false} BytesCounted(s: string)
    ensures ByteLength(s) == |s| + CountFrom(s, 0x80) + CountFrom(s, 0x800) + CountFrom(s, 0x10000)
  {
    if s != "" {
      BytesCounted(s[1..]);
    }
  }

  predicate Unset(v: Option<string>) {
    v == None || v == Some("")
  }

  predicate HasText(s: string) {
    exists i | 0 <= i < |s| :: s[i] as int !in WHITE_SPACE
  }

  /** What a request must be: an external id and content with some text, the id of at most 255 bytes,
      exactly one of recipient and group, and no sender but the configured one. */
  predicate ValidRequest(senderPhone: string, m: Request) {
    && HasText(m.externalId) && ByteLength(m.externalId) <= 255 && HasText(m.content)
    && ((Unset(m.recipient) && !Unset(m.groupId)) || (!Unset(m.recipient) && Unset(m.groupId)))
    && (Unset(m.sender) || m.sender == Some(senderPhone))
  }

  lemma BlankExactly(s: string)
    ensures IsBlank(s) <==> !HasText(s)
  {
    assert forall ch: char :: IsSpace(ch) <==> ch as int in WHITE_SPACE;
  }

  /** What an invalid request is refused for. */
  function FirstProblem(m: Request): Error {
    if !HasText(m.externalId) || ByteLength(m.externalId) > 255 then InvalidField("externalId")
    else if !HasText(m.content) then InvalidField("content")
    else if Unset(m.recipient) == Unset(m.groupId) then InvalidField("recipient|groupId")
    else SenderMismatch
  }

  /** Validation accepts exactly these, and otherwise names the first thing that is wrong. */
  lemma ValidatesExactly(senderPhone: string, m: Request)
    ensures Validate(senderPhone, m).None? <==> ValidRequest(senderPhone, m)
    ensures Validate(senderPhone, m).Some? ==> Validate(senderPhone, m).value == FirstProblem(m)
  {
    BlankExactly(m.externalId);
    BlankExactly(m.content);
  }

  /** The exactly_one_target CHECK, on NULLs. */
  predicate MeetsCheck(m: Request) {
    m.recipient.Some? != m.groupId.Some?
  }

  // ----- The protocol

  datatype Row = Row(externalId: string, key: Option<string>, refs: seq<ObjectKey>, owner: CallId)

  datatype Outcome = Ok(id: RowId, idempotent: bool) | Err(error: Error)

  datatype Phase =
    | Looking
    | Uploading(next: nat, keys: seq<ObjectKey>)
    | Inserting(keys: seq<ObjectKey>)
    | RollingBack(todo: seq<ObjectKey>, error: Error)
    | Done(outcome: Outcome)

  datatype Call = Call(req: Request, phase: Phase)

  datatype State = State(rows: map<RowId, Row>, store: Store, calls: map<CallId, Call>)

  /** What GetByIdempotencyKey reports. */
  datatype Answer = NoAnswer | Missing | Found(id: RowId)

  datatype Step =
    | Begin(k: CallId, req: Request)
    | Lookup(k: CallId, answer: Answer)
    | UploadPart(k: CallId)
    | EndOfParts(k: CallId)
    | Insert(k: CallId, id: RowId, answered: bool)
    | RemoveOne(k: CallId)

  function Init(): State {
    State(map[], map[], map[])
  }

  predicate Truthful(s: State, key: Option<string>, answer: Answer) {
    && (answer.Found? ==> answer.id in s.rows && key.Some? && s.rows[answer.id].key == key)
    && (answer.Missing? ==> forall id | id in s.rows :: s.rows[id].key != key)
  }

  predicate Enabled(s: State, step: Step) {
    match step
    case Begin(k, req) => k !in s.calls
    case Lookup(k, answer) =>
      k in s.calls && s.calls[k].phase.Looking? && Truthful(s, s.calls[k].req.idempotencyKey, answer)
    case UploadPart(k) =>
      k in s.calls && s.calls[k].phase.Uploading? && s.calls[k].phase.next < |s.calls[k].req.parts|
    case EndOfParts(k) =>
      k in s.calls && s.calls[k].phase.Uploading? && s.calls[k].phase.next == |s.calls[k].req.parts|
    case Insert(k, id, answered) => k in s.calls && s.calls[k].phase.Inserting? && id !in s.rows
    case RemoveOne(k) => k in s.calls && s.calls[k].phase.RollingBack?
  }

  function Moved(s: State, k: CallId, phase: Phase): State
    requires k in s.calls
  {
    s.(calls := s.calls[k := s.calls[k].(phase := phase)])
  }

  /** NULL keys never conflict; empty ones do. */
  predicate Taken(s: State, m: Request) {
    || (exists id | id in s.rows :: s.rows[id].externalId == m.externalId)
    || (exists id | id in s.rows :: m.idempotencyKey.Some? && s.rows[id].key == m.idempotencyKey)
  }

  /** The constraints that refuse an insert. */
  predicate Refused(s: State, m: Request) {
    !MeetsCheck(m) || Taken(s, m)
  }

  function Next(senderPhone: string, s: State, step: Step): State
    requires Enabled(s, step)
  {
    match step
    case Begin(k, req) =>
      var error := Validate(senderPhone, req);
      var phase := if error.Some? then Done(Err(error.value))
                   else if IsSet(req.idempotencyKey) then Looking else Uploading(0, []);
      s.(calls := s.calls[k := Call(req, phase)])
    case Lookup(k, answer) =>
      Moved(s, k, match answer
        case NoAnswer => Done(Err(LookupFailed))
        case Missing => Uploading(0, [])
        case Found(id) => Done(Ok(id, true)))
    case UploadPart(k) => UploadNext(s, k)
    case EndOfParts(k) => Moved(s, k, Inserting(s.calls[k].phase.keys))
    case Insert(k, id, answered) =>
      var Call(req, Inserting(keys)) := s.calls[k];
      if answered && !Refused(s, req) then
        Moved(s.(rows := s.rows[id := Row(req.externalId, req.idempotencyKey, keys, k)]), k, Done(Ok(id, false)))
      else Moved(s, k, RollingBack(keys, InsertFailed))
    case RemoveOne(k) =>
      var RollingBack(todo, error) := s.calls[k].phase;
      if todo == [] then Moved(s, k, Done(Err(error)))
      else Moved(s.(store := s.store - {todo[0]}), k, RollingBack(todo[1..], error))
  }

  function UploadNext(s: State, k: CallId): State
    requires k in s.calls && s.calls[k].phase.Uploading? && s.calls[k].phase.next < |s.calls[k].req.parts|
  {
    var Call(req, Uploading(next, keys)) := s.calls[k];
    var part := req.parts[next];
    var key := KeyOf(k, part);
    if !part.readable then Moved(s, k, RollingBack(keys, UploadFailed))
    else if part.name == "" then Moved(s, k, RollingBack(keys, InvalidField("attachments")))
    else if !part.storable then Moved(s, k, RollingBack(keys, UploadFailed))
    else Moved(s.(store := s.store[key := part.body]), k, Uploading(next + 1, keys + [key]))
  }

  function Run(senderPhone: string, s: State, steps: seq<Step>): Option<State>
    decreases |steps|
  {
    if steps == [] then Some(s)
    else match Run(senderPhone, s, steps[..|steps| - 1])
      case None => None
      case Some(mid) =>
        var last := steps[|steps| - 1];
        if Enabled(mid, last) then Some(Next(senderPhone, mid, last)) else None
  }

  // ----- What every interleaving keeps

  /** The objects under the prefix are exactly these. */
  ghost predicate OwnIs(store: Store, k: CallId, own: Store) {
    forall key: ObjectKey | key.prefix == k ::
      (key in store <==> key in own) && (key in store ==> store[key] == own[key])
  }

  predicate RowInv(s: State, id: RowId)
    requires id in s.rows
  {
    var row := s.rows[id];
    && row.owner in s.calls && s.calls[row.owner].phase == Done(Ok(id, false))
    && row.refs == KeysOf(row.owner, s.calls[row.owner].req.parts)
    && row.externalId == s.calls[row.owner].req.externalId && row.key == s.calls[row.owner].req.idempotencyKey
  }

  /** The first n parts were accepted and are all the call has in the store. */
  ghost predicate Uploaded(store: Store, k: CallId, parts: seq<Part>, n: nat)
    requires n <= |parts|
  {
    AllAccepted(parts[..n]) && OwnIs(store, k, PutAll(map[], k, parts[..n]))
  }

  ghost predicate CallInv(s: State, k: CallId)
    requires k in s.calls
  {
    var req := s.calls[k].req;
    match s.calls[k].phase
    case Looking => IsSet(req.idempotencyKey) && OwnIs(s.store, k, map[])
    case Uploading(next, keys) =>
      next <= |req.parts| && keys == KeysOf(k, req.parts[..next]) && Uploaded(s.store, k, req.parts, next)
    case Inserting(keys) => keys == KeysOf(k, req.parts) && Uploaded(s.store, k, req.parts, |req.parts|)
    case RollingBack(todo, _) =>
      && (forall i | 0 <= i < |todo| :: todo[i].prefix == k)
      && (forall key | key in s.store && key.prefix == k :: key in todo)
    case Done(Ok(id, idempotent)) =>
      && id in s.rows && s.rows[id].key == req.idempotencyKey
      && (idempotent ==> IsSet(req.idempotencyKey) && OwnIs(s.store, k, map[]))
      && (!idempotent ==> s.rows[id].owner == k && Uploaded(s.store, k, req.parts, |req.parts|))
    case Done(Err(_)) => OwnIs(s.store, k, map[])
  }

  /** Each external id and each idempotency key has at most one row. */
  predicate UniqueKeys(s: State) {
    forall a, b | a in s.rows && b in s.rows && a != b ::
      && s.rows[a].externalId != s.rows[b].externalId
      && (s.rows[a].key.Some? ==> s.rows[a].key != s.rows[b].key)
  }

  ghost predicate Inv(s: State) {
    && UniqueKeys(s)
    && (forall id | id in s.rows :: RowInv(s, id))
    && (forall k | k in s.calls :: CallInv(s, k))
    && (forall key | key in s.store :: key.prefix in s.calls)
  }

  /** What a step of one call leaves alone: the other calls, the rows there were, and every
      object that is not under its own prefix. */
  ghost predicate Framed(s: State, s': State, actor: CallId) {
    && s'.calls.Keys == s.calls.Keys + {actor}
    && (forall k | k in s.calls && k != actor :: s'.calls[k] == s.calls[k])
    && (forall id | id in s.rows :: id in s'.rows && s'.rows[id] == s.rows[id])
    && (forall key: ObjectKey | key.prefix != actor ::
          (key in s.store <==> key in s'.store) && (key in s.store ==> s'.store[key] == s.store[key]))
    && !(actor in s.calls && s.calls[actor].phase.Done?)
  }

  lemma OtherObjectsUntouched(senderPhone: string, s: State, step: Step, key: ObjectKey)
    requires Inv(s) && Enabled(s, step) && key.prefix != step.k
    ensures var store' := Next(senderPhone, s, step).store;
      (key in s.store <==> key in store') && (key in s.store ==> store'[key] == s.store[key])
  {
    if step.k in s.calls {
      assert CallInv(s, step.k);
    }
  }

  /** Only a successful insert adds a row, and no step changes one. */
  lemma RowsAfter(senderPhone: string, s: State, step: Step)
    requires Enabled(s, step)
    ensures var s' := Next(senderPhone, s, step);
      s'.rows == s.rows
      || (step.Insert? && !Refused(s, s.calls[step.k].req)
          && s'.rows == s.rows[step.id := Row(s.calls[step.k].req.externalId, s.calls[step.k].req.idempotencyKey,
                                              s.calls[step.k].phase.keys, step.k)])
  {}

  lemma CallsAfter(senderPhone: string, s: State, step: Step)
    requires Enabled(s, step)
    ensures step.k in s.calls ==> !s.calls[step.k].phase.Done?
    ensures step.k in Next(senderPhone, s, step).calls
    ensures Next(senderPhone, s, step).calls == s.calls[step.k := Next(senderPhone, s, step).calls[step.k]]
  {}

  lemma StepIsFramed(senderPhone: string, s: State, step: Step)
    requires Inv(s) && Enabled(s, step)
    ensures Framed(s, Next(senderPhone, s, step), step.k)
  {
    RowsAfter(senderPhone, s, step);
    CallsAfter(senderPhone, s, step);
    var store' := Next(senderPhone, s, step).store;
    forall key: ObjectKey | key.prefix != step.k
      ensures (key in s.store <==> key in store') && (key in s.store ==> store'[key] == s.store[key])
    {
      OtherObjectsUntouched(senderPhone, s, step, key);
    }
  }

  lemma UniqueKeysKept(s: State, s': State, id: RowId, m: Request, refs: seq<ObjectKey>, owner: CallId)
    requires UniqueKeys(s) && !Refused(s, m)
    requires s'.rows == s.rows[id := Row(m.externalId, m.idempotencyKey, refs, owner)] && id !in s.rows
    ensures UniqueKeys(s')
  {}

  lemma OldRowKept(s: State, s': State, actor: CallId, id: RowId)
    requires Inv(s) && Framed(s, s', actor) && id in s.rows
    ensures RowInv(s', id)
  {
    var row := s.rows[id];
    assert RowInv(s, id);
    assert s'.calls[row.owner] == s.calls[row.owner];
  }

  lemma NewRowFits(senderPhone: string, s: State, step: Step, id: RowId)
    requires Inv(s) && Enabled(s, step) && id !in s.rows && id in Next(senderPhone, s, step).rows
    ensures RowInv(Next(senderPhone, s, step), id)
  {
    assert CallInv(s, step.k);
  }

  lemma RowsKept(senderPhone: string, s: State, step: Step)
    requires Inv(s) && Enabled(s, step)
    ensures var s' := Next(senderPhone, s, step);
      UniqueKeys(s') && forall id | id in s'.rows :: RowInv(s', id)
  {
    RowsAfter(senderPhone, s, step);
    if Next(senderPhone, s, step).rows != s.rows {
      var call := s.calls[step.k];
      UniqueKeysKept(s, Next(senderPhone, s, step), step.id, call.req, call.phase.keys, step.k);
    }
    StepIsFramed(senderPhone, s, step);
    forall id | id in Next(senderPhone, s, step).rows ensures RowInv(Next(senderPhone, s, step), id) {
      if id in s.rows {
        OldRowKept(s, Next(senderPhone, s, step), step.k, id);
      } else {
        NewRowFits(senderPhone, s, step, id);
      }
    }
  }

  lemma UploadedNext(store: Store, k: CallId, parts: seq<Part>, n: nat)
    requires n < |parts| && Uploaded(store, k, parts, n) && Accepted(parts[n])
    ensures Uploaded(store[KeyOf(k, parts[n]) := parts[n].body], k, parts, n + 1)
  {
    PutNext(map[], k, parts, n);
    assert parts[..n + 1] == parts[..n] + [parts[n]];
  }

  lemma UploadedKeys(store: Store, k: CallId, parts: seq<Part>, n: nat)
    requires n <= |parts| && Uploaded(store, k, parts, n)
    ensures forall key | key in store && key.prefix == k :: key in KeysOf(k, parts[..n])
  {
    forall key | key in store && key.prefix == k ensures key in KeysOf(k, parts[..n]) {
      PutAllKeys(k, parts[..n], key);
    }
  }

  lemma UploadKept(senderPhone: string, s: State, k: CallId)
    requires Inv(s) && Enabled(s, UploadPart(k))
    ensures CallInv(Next(senderPhone, s, UploadPart(k)), k)
  {
    assert CallInv(s, k);
    var Call(req, Uploading(next, keys)) := s.calls[k];
    if Accepted(req.parts[next]) {
      UploadedNext(s.store, k, req.parts, next);
      PutNext(map[], k, req.parts, next);
    } else {
      UploadedKeys(s.store, k, req.parts, next);
    }
  }

  lemma RemoveKept(senderPhone: string, s: State, k: CallId)
    requires Inv(s) && Enabled(s, RemoveOne(k))
    ensures CallInv(Next(senderPhone, s, RemoveOne(k)), k)
  {
    assert CallInv(s, k);
    var todo := s.calls[k].phase.todo;
    assert todo != [] ==> todo == [todo[0]] + todo[1..];
  }

  lemma InsertKept(senderPhone: string, s: State, step: Step)
    requires Inv(s) && Enabled(s, step) && step.Insert?
    ensures CallInv(Next(senderPhone, s, step), step.k)
  {
    var k := step.k;
    assert CallInv(s, k);
    var parts := s.calls[k].req.parts;
    assert parts[..|parts|] == parts;
    UploadedKeys(s.store, k, parts, |parts|);
  }

  lemma ActorKept(senderPhone: string, s: State, step: Step)
    requires Inv(s) && Enabled(s, step)
    ensures CallInv(Next(senderPhone, s, step), step.k)
  {
    match step
    case UploadPart(k) => UploadKept(senderPhone, s, k);
    case RemoveOne(k) => RemoveKept(senderPhone, s, k);
    case Insert(_, _, _) => InsertKept(senderPhone, s, step);
    case Begin(k, req) => assert req.parts[..0] == [];
    case Lookup(k, _) =>
      assert CallInv(s, k);
      assert s.calls[k].req.parts[..0] == [];
    case EndOfParts(k) =>
      assert CallInv(s, k);
      assert s.calls[k].req.parts[..|s.calls[k].req.parts|] == s.calls[k].req.parts;
  }

  lemma BystanderKept(s: State, s': State, actor: CallId, k: CallId)
    requires Inv(s) && Framed(s, s', actor) && k in s.calls && k != actor
    ensures CallInv(s', k)
  {
    assert CallInv(s, k);
  }

  lemma CallsKept(senderPhone: string, s: State, step: Step)
    requires Inv(s) && Enabled(s, step)
    ensures var s' := Next(senderPhone, s, step);
      forall k | k in s'.calls :: CallInv(s', k)
  {
    StepIsFramed(senderPhone, s, step);
    forall k | k in Next(senderPhone, s, step).calls ensures CallInv(Next(senderPhone, s, step), k) {
      if k == step.k {
        ActorKept(senderPhone, s, step);
      } else {
        BystanderKept(s, Next(senderPhone, s, step), step.k, k);
      }
    }
  }

  lemma StepKeepsInv(senderPhone: string, s: State, step: Step)
    requires Inv(s) && Enabled(s, step)
    ensures Inv(Next(senderPhone, s, step))
  {
    RowsKept(senderPhone, s, step);
    CallsKept(senderPhone, s, step);
    StepIsFramed(senderPhone, s, step);
  }

  lemma {:induction false} RunKeepsInv(senderPhone: string, s: State, steps: seq<Step>)
    requires Inv(s) && Run(senderPhone, s, steps).Some?
    ensures Inv(Run(senderPhone, s, steps).value)
    decreases |steps|
  {
    if steps != [] {
      RunKeepsInv(senderPhone, s, steps[..|steps| - 1]);
      StepKeepsInv(senderPhone, Run(senderPhone, s, steps[..|steps| - 1]).value, steps[|steps| - 1]);
    }
  }

  // ----- What a row says about its request

  predicate Failed(call: Call) {
    call.phase.Done? && call.phase.outcome.Err?
  }

  /** A call that has not failed carries a valid request; a row, one that also meets the
      CHECK. */
  predicate Proper(senderPhone: string, s: State) {
    && (forall k | k in s.calls :: Validate(senderPhone, s.calls[k].req).None? || Failed(s.calls[k]))
    && (forall id | id in s.rows :: s.rows[id].owner in s.calls && MeetsCheck(s.calls[s.rows[id].owner].req))
  }

  lemma StepKeepsProper(senderPhone: string, s: State, step: Step)
    requires Inv(s) && Proper(senderPhone, s) && Enabled(s, step)
    ensures Proper(senderPhone, Next(senderPhone, s, step))
  {
    var s' := Next(senderPhone, s, step);
    RowsAfter(senderPhone, s, step);
    CallsAfter(senderPhone, s, step);
    forall k | k in s'.calls
      ensures Validate(senderPhone, s'.calls[k].req).None? || Failed(s'.calls[k])
    {
      if k in s.calls { SameRequest(senderPhone, s, step, k); }
    }
    forall id | id in s'.rows ensures s'.rows[id].owner in s'.calls && MeetsCheck(s'.calls[s'.rows[id].owner].req) {
      if id in s.rows { SameRequest(senderPhone, s, step, s.rows[id].owner); }
    }
  }

  lemma SameRequest(senderPhone: string, s: State, step: Step, k: CallId)
    requires Enabled(s, step) && k in s.calls
    ensures k in Next(senderPhone, s, step).calls && Next(senderPhone, s, step).calls[k].req == s.calls[k].req
  {}

  lemma {:induction false} RunKeepsProper(senderPhone: string, s: State, steps: seq<Step>)
    requires Inv(s) && Proper(senderPhone, s) && Run(senderPhone, s, steps).Some?
    ensures Proper(senderPhone, Run(senderPhone, s, steps).value)
    decreases |steps|
  {
    if steps != [] {
      RunKeepsProper(senderPhone, s, steps[..|steps| - 1]);
      RunKeepsInv(senderPhone, s, steps[..|steps| - 1]);
      StepKeepsProper(senderPhone, Run(senderPhone, s, steps[..|steps| - 1]).value, steps[|steps| - 1]);
    }
  }

  /** In every reachable state every row has an external id that is not blank and at most 255 bytes
      long, content that is not blank, exactly one target that is not NULL and is not empty, and a
      sender that is the configured one if it was given. */
  lemma RowsAreValid(senderPhone: string, steps: seq<Step>, id: RowId)
    requires Run(senderPhone, Init(), steps).Some? && id in Run(senderPhone, Init(), steps).value.rows
    ensures var s := Run(senderPhone, Init(), steps).value;
      && s.rows[id].owner in s.calls
      && var m := s.calls[s.rows[id].owner].req;
         && s.rows[id].externalId == m.externalId && !IsBlank(m.externalId) && ByteLength(m.externalId) <= 255
         && !IsBlank(m.content)
         && ((IsSet(m.recipient) && m.groupId.None?) || (m.recipient.None? && IsSet(m.groupId)))
         && (IsSet(m.sender) ==> m.sender.value == senderPhone)
  {
    RunKeepsInv(senderPhone, Init(), steps);
    RunKeepsProper(senderPhone, Init(), steps);
    assert RowInv(Run(senderPhone, Init(), steps).value, id);
  }

  predicate AllDone(s: State) {
    forall k | k in s.calls :: s.calls[k].phase.Done?
  }

  function Referenced(s: State): set<ObjectKey> {
    set id, key | id in s.rows && key in s.rows[id].refs :: key
  }

  /** The objects under a row's owner are those its parts put there. */
  lemma RowObjects(s: State, id: RowId)
    requires Inv(s) && id in s.rows
    ensures var row := s.rows[id];
      && row.owner in s.calls && var parts := s.calls[row.owner].req.parts;
         && AllAccepted(parts) && row.refs == KeysOf(row.owner, parts)
         && OwnIs(s.store, row.owner, PutAll(map[], row.owner, parts))
  {
    assert RowInv(s, id);
    var k := s.rows[id].owner;
    assert CallInv(s, k);
    var parts := s.calls[k].req.parts;
    assert parts[..|parts|] == parts;
  }

  lemma StoredIsReferenced(s: State, key: ObjectKey)
    requires Inv(s) && AllDone(s) && key in s.store
    ensures key in Referenced(s)
  {
    var k := key.prefix;
    assert CallInv(s, k);
    var id := s.calls[k].phase.outcome.id;
    RowObjects(s, id);
    PutAllKeys(k, s.calls[k].req.parts, key);
  }

  lemma ReferencedIsStored(s: State, id: RowId, key: ObjectKey)
    requires Inv(s) && id in s.rows && key in s.rows[id].refs
    ensures key in s.store
  {
    RowObjects(s, id);
    PutAllKeys(s.rows[id].owner, s.calls[s.rows[id].owner].req.parts, key);
  }

  lemma DoneStoreMatchesRows(s: State)
    requires Inv(s) && AllDone(s)
    ensures s.store.Keys == Referenced(s)
  {
    forall key | key in s.store ensures key in Referenced(s) {
      StoredIsReferenced(s, key);
    }
    forall id, key | id in s.rows && key in s.rows[id].refs ensures key in s.store {
      ReferencedIsStored(s, id, key);
    }
  }

  /** However the calls interleave, once all have finished the store holds exactly the objects
      that rows reference. */
  lemma StoreMatchesRows(senderPhone: string, steps: seq<Step>)
    requires Run(senderPhone, Init(), steps).Some? && AllDone(Run(senderPhone, Init(), steps).value)
    ensures var s := Run(senderPhone, Init(), steps).value; s.store.Keys == Referenced(s)
  {
    RunKeepsInv(senderPhone, Init(), steps);
    DoneStoreMatchesRows(Run(senderPhone, Init(), steps).value);
  }

  lemma OwnObjectsRoundTrip(store: Store, k: CallId, parts: seq<Part>, files: map<string, Bytes>, dir: string)
    requires AllAccepted(parts) && OwnIs(store, k, PutAll(map[], k, parts))
    ensures forall i | 0 <= i < |parts| :: KeysOf(k, parts)[i] in store
    ensures HoldsBodies(FetchAll(files, store, dir, KeysOf(k, parts)), PathsOf(dir, KeysOf(k, parts)), parts)
      <==> NoClash(parts)
  {
    AllStored(map[], k, parts);
    FetchReadsOnlyKeys(files, store, PutAll(map[], k, parts), dir, KeysOf(k, parts));
    RoundTripExactlyWithoutClash(map[], files, dir, k, parts);
  }

  /** End to end: in every reachable state, whatever other calls are doing, downloading a row's
      references gives every part of its own request back, byte for byte and in order, exactly
      when parts of that request that share a sanitised name carry the same bytes. */
  lemma RowsDownloadTheirOwnBytes(senderPhone: string, steps: seq<Step>, id: RowId,
                                  files: map<string, Bytes>, dir: string)
    requires Run(senderPhone, Init(), steps).Some? && id in Run(senderPhone, Init(), steps).value.rows
    ensures var s := Run(senderPhone, Init(), steps).value;
      && s.rows[id].owner in s.calls
      && (forall i | 0 <= i < |s.rows[id].refs| :: s.rows[id].refs[i] in s.store)
      && var refs, parts := s.rows[id].refs, s.calls[s.rows[id].owner].req.parts;
         HoldsBodies(FetchAll(files, s.store, dir, refs), PathsOf(dir, refs), parts) <==> NoClash(parts)
  {
    RunKeepsInv(senderPhone, Init(), steps);
    var s := Run(senderPhone, Init(), steps).value;
    RowObjects(s, id);
    OwnObjectsRoundTrip(s.store, s.rows[id].owner, s.calls[s.rows[id].owner].req.parts, files, dir);
  }

  predicate Succeeded(s: State, k: CallId, id: RowId) {
    k in s.calls && s.calls[k].phase.Done? && s.calls[k].phase.outcome.Ok? && s.calls[k].phase.outcome.id == id
  }

  /** In every reachable state every idempotency key names at most one row, and every call that
      succeeded with it returned that row. A row's references are the keys of its call's parts,
      in order. */
  lemma OneRowPerKey(senderPhone: string, steps: seq<Step>)
    requires Run(senderPhone, Init(), steps).Some?
    ensures var s := Run(senderPhone, Init(), steps).value;
      && (forall k, id, other | Succeeded(s, k, id) && s.calls[k].req.idempotencyKey.Some? && other in s.rows ::
            s.rows[other].key == s.calls[k].req.idempotencyKey <==> other == id)
      && (forall id | id in s.rows ::
            var row := s.rows[id];
            row.owner in s.calls && row.refs == KeysOf(row.owner, s.calls[row.owner].req.parts))
  {
    RunKeepsInv(senderPhone, Init(), steps);
    var s := Run(senderPhone, Init(), steps).value;
    forall k, id, other | Succeeded(s, k, id) && s.calls[k].req.idempotencyKey.Some? && other in s.rows
      ensures s.rows[other].key == s.calls[k].req.idempotencyKey <==> other == id
    {
      assert CallInv(s, k);
    }
    assert forall id | id in s.rows :: RowInv(s, id);
  }

  // ----- Which calls can succeed

  lemma {:induction false} RunKeepsRows(senderPhone: string, s: State, steps: seq<Step>)
    requires Run(senderPhone, s, steps).Some?
    ensures var s' := Run(senderPhone, s, steps).value;
      && (forall id | id in s.rows :: id in s'.rows && s'.rows[id] == s.rows[id])
      && (forall k | k in s.calls :: k in s'.calls && s'.calls[k].req == s.calls[k].req)
    decreases |steps|
  {
    if steps != [] {
      RunKeepsRows(senderPhone, s, steps[..|steps| - 1]);
      var mid, step := Run(senderPhone, s, steps[..|steps| - 1]).value, steps[|steps| - 1];
      RowsAfter(senderPhone, mid, step);
      forall k | k in mid.calls
        ensures k in Next(senderPhone, mid, step).calls
        ensures Next(senderPhone, mid, step).calls[k].req == mid.calls[k].req
      {
        SameRequest(senderPhone, mid, step, k);
      }
    }
  }

  /** After the steps the call has returned the row, inserted by itself or found. */
  predicate Returns(senderPhone: string, s: State, k: CallId, req: Request, steps: seq<Step>, id: RowId,
                    idempotent: bool)
    requires Enabled(s, Begin(k, req))
  {
    var end := Run(senderPhone, Next(senderPhone, s, Begin(k, req)), steps);
    end.Some? && k in end.value.calls && end.value.calls[k].phase == Done(Ok(id, idempotent))
  }

  /** The call has inserted its own row, after the rows of `s`. */
  lemma InsertedBeside(s: State, s': State, k: CallId, id: RowId)
    requires Inv(s) && Inv(s') && k !in s.calls
    requires forall o | o in s.rows :: o in s'.rows && s'.rows[o] == s.rows[o]
    requires k in s'.calls && s'.calls[k].phase == Done(Ok(id, false))
    ensures AllAccepted(s'.calls[k].req.parts) && !Taken(s, s'.calls[k].req)
  {
    var req := s'.calls[k].req;
    assert CallInv(s', k) && RowInv(s', id);
    assert req.parts[..|req.parts|] == req.parts;
    forall o | o in s.rows
      ensures s.rows[o].externalId != req.externalId
      ensures req.idempotencyKey.Some? ==> s.rows[o].key != req.idempotencyKey
    {
      assert RowInv(s, o);
    }
  }

  lemma InsertNeedsFreeKeys(senderPhone: string, s: State, k: CallId, req: Request, steps: seq<Step>, id: RowId)
    requires Inv(s) && Proper(senderPhone, s) && Enabled(s, Begin(k, req))
    requires Returns(senderPhone, s, k, req, steps, id, false)
    ensures Validate(senderPhone, req).None? && MeetsCheck(req) && AllAccepted(req.parts) && !Taken(s, req)
  {
    var s1 := Next(senderPhone, s, Begin(k, req));
    StepKeepsInv(senderPhone, s, Begin(k, req));
    StepKeepsProper(senderPhone, s, Begin(k, req));
    RunKeepsInv(senderPhone, s1, steps);
    RunKeepsProper(senderPhone, s1, steps);
    RunKeepsRows(senderPhone, s1, steps);
    var s' := Run(senderPhone, s1, steps).value;
    InsertedBeside(s, s', k, id);
    assert CallInv(s', k);
  }

  lemma Extend(senderPhone: string, start: State, steps: seq<Step>, mid: State, step: Step)
    returns (longer: seq<Step>, next: State)
    requires Run(senderPhone, start, steps) == Some(mid) && Enabled(mid, step)
    ensures longer == steps + [step] && next == Next(senderPhone, mid, step)
    ensures Run(senderPhone, start, longer) == Some(next)
  {
    longer, next := steps + [step], Next(senderPhone, mid, step);
    assert longer[..|longer| - 1] == steps;
  }

  /** A call left alone uploads all its parts if they are all accepted. */
  lemma {:induction false} UploadsRun(senderPhone: string, start: State, steps: seq<Step>, s: State, k: CallId)
    returns (longer: seq<Step>, s': State)
    requires Run(senderPhone, start, steps) == Some(s) && k in s.calls && s.calls[k].phase.Uploading?
    requires s.calls[k].phase.next <= |s.calls[k].req.parts| && AllAccepted(s.calls[k].req.parts)
    ensures Run(senderPhone, start, longer) == Some(s') && s'.rows == s.rows
    ensures k in s'.calls && s'.calls[k].req == s.calls[k].req && s'.calls[k].phase.Inserting?
    decreases |s.calls[k].req.parts| - s.calls[k].phase.next
  {
    if s.calls[k].phase.next == |s.calls[k].req.parts| {
      longer, s' := Extend(senderPhone, start, steps, s, EndOfParts(k));
    } else {
      assert Accepted(s.calls[k].req.parts[s.calls[k].phase.next]);
      longer, s' := Extend(senderPhone, start, steps, s, UploadPart(k));
      longer, s' := UploadsRun(senderPhone, start, longer, s', k);
    }
  }

  lemma InsertRun(senderPhone: string, s: State, k: CallId, req: Request) returns (steps: seq<Step>, id: RowId)
    requires Enabled(s, Begin(k, req)) && Validate(senderPhone, req).None? && AllAccepted(req.parts)
    requires !Refused(s, req)
    ensures Returns(senderPhone, s, k, req, steps, id, false)
  {
    var s1 := Next(senderPhone, s, Begin(k, req));
    var mid := s1;
    steps := [];
    if IsSet(req.idempotencyKey) {
      steps, mid := Extend(senderPhone, s1, [], s1, Lookup(k, Missing));
    }
    steps, mid := UploadsRun(senderPhone, s1, steps, mid, k);
    id := MaxPlusOne(mid.rows.Keys);
    steps, mid := Extend(senderPhone, s1, steps, mid, Insert(k, id, true));
  }

  /** A request can become a row, in some continuation of a reachable state, exactly when it is valid,
      does not carry both targets (an empty one counts for the CHECK, not for validation), each of
      its parts can be read and stored and has a name left after sanitising, and no row has its
      external id or its idempotency key. NULL keys never conflict. */
  lemma InsertsExactly(senderPhone: string, s: State, k: CallId, req: Request)
    requires Inv(s) && Proper(senderPhone, s) && Enabled(s, Begin(k, req))
    ensures (exists steps, id :: Returns(senderPhone, s, k, req, steps, id, false)) <==>
      && ValidRequest(senderPhone, req) && !(req.recipient.Some? && req.groupId.Some?)
      && (forall i | 0 <= i < |req.parts| ::
            req.parts[i].readable && req.parts[i].name != "" && req.parts[i].storable)
      && (forall id | id in s.rows ::
            s.rows[id].externalId != req.externalId
            && (req.idempotencyKey.Some? ==> s.rows[id].key != req.idempotencyKey))
  {
    ValidatesExactly(senderPhone, req);
    assert AllAccepted(req.parts) <==> forall i | 0 <= i < |req.parts| ::
      req.parts[i].readable && req.parts[i].name != "" && req.parts[i].storable;
    if Validate(senderPhone, req).None? && MeetsCheck(req) && AllAccepted(req.parts) && !Taken(s, req) {
      var steps, id := InsertRun(senderPhone, s, k, req);
    }
    forall steps, id | Returns(senderPhone, s, k, req, steps, id, false)
      ensures Validate(senderPhone, req).None? && MeetsCheck(req) && AllAccepted(req.parts) && !Taken(s, req)
    {
      InsertNeedsFreeKeys(senderPhone, s, k, req, steps, id);
    }
  }

  /** Such a request exists: a recipient and an empty group pass validation and never become a row. */
  lemma EmptyTargetIsNeverInserted(senderPhone: string) returns (req: Request)
    ensures Validate(senderPhone, req).None? && AllAccepted(req.parts) && !Taken(Init(), req)
    ensures forall k, steps, id :: !Returns(senderPhone, Init(), k, req, steps, id, false)
  {
    req := Request("1", None, Some("+1"), Some(""), None, "hi", []);
    assert !IsSpace(req.externalId[0]) && !IsSpace(req.content[0]);
    assert ByteLength("1") == 1;
    forall k, steps, id ensures !Returns(senderPhone, Init(), k, req, steps, id, false) {
      InsertsExactly(senderPhone, Init(), k, req);
    }
  }

  // ----- Why a call failed

  /** The error the upload of a part that was not accepted gives. */
  function PartError(p: Part): Error {
    if p.readable && p.name == "" then InvalidField("attachments") else UploadFailed
  }

  /** The error is that of validation, of the lookup, of the first part that was not accepted, or of
      the insert after all parts were. */
  predicate Explains(senderPhone: string, req: Request, e: Error) {
    if Validate(senderPhone, req).Some? then Validate(senderPhone, req) == Some(e)
    else
      || (e == LookupFailed && !Unset(req.idempotencyKey))
      || (e == InsertFailed && AllAccepted(req.parts))
      || (exists i | 0 <= i < |req.parts| ::
            AllAccepted(req.parts[..i]) && !Accepted(req.parts[i]) && e == PartError(req.parts[i]))
  }

  predicate Explained(senderPhone: string, call: Call) {
    match call.phase
    case RollingBack(_, e) => Explains(senderPhone, call.req, e)
    case Done(Err(e)) => Explains(senderPhone, call.req, e)
    case _ => Validate(senderPhone, call.req).None?
  }

  predicate AllExplained(senderPhone: string, s: State) {
    forall k | k in s.calls :: Explained(senderPhone, s.calls[k])
  }

  lemma UploadExplained(senderPhone: string, s: State, k: CallId)
    requires Inv(s) && Enabled(s, UploadPart(k)) && Explained(senderPhone, s.calls[k])
    ensures Explained(senderPhone, Next(senderPhone, s, UploadPart(k)).calls[k])
  {
    assert CallInv(s, k);
    var Call(req, Uploading(next, keys)) := s.calls[k];
    assert AllAccepted(req.parts[..next]);
  }

  lemma InsertExplained(senderPhone: string, s: State, step: Step)
    requires Inv(s) && step.Insert? && Enabled(s, step) && Explained(senderPhone, s.calls[step.k])
    ensures Explained(senderPhone, Next(senderPhone, s, step).calls[step.k])
  {
    assert CallInv(s, step.k);
    var parts := s.calls[step.k].req.parts;
    assert parts[..|parts|] == parts;
  }

  lemma ActorExplained(senderPhone: string, s: State, step: Step)
    requires Inv(s) && AllExplained(senderPhone, s) && Enabled(s, step)
    ensures step.k in Next(senderPhone, s, step).calls
    ensures Explained(senderPhone, Next(senderPhone, s, step).calls[step.k])
  {
    match step
    case Begin(k, req) =>
    case UploadPart(k) => UploadExplained(senderPhone, s, k);
    case Insert(k, _, _) => InsertExplained(senderPhone, s, step);
    case _ => assert CallInv(s, step.k) && Explained(senderPhone, s.calls[step.k]);
  }

  lemma {:induction false} RunKeepsExplained(senderPhone: string, s: State, steps: seq<Step>)
    requires Inv(s) && AllExplained(senderPhone, s) && Run(senderPhone, s, steps).Some?
    ensures AllExplained(senderPhone, Run(senderPhone, s, steps).value)
    decreases |steps|
  {
    if steps != [] {
      RunKeepsExplained(senderPhone, s, steps[..|steps| - 1]);
      RunKeepsInv(senderPhone, s, steps[..|steps| - 1]);
      var mid, step := Run(senderPhone, s, steps[..|steps| - 1]).value, steps[|steps| - 1];
      ActorExplained(senderPhone, mid, step);
      CallsAfter(senderPhone, mid, step);
    }
  }

  /** In every reachable state a failed call's error names what went wrong first: its validation, its
      lookup, the first part that could not be read, named or stored, or else the insert; and it has
      left no object behind. */
  lemma FailuresAreExplained(senderPhone: string, steps: seq<Step>, k: CallId)
    requires Run(senderPhone, Init(), steps).Some? && k in Run(senderPhone, Init(), steps).value.calls
    requires Failed(Run(senderPhone, Init(), steps).value.calls[k])
    ensures var s := Run(senderPhone, Init(), steps).value;
      && Explains(senderPhone, s.calls[k].req, s.calls[k].phase.outcome.error)
      && forall key | key in s.store :: key.prefix != k
  {
    RunKeepsInv(senderPhone, Init(), steps);
    RunKeepsExplained(senderPhone, Init(), steps);
    var s := Run(senderPhone, Init(), steps).value;
    assert CallInv(s, k) && Explained(senderPhone, s.calls[k]);
  }

  // ----- No call is stuck

  /** What a call can do next when the lookup and the insert are not answered. */
  function AloneStep(s: State, k: CallId, id: RowId): Step
    requires k in s.calls && !s.calls[k].phase.Done?
  {
    match s.calls[k].phase
    case Looking => Lookup(k, NoAnswer)
    case Uploading(next, _) => if next < |s.calls[k].req.parts| then UploadPart(k) else EndOfParts(k)
    case Inserting(_) => Insert(k, id, false)
    case RollingBack(_, _) => RemoveOne(k)
  }

  function StepsLeft(call: Call): nat {
    var n := |call.req.parts|;
    match call.phase
    case Looking => 1
    case Uploading(next, keys) => if next <= n then 2 * (n - next) + |keys| + 5 else 5
    case Inserting(keys) => |keys| + 3
    case RollingBack(todo, _) => |todo| + 1
    case Done(_) => 0
  }

  lemma AloneAdvances(senderPhone: string, s: State, k: CallId, id: RowId)
    requires k in s.calls && !s.calls[k].phase.Done? && id !in s.rows
    requires s.calls[k].phase.Uploading? ==> s.calls[k].phase.next <= |s.calls[k].req.parts|
    ensures Enabled(s, AloneStep(s, k, id))
    ensures var s' := Next(senderPhone, s, AloneStep(s, k, id));
      k in s'.calls && StepsLeft(s'.calls[k]) < StepsLeft(s.calls[k])
  {}

  lemma AloneAddsNoRow(senderPhone: string, s: State, k: CallId, id: RowId)
    requires k in s.calls && !s.calls[k].phase.Done? && Enabled(s, AloneStep(s, k, id))
    ensures Next(senderPhone, s, AloneStep(s, k, id)).rows == s.rows
  {}

  /** From every reachable state every call can go on to its end by itself; an insert that is not
      answered adds no row. */
  lemma {:induction false} CallCanFinish(senderPhone: string, start: State, steps: seq<Step>, s: State, k: CallId)
    returns (longer: seq<Step>, s': State)
    requires Run(senderPhone, start, steps) == Some(s) && Inv(s) && k in s.calls
    ensures Run(senderPhone, start, longer) == Some(s') && k in s'.calls && s'.calls[k].phase.Done?
    ensures s'.rows == s.rows
    decreases StepsLeft(s.calls[k])
  {
    longer, s' := steps, s;
    if !s.calls[k].phase.Done? {
      var id := MaxPlusOne(s.rows.Keys);
      assert CallInv(s, k);
      AloneAdvances(senderPhone, s, k, id);
      AloneAddsNoRow(senderPhone, s, k, id);
      StepKeepsInv(senderPhone, s, AloneStep(s, k, id));
      var more, next := Extend(senderPhone, start, steps, s, AloneStep(s, k, id));
      longer, s' := CallCanFinish(senderPhone, start, more, next, k);
    }
  }

  // ----- A repeated request

  /** A call whose key already has a row ends with that row or a failed lookup, and never stores
      an object, whatever runs beside it. */
  ghost predicate ShortCircuited(s: State, k: CallId, id: RowId) {
    && k in s.calls && id in s.rows
    && s.calls[k].phase in {Looking, Done(Err(LookupFailed)), Done(Ok(id, true))}
    && s.calls[k].req.idempotencyKey.Some? && s.rows[id].key == s.calls[k].req.idempotencyKey
    && OwnIs(s.store, k, map[])
  }

  lemma ShortCircuitStep(senderPhone: string, s: State, step: Step, k: CallId, id: RowId)
    requires Inv(s) && ShortCircuited(s, k, id) && Enabled(s, step)
    ensures ShortCircuited(Next(senderPhone, s, step), k, id)
  {
    if step.k == k {
      assert step.Lookup?;
      assert step.answer.Found? ==> step.answer.id == id;
    } else {
      StepIsFramed(senderPhone, s, step);
    }
  }

  lemma {:induction false} ShortCircuitRun(senderPhone: string, s: State, steps: seq<Step>, k: CallId, id: RowId)
    requires Inv(s) && ShortCircuited(s, k, id) && Run(senderPhone, s, steps).Some?
    ensures ShortCircuited(Run(senderPhone, s, steps).value, k, id)
    decreases |steps|
  {
    if steps != [] {
      var before := steps[..|steps| - 1];
      ShortCircuitRun(senderPhone, s, before, k, id);
      RunKeepsInv(senderPhone, s, before);
      ShortCircuitStep(senderPhone, Run(senderPhone, s, before).value, steps[|steps| - 1], k, id);
    }
  }

  lemma EmptyKeyIsNotOk(s: State, k: CallId, id: RowId)
    requires Inv(s) && k in s.calls && s.calls[k].req.idempotencyKey == Some("")
    requires id in s.rows && s.rows[id].key == Some("") && s.rows[id].owner != k
    ensures !(s.calls[k].phase.Done? && s.calls[k].phase.outcome.Ok?)
  {
    assert CallInv(s, k);
  }

  /** A call with an empty key, while a row has that key: it succeeds in no continuation. */
  lemma EmptyKeyNeverSucceeds(senderPhone: string, s: State, k: CallId, req: Request, id: RowId, steps: seq<Step>)
    requires Inv(s) && Enabled(s, Begin(k, req)) && req.idempotencyKey == Some("")
    requires id in s.rows && s.rows[id].key == req.idempotencyKey
    ensures forall other, idempotent :: !Returns(senderPhone, s, k, req, steps, other, idempotent)
  {
    var s1 := Next(senderPhone, s, Begin(k, req));
    assert RowInv(s, id);
    if Run(senderPhone, s1, steps).Some? {
      StepKeepsInv(senderPhone, s, Begin(k, req));
      RunKeepsInv(senderPhone, s1, steps);
      RunKeepsRows(senderPhone, s1, steps);
      EmptyKeyIsNotOk(Run(senderPhone, s1, steps).value, k, id);
    }
  }

  /** A valid request whose idempotency key already has a row, in every continuation: with a
      non-empty key the call ends with that row or a failed lookup and never stores an object;
      with an empty key it never succeeds. */
  lemma RepeatsShortCircuit(senderPhone: string, s: State, k: CallId, req: Request, id: RowId, steps: seq<Step>)
    requires Inv(s) && Enabled(s, Begin(k, req)) && Validate(senderPhone, req).None?
    requires req.idempotencyKey.Some? && id in s.rows && s.rows[id].key == req.idempotencyKey
    requires Run(senderPhone, Next(senderPhone, s, Begin(k, req)), steps).Some?
    ensures if IsSet(req.idempotencyKey)
      then ShortCircuited(Run(senderPhone, Next(senderPhone, s, Begin(k, req)), steps).value, k, id)
      else forall other, idempotent :: !Returns(senderPhone, s, k, req, steps, other, idempotent)
  {
    if IsSet(req.idempotencyKey) {
      StepKeepsInv(senderPhone, s, Begin(k, req));
      assert CallInv(Next(senderPhone, s, Begin(k, req)), k);
      ShortCircuitRun(senderPhone, Next(senderPhone, s, Begin(k, req)), steps, k, id);
    } else {
      EmptyKeyNeverSucceeds(senderPhone, s, k, req, id, steps);
    }
  }

  /** A call that begins after the row exists can return it exactly when its key is not empty. */
  lemma LaterRepeatReturnsRowExactly(senderPhone: string, s: State, k: CallId, req: Request, id: RowId)
    requires Inv(s) && Enabled(s, Begin(k, req)) && Validate(senderPhone, req).None?
    requires req.idempotencyKey.Some? && id in s.rows && s.rows[id].key == req.idempotencyKey
    ensures (exists steps, idempotent :: Returns(senderPhone, s, k, req, steps, id, idempotent))
      <==> IsSet(req.idempotencyKey)
  {
    if IsSet(req.idempotencyKey) {
      var s1 := Next(senderPhone, s, Begin(k, req));
      var steps, end := Extend(senderPhone, s1, [], s1, Lookup(k, Found(id)));
      assert Returns(senderPhone, s, k, req, steps, id, true);
    } else {
      forall steps, idempotent ensures !Returns(senderPhone, s, k, req, steps, id, idempotent) {
        EmptyKeyNeverSucceeds(senderPhone, s, k, req, id, steps);
      }
    }
  }

  // ----- A repeated request that overlaps the first

  /** Another call's row has the call's key. */
  predicate Beaten(s: State, k: CallId, id: RowId) {
    && k in s.calls && id in s.rows && s.rows[id].owner != k
    && s.calls[k].req.idempotencyKey.Some? && s.rows[id].key == s.calls[k].req.idempotencyKey
  }

  /** The call is past its lookup, and has not succeeded. */
  predicate PastLookup(s: State, k: CallId)
    requires k in s.calls
  {
    !s.calls[k].phase.Looking? && !(s.calls[k].phase.Done? && s.calls[k].phase.outcome.Ok?)
  }

  lemma PastLookupActs(senderPhone: string, s: State, step: Step, id: RowId)
    requires Beaten(s, step.k, id) && PastLookup(s, step.k) && Enabled(s, step)
    ensures step.k in Next(senderPhone, s, step).calls && PastLookup(Next(senderPhone, s, step), step.k)
  {
    assert Taken(s, s.calls[step.k].req);
  }

  lemma PastLookupStep(senderPhone: string, s: State, step: Step, k: CallId, id: RowId)
    requires Beaten(s, k, id) && PastLookup(s, k) && Enabled(s, step)
    ensures Beaten(Next(senderPhone, s, step), k, id) && PastLookup(Next(senderPhone, s, step), k)
  {
    RowsAfter(senderPhone, s, step);
    SameRequest(senderPhone, s, step, k);
    if step.k == k {
      PastLookupActs(senderPhone, s, step, id);
    } else {
      CallsAfter(senderPhone, s, step);
    }
  }

  lemma {:induction false} PastLookupRun(senderPhone: string, s: State, steps: seq<Step>, k: CallId, id: RowId)
    requires Beaten(s, k, id) && PastLookup(s, k) && Run(senderPhone, s, steps).Some?
    ensures var s' := Run(senderPhone, s, steps).value; Beaten(s', k, id) && PastLookup(s', k)
    decreases |steps|
  {
    if steps != [] {
      var before := steps[..|steps| - 1];
      PastLookupRun(senderPhone, s, before, k, id);
      PastLookupStep(senderPhone, Run(senderPhone, s, before).value, steps[|steps| - 1], k, id);
    }
  }

  /** After the steps the call has returned the row. */
  predicate EndsWith(senderPhone: string, s: State, steps: seq<Step>, k: CallId, id: RowId) {
    Run(senderPhone, s, steps).Some? && Succeeded(Run(senderPhone, s, steps).value, k, id)
  }

  /** The promise that a repeated POST with the same key returns the original row, for a call that
      is under way when another call's row has its key: it can return that row exactly when it has
      not looked the key up yet. Past its lookup it succeeds in no continuation. */
  lemma RepeatReturnsRowExactly(senderPhone: string, s: State, k: CallId, id: RowId)
    requires Inv(s) && Beaten(s, k, id) && !s.calls[k].phase.Done?
    ensures (exists steps :: EndsWith(senderPhone, s, steps, k, id)) <==> s.calls[k].phase.Looking?
    ensures !s.calls[k].phase.Looking? ==> forall steps, other :: !EndsWith(senderPhone, s, steps, k, other)
  {
    if s.calls[k].phase.Looking? {
      assert Run(senderPhone, s, []) == Some(s);
      var steps, end := Extend(senderPhone, s, [], s, Lookup(k, Found(id)));
      assert EndsWith(senderPhone, s, steps, k, id);
    } else {
      forall steps, other ensures !EndsWith(senderPhone, s, steps, k, other) {
        if Run(senderPhone, s, steps).Some? { PastLookupRun(senderPhone, s, steps, k, id); }
      }
    }
  }

  /** A call begins and finds no row with its key. */
  lemma BeginAndMiss(senderPhone: string, steps: seq<Step>, s: State, k: CallId, req: Request)
    returns (longer: seq<Step>, s': State)
    requires Run(senderPhone, Init(), steps) == Some(s) && k !in s.calls && s.rows == map[]
    requires Validate(senderPhone, req).None? && IsSet(req.idempotencyKey)
    ensures Run(senderPhone, Init(), longer) == Some(s')
    ensures s' == s.(calls := s.calls[k := Call(req, Uploading(0, []))])
  {
    longer, s' := Extend(senderPhone, Init(), steps, s, Begin(k, req));
    assert s' == s.(calls := s.calls[k := Call(req, Looking)]);
    longer, s' := Extend(senderPhone, Init(), longer, s', Lookup(k, Missing));
  }

  /** Two calls with one request that both looked before either inserted. */
  lemma BothLookedUp(senderPhone: string, req: Request, a: CallId, b: CallId) returns (steps: seq<Step>, s: State)
    requires Validate(senderPhone, req).None? && IsSet(req.idempotencyKey) && a != b
    ensures Run(senderPhone, Init(), steps) == Some(s)
    ensures var call := Call(req, Uploading(0, [])); s == State(map[], map[], map[a := call, b := call])
  {
    assert Run(senderPhone, Init(), []) == Some(Init());
    steps, s := BeginAndMiss(senderPhone, [], Init(), a, req);
    steps, s := BeginAndMiss(senderPhone, steps, s, b, req);
  }

  /** It happens: a retry with a non-empty key, sent while the first call is still under way, fails
      although the first one's row has its key. */
  lemma OverlappingRetryFails(senderPhone: string) returns (steps: seq<Step>, s: State)
    ensures Run(senderPhone, Init(), steps) == Some(s) && Beaten(s, "b", 0)
    ensures IsSet(s.calls["b"].req.idempotencyKey) && s.calls["b"].phase == Done(Err(InsertFailed))
    ensures Succeeded(s, "a", 0) && s.calls["a"].req == s.calls["b"].req
  {
    var req := Request("1", Some("k"), Some("+1"), None, None, "hi", []);
    assert !IsSpace(req.externalId[0]) && !IsSpace(req.content[0]);
    assert ByteLength("1") == 1;
    assert "a"[0] != "b"[0];
    steps, s := BothLookedUp(senderPhone, req, "a", "b");
    steps, s := Extend(senderPhone, Init(), steps, s, EndOfParts("a"));
    steps, s := Extend(senderPhone, Init(), steps, s, Insert("a", 0, true));
    steps, s := Extend(senderPhone, Init(), steps, s, EndOfParts("b"));
    assert Taken(s, req);
    steps, s := Extend(senderPhone, Init(), steps, s, Insert("b", 1, true));
    steps, s := Extend(senderPhone, Init(), steps, s, RemoveOne("b"));
  }
}
