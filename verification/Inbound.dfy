/** Inbound events: the bounded buffer between the reader and the listener, the ignore filter,
    and the table keyed by source and timestamp. */
module Inbound {
  import opened Domain

  datatype Attachment = Attachment(id: string, contentType: string, size: int, filename: string)

  /** The body of a data message or of a sent message: the two have the same fields. */
  datatype Body = Body(message: Option<string>, attachments: seq<Attachment>, group: Option<string>)

  /** `edit` and `sync` are the message itself and what it carries, which may be nothing. */
  datatype Envelope = Envelope(
    source: string, sourceUuid: Option<string>, timestamp: int,
    data: Option<Body>, edit: Option<Option<Body>>, sync: Option<Option<Body>>,
    receipt: bool, typing: bool, call: bool)

  /** A notification; `envelope` is None when the parameters do not parse as one. */
  datatype Event = Event(rpcMethod: string, envelope: Option<Envelope>, raw: string)

  datatype Ignore = Ignore(typing: bool, receipt: bool, syncMessage: bool, callMessage: bool)

  predicate Filtered(ignore: Ignore, env: Envelope) {
    || (ignore.typing && env.typing)
    || (ignore.receipt && env.receipt)
    || (ignore.syncMessage && env.sync.Some?)
    || (ignore.callMessage && env.call)
  }

  datatype Kind = Typing | Receipt | SyncMessage | CallMessage

  /** The kinds an envelope carries, and those the configuration ignores. */
  function KindsOf(env: Envelope): set<Kind> {
    (if env.typing then {Typing} else {}) + (if env.receipt then {Receipt} else {})
    + (if env.sync.Some? then {SyncMessage} else {}) + (if env.call then {CallMessage} else {})
  }

  function IgnoredKinds(ignore: Ignore): set<Kind> {
    (if ignore.typing then {Typing} else {}) + (if ignore.receipt then {Receipt} else {})
    + (if ignore.syncMessage then {SyncMessage} else {}) + (if ignore.callMessage then {CallMessage} else {})
  }

  // ----- Columns

  function GroupIdOf(env: Envelope): Option<string> {
    if env.data.Some? && env.data.value.group.Some? && env.data.value.group.value != "" then env.data.value.group
    else if env.edit.Some? && env.edit.value.Some? && env.edit.value.value.group.Some?
            && env.edit.value.value.group.value != "" then env.edit.value.value.group
    else if env.sync.Some? && env.sync.value.Some? && env.sync.value.value.group.Some?
            && env.sync.value.value.group.value != "" then env.sync.value.value.group
    else None
  }

  function ContentOf(env: Envelope): Option<string> {
    if env.data.Some? && env.data.value.message.Some? && env.data.value.message.value != "" then env.data.value.message
    else if env.edit.Some? && env.edit.value.Some? && env.edit.value.value.message.Some?
            && env.edit.value.value.message.value != "" then env.edit.value.value.message
    else if env.sync.Some? && env.sync.value.Some? && env.sync.value.value.message.Some?
            && env.sync.value.value.message.value != "" then env.sync.value.value.message
    else None
  }

  function AttachmentsOf(env: Envelope): seq<Attachment> {
    if env.data.Some? && env.data.value.attachments != [] then env.data.value.attachments
    else if env.edit.Some? && env.edit.value.Some? && env.edit.value.value.attachments != [] then
      env.edit.value.value.attachments
    else if env.sync.Some? && env.sync.value.Some? && env.sync.value.value.attachments != [] then
      env.sync.value.value.attachments
    else []
  }

  function Listed(body: Option<Body>): seq<Body> {
    if body.Some? then [body.value] else []
  }

  function Inner(body: Option<Option<Body>>): Option<Body> {
    if body.Some? then body.value else None
  }

  /** The bodies an envelope carries, in order of precedence. */
  function Bodies(env: Envelope): seq<Body> {
    Listed(env.data) + Listed(Inner(env.edit)) + Listed(Inner(env.sync))
  }

  predicate NonEmpty(v: Option<string>) {
    v.Some? && v.value != ""
  }

  predicate HasGroup(b: Body) {
    NonEmpty(b.group)
  }

  predicate HasMessage(b: Body) {
    NonEmpty(b.message)
  }

  predicate HasAttachments(b: Body) {
    b.attachments != []
  }

  /** The first body with the property, if any has it. */
  function First(has: Body -> bool, bodies: seq<Body>): Option<Body> {
    if bodies == [] then None else if has(bodies[0]) then Some(bodies[0]) else First(has, bodies[1..])
  }

  lemma FirstOfListed(has: Body -> bool, a: Option<Body>, rest: seq<Body>)
    ensures First(has, Listed(a) + rest) == if a.Some? && has(a.value) then a else First(has, rest)
  {
    assert a.Some? ==> (Listed(a) + rest)[1..] == rest;
    assert a.None? ==> Listed(a) + rest == rest;
  }

  lemma FirstOfThree(has: Body -> bool, a: Option<Body>, b: Option<Body>, c: Option<Body>)
    ensures First(has, Listed(a) + Listed(b) + Listed(c))
      == if a.Some? && has(a.value) then a else if b.Some? && has(b.value) then b
         else if c.Some? && has(c.value) then c else None
  {
    assert Listed(a) + Listed(b) + Listed(c) == Listed(a) + (Listed(b) + (Listed(c) + []));
    FirstOfListed(has, a, Listed(b) + (Listed(c) + []));
    FirstOfListed(has, b, Listed(c) + []);
    FirstOfListed(has, c, []);
  }

  // ----- The table

  type Key = (string, int)

  datatype Row = Row(
    source: string, sourceUuid: Option<string>, timestamp: int, groupId: Option<string>,
    content: Option<string>, attachments: seq<Attachment>, raw: string)

  type Table = map<Key, Row>

  /** What `handle` persists of an event, if anything. */
  function Persisted(ignore: Ignore, ev: Event): Option<Row> {
    if ev.rpcMethod != "receive" || ev.envelope.None? then None
    else
      var env := ev.envelope.value;
      if Filtered(ignore, env) || env.source == "" || env.timestamp == 0 then None
      else
        Some(Row(env.source, env.sourceUuid, env.timestamp,
                 GroupIdOf(env), ContentOf(env), AttachmentsOf(env), ev.raw))
  }

  lemma FilteredExactly(ignore: Ignore, env: Envelope)
    ensures Filtered(ignore, env) <==> !(KindsOf(env) !! IgnoredKinds(ignore))
  {
    assert KindsOf(env) !! IgnoredKinds(ignore) <==>
      forall k | k in {Typing, Receipt, SyncMessage, CallMessage} :: !(k in KindsOf(env) && k in IgnoredKinds(ignore));
  }

  lemma ColumnsTakeFirst(env: Envelope)
    ensures var b := First(HasGroup, Bodies(env)); GroupIdOf(env) == if b.Some? then b.value.group else None
    ensures var b := First(HasMessage, Bodies(env)); ContentOf(env) == if b.Some? then b.value.message else None
    ensures var b := First(HasAttachments, Bodies(env));
      AttachmentsOf(env) == if b.Some? then b.value.attachments else []
  {
    FirstOfThree(HasGroup, env.data, Inner(env.edit), Inner(env.sync));
    FirstOfThree(HasMessage, env.data, Inner(env.edit), Inner(env.sync));
    FirstOfThree(HasAttachments, env.data, Inner(env.edit), Inner(env.sync));
  }

  /** Kept are exactly the receive events with an envelope that carries no ignored kind and can be
      keyed. The row is keyed by its envelope; group, content and attachments each come from the
      first body that has them, so they can come from different bodies, and a column that no body
      has is empty. */
  lemma PersistedExactly(ignore: Ignore, ev: Event)
    ensures Persisted(ignore, ev).Some? <==>
      && ev.rpcMethod == "receive" && ev.envelope.Some?
      && KindsOf(ev.envelope.value) !! IgnoredKinds(ignore)
      && ev.envelope.value.source != "" && ev.envelope.value.timestamp != 0
    ensures Persisted(ignore, ev).Some? ==>
      var row, env := Persisted(ignore, ev).value, ev.envelope.value;
      var bodies := Bodies(env);
      var grouped, worded, laden := First(HasGroup, bodies), First(HasMessage, bodies), First(HasAttachments, bodies);
      && KeyOf(row) == (env.source, env.timestamp) && row.sourceUuid == env.sourceUuid && row.raw == ev.raw
      && row.groupId == (if grouped.Some? then grouped.value.group else None)
      && row.content == (if worded.Some? then worded.value.message else None)
      && row.attachments == (if laden.Some? then laden.value.attachments else [])
  {
    if ev.envelope.Some? {
      FilteredExactly(ignore, ev.envelope.value);
      ColumnsTakeFirst(ev.envelope.value);
    }
  }

  function KeyOf(row: Row): Key {
    (row.source, row.timestamp)
  }

  /** INSERT ... ON CONFLICT (source, source_timestamp) DO NOTHING. */
  function InsertInbound(t: Table, row: Row): Table {
    if KeyOf(row) in t then t else t[KeyOf(row) := row]
  }

  function Handled(ignore: Ignore, t: Table, ev: Event): Table {
    var row := Persisted(ignore, ev);
    if row.None? then t else InsertInbound(t, row.value)
  }

  function HandledAll(ignore: Ignore, t: Table, events: seq<Event>): Table
    decreases |events|
  {
    if events == [] then t
    else Handled(ignore, HandledAll(ignore, t, events[..|events| - 1]), events[|events| - 1])
  }

  predicate Carries(ignore: Ignore, ev: Event, key: Key) {
    Persisted(ignore, ev).Some? && KeyOf(Persisted(ignore, ev).value) == key
  }

  /** The table is the first-wins dedup of the events by source and timestamp: a key is there
      exactly when it was there before or some event carries it, and the row is the one there
      before or the one of the first such event. */
  lemma {:induction false} FirstWins(ignore: Ignore, t: Table, events: seq<Event>, key: Key)
    ensures key in HandledAll(ignore, t, events) <==>
      key in t || exists i | 0 <= i < |events| :: Carries(ignore, events[i], key)
    ensures key in t ==> HandledAll(ignore, t, events)[key] == t[key]
    ensures forall i | 0 <= i < |events| && key !in t && Carries(ignore, events[i], key)
                       && (forall j | 0 <= j < i :: !Carries(ignore, events[j], key)) ::
      HandledAll(ignore, t, events)[key] == Persisted(ignore, events[i]).value
    decreases |events|
  {
    if events != [] {
      var before, last := events[..|events| - 1], events[|events| - 1];
      FirstWins(ignore, t, before, key);
      assert forall i | 0 <= i < |before| :: events[i] == before[i];
      if Carries(ignore, last, key) {
        assert Carries(ignore, events[|events| - 1], key);
      }
    }
  }

  lemma HandledNext(ignore: Ignore, t: Table, events: seq<Event>, ev: Event)
    ensures HandledAll(ignore, t, events + [ev]) == Handled(ignore, HandledAll(ignore, t, events), ev)
  {
    assert (events + [ev])[..|events|] == events;
  }

  lemma {:induction false} HandledAllAppends(ignore: Ignore, t: Table, a: seq<Event>, b: seq<Event>)
    ensures HandledAll(ignore, t, a + b) == HandledAll(ignore, HandledAll(ignore, t, a), b)
    decreases |b|
  {
    if b == [] {
      assert a + b == a;
    } else {
      assert (a + b)[..|a + b| - 1] == a + b[..|b| - 1];
      HandledAllAppends(ignore, t, a, b[..|b| - 1]);
    }
  }

  /** Redelivering events that were handled, in any order and any number of times, changes
      nothing. */
  lemma {:induction false} RedeliveryChangesNothing(ignore: Ignore, t: Table, events: seq<Event>, again: seq<Event>)
    requires forall i | 0 <= i < |again| :: again[i] in events
    ensures HandledAll(ignore, t, events + again) == HandledAll(ignore, t, events)
    decreases |again|
  {
    HandledAllAppends(ignore, t, events, again);
    if again != [] {
      var before, last := again[..|again| - 1], again[|again| - 1];
      RedeliveryChangesNothing(ignore, t, events, before);
      HandledAllAppends(ignore, t, events, before);
      if Persisted(ignore, last).Some? {
        var i :| 0 <= i < |events| && events[i] == last;
        FirstWins(ignore, t, events, KeyOf(Persisted(ignore, last).value));
        assert Carries(ignore, events[i], KeyOf(Persisted(ignore, last).value));
      }
    }
  }

  // ----- The buffer

  const CAPACITY := 64

  /** The elements of `xs` whose flag has the given value, in order. */
  function Select<T>(xs: seq<T>, flags: seq<bool>, value: bool): seq<T>
    requires |xs| == |flags|
    decreases |xs|
  {
    if xs == [] then []
    else
      var n := |xs| - 1;
      Select(xs[..n], flags[..n], value) + if flags[n] == value then [xs[n]] else []
  }

  lemma SelectNext<T>(xs: seq<T>, flags: seq<bool>, x: T, flag: bool, value: bool)
    requires |xs| == |flags|
    ensures Select(xs + [x], flags + [flag], value) == Select(xs, flags, value) + if flag == value then [x] else []
  {
    assert (xs + [x])[..|xs|] == xs && (flags + [flag])[..|flags|] == flags;
  }

  lemma {:induction false} SelectAppends<T>(xs: seq<T>, flags: seq<bool>, ys: seq<T>, more: seq<bool>)
    requires |xs| == |flags| && |ys| == |more|
    ensures Select(xs + ys, flags + more, true) == Select(xs, flags, true) + Select(ys, more, true)
    decreases |ys|
  {
    if ys == [] {
      assert xs + ys == xs && flags + more == flags;
    } else {
      var n := |ys| - 1;
      SelectAppends(xs, flags, ys[..n], more[..n]);
      assert xs + ys == (xs + ys[..n]) + [ys[n]] && flags + more == (flags + more[..n]) + [more[n]];
      SelectNext(xs + ys[..n], flags + more[..n], ys[n], more[n], true);
    }
  }

  lemma {:induction false} SelectSplits<T>(xs: seq<T>, flags: seq<bool>)
    requires |xs| == |flags|
    ensures |xs| == |Select(xs, flags, true)| + |Select(xs, flags, false)|
    ensures multiset(xs) == multiset(Select(xs, flags, true)) + multiset(Select(xs, flags, false))
    decreases |xs|
  {
    if xs != [] {
      var n := |xs| - 1;
      SelectSplits(xs[..n], flags[..n]);
      assert xs == xs[..n] + [xs[n]];
    }
  }

  /** The reader's and the listener's shared state. History: every notification received, which of
      them the buffer took, the events consumed and whether the insert of each was answered. */
  class Inbox {
    const ignore: Ignore
    var buffer: seq<Event>
    var table: Table
    var droppedCount: nat
    ghost var start: Table
    ghost var received: seq<Event>
    ghost var taken: seq<bool>
    ghost var consumed: seq<Event>
    ghost var answered: seq<bool>

    /** Nothing is lost and nothing invented: what the buffer took is what was consumed followed
        by what is queued, in the order of arrival; the rest was dropped and counted. The table
        is what handling the answered events leaves. */
    ghost predicate Valid()
      reads this
    {
      && |taken| == |received| && |answered| == |consumed|
      && |buffer| <= CAPACITY
      && consumed + buffer == Select(received, taken, true)
      && droppedCount == |Select(received, taken, false)|
      && table == HandledAll(ignore, start, Select(consumed, answered, true))
    }

    constructor (ignore: Ignore, table: Table)
      ensures Valid() && this.ignore == ignore && received == [] && start == table && buffer == []
    {
      this.ignore := ignore;
      this.table, start := table, table;
      buffer, droppedCount := [], 0;
      received, taken, consumed, answered := [], [], [], [];
    }

    /** The tail of dispatchFrame: a frame without a method is not an event, and a full buffer
        drops the event instead of stalling the reader. */
    method Notify(ev: Event)
      requires Valid()
      modifies this
      ensures Valid() && start == old(start) && table == old(table) && consumed == old(consumed)
      ensures received == old(received) + if ev.rpcMethod == "" then [] else [ev]
      ensures buffer == old(buffer) + if ev.rpcMethod == "" || |old(buffer)| == 64 then [] else [ev]
      ensures droppedCount == old(droppedCount) + if ev.rpcMethod != "" && |old(buffer)| == 64 then 1 else 0
    {
      if ev.rpcMethod == "" {
        return;
      }
      ghost var fits := |buffer| < CAPACITY;
      SelectNext(received, taken, ev, fits, true);
      SelectNext(received, taken, ev, fits, false);
      received, taken := received + [ev], taken + [fits];
      if |buffer| < CAPACITY {
        assert consumed + (buffer + [ev]) == (consumed + buffer) + [ev];
        buffer := buffer + [ev];
      } else {
        droppedCount := droppedCount + 1;
      }
    }

    /** `reachable` is whether the database answered. */
    method Handle(ev: Event, reachable: bool)
      modifies this`table
      ensures table == if reachable then Handled(ignore, old(table), ev) else old(table)
    {
      var row := Persisted(ignore, ev);
      if row.Some? && reachable && KeyOf(row.value) !in table {
        table := table[KeyOf(row.value) := row.value];
      }
    }

    /** One turn of the listener's loop. */
    method Consume(reachable: bool)
      requires Valid() && buffer != []
      modifies this
      ensures Valid() && start == old(start) && received == old(received) && droppedCount == old(droppedCount)
      ensures buffer == old(buffer)[1..] && consumed == old(consumed) + [old(buffer)[0]]
      ensures answered == old(answered) + [reachable]
      ensures table == if reachable then Handled(ignore, old(table), old(buffer)[0]) else old(table)
    {
      var ev := buffer[0];
      ghost var stored := Select(consumed, answered, true);
      SelectNext(consumed, answered, ev, reachable, true);
      assert stored + [] == stored;
      HandledNext(ignore, start, stored, ev);
      assert (consumed + [ev]) + buffer[1..] == consumed + buffer;
      buffer := buffer[1..];
      consumed, answered := consumed + [ev], answered + [reachable];
      Handle(ev, reachable);
    }

    /** The listener left alone with what is queued; `reachable[i]` is whether the database answers
        the insert of the i-th queued event. The buffer ends empty, and of the queued events
        exactly those whose insert was answered are in the table, handled in order. */
    method Drain(reachable: seq<bool>)
      requires Valid() && |reachable| == |buffer|
      modifies this
      ensures Valid() && buffer == [] && start == old(start) && received == old(received)
      ensures consumed == Select(received, taken, true) && consumed == old(consumed) + old(buffer)
      ensures droppedCount == old(droppedCount) && answered == old(answered) + reachable
      ensures table == HandledAll(ignore, old(table), Select(old(buffer), reachable, true))
    {
      var n := 0;
      while buffer != []
        invariant Valid() && start == old(start) && received == old(received) && droppedCount == old(droppedCount)
        invariant 0 <= n <= |old(buffer)| && buffer == old(buffer)[n..]
        invariant consumed == old(consumed) + old(buffer)[..n] && answered == old(answered) + reachable[..n]
        decreases |buffer|
      {
        assert old(buffer)[..n + 1] == old(buffer)[..n] + [old(buffer)[n]];
        assert reachable[..n + 1] == reachable[..n] + [reachable[n]];
        Consume(reachable[n]);
        n := n + 1;
      }
      assert old(buffer)[..n] == old(buffer) && reachable[..n] == reachable;
      assert consumed + [] == consumed;
      SelectAppends(old(consumed), old(answered), old(buffer), reachable);
      HandledAllAppends(ignore, start, Select(old(consumed), old(answered), true),
                        Select(old(buffer), reachable, true));
    }
  }

  /** Conservation, from the buffer's invariant: every notification was consumed, is queued or was
      dropped, each exactly once. */
  lemma NotificationsAreConserved(inbox: Inbox)
    requires inbox.Valid()
    ensures |inbox.received| == |inbox.consumed| + |inbox.buffer| + inbox.droppedCount && |inbox.buffer| <= 64
    ensures multiset(inbox.received)
         == multiset(inbox.consumed) + multiset(inbox.buffer) + multiset(Select(inbox.received, inbox.taken, false))
  {
    SelectSplits(inbox.received, inbox.taken);
    assert multiset(inbox.consumed + inbox.buffer) == multiset(inbox.consumed) + multiset(inbox.buffer);
  }

  lemma {:induction false} SelectAll<T>(xs: seq<T>, flags: seq<bool>)
    requires |xs| == |flags| && forall i | 0 <= i < |flags| :: flags[i]
    ensures Select(xs, flags, true) == xs
    decreases |xs|
  {
    if xs != [] {
      SelectAll(xs[..|xs| - 1], flags[..|xs| - 1]);
      assert xs == xs[..|xs| - 1] + [xs[|xs| - 1]];
    }
  }

  /** Without insert errors the table is the first-wins dedup of the consumed events. */
  lemma TableIsDedup(inbox: Inbox, key: Key)
    requires inbox.Valid() && forall i | 0 <= i < |inbox.answered| :: inbox.answered[i]
    ensures key in inbox.table <==>
      key in inbox.start || exists i | 0 <= i < |inbox.consumed| :: Carries(inbox.ignore, inbox.consumed[i], key)
    ensures key in inbox.start ==> inbox.table[key] == inbox.start[key]
    ensures forall i | 0 <= i < |inbox.consumed| && key !in inbox.start && Carries(inbox.ignore, inbox.consumed[i], key)
                       && (forall j | 0 <= j < i :: !Carries(inbox.ignore, inbox.consumed[j], key)) ::
      inbox.table[key] == Persisted(inbox.ignore, inbox.consumed[i]).value
  {
    SelectAll(inbox.consumed, inbox.answered);
    FirstWins(inbox.ignore, inbox.start, inbox.consumed, key);
  }
}
