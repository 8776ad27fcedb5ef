/** The SQL statements that run on `signal_messages`, as functions on rows and as the
    methods of the table they update. */
module Messages {
  import opened Domain

  predicate Overdue(m: Message, now: int) {
    m.timeoutAt.Some? && m.timeoutAt.value <= now
  }

  /** WHERE clause of ClaimPending. */
  predicate Eligible(m: Message, now: int) {
    && m.deletedAt.None?
    && (m.status.Pending? || (m.status.Sending? && m.nextAttemptAt < now))
    && m.nextAttemptAt <= now
    && !Overdue(m, now)
  }

  /** ORDER BY next_attempt_at LIMIT 1 over the eligible rows that no other transaction has
      locked. */
  predicate Earliest(t: Table, now: int, locked: set<MessageId>, id: MessageId) {
    && id in t && id !in locked && Eligible(t[id], now)
    && forall o | o in t && o !in locked && Eligible(t[o], now) :: t[id].nextAttemptAt <= t[o].nextAttemptAt
  }

  function Inserted(maxAttempts: int, timeoutAt: Option<int>, now: int): Message {
    Message(Pending, 0, maxAttempts, now, timeoutAt, None, None, now, None)
  }

  function Claimed(m: Message, now: int, lease: int): Message {
    m.(status := Sending, attempts := m.attempts + 1, nextAttemptAt := now + lease, modifiedAt := now)
  }

  function MarkedSent(m: Message, resultId: string, now: int): Message {
    m.(status := Sent, resultId := Some(resultId), modifiedAt := now)
  }

  function MarkedFailed(m: Message, error: string, next: int, now: int): Message {
    m.(status := if m.attempts >= m.maxAttempts then PermanentFailed else Failed,
       lastError := Some(error), nextAttemptAt := next, modifiedAt := now)
  }

  /** WHERE clause of MarkTimedOut. */
  predicate Reapable(m: Message, now: int) {
    && m.deletedAt.None?
    && (m.status.Pending? || m.status.Sending? || m.status.Failed?)
    && Overdue(m, now)
  }

  function Reaped(m: Message, now: int): Message {
    m.(status := TimedOut, modifiedAt := now)
  }

  function SweptRow(m: Message, now: int): Message {
    if Reapable(m, now) then Reaped(m, now) else m
  }

  function Swept(t: Table, now: int): Table {
    map id | id in t :: SweptRow(t[id], now)
  }

  function ReapableIds(t: Table, now: int): set<MessageId> {
    set id | id in t && Reapable(t[id], now)
  }

  /** WHERE clause of Resend, apart from the id. */
  predicate Resendable(m: Message) {
    m.status.Failed? || m.status.TimedOut? || m.status.PermanentFailed?
  }

  function Resent(m: Message, now: int): Message {
    m.(status := Pending, attempts := 0, nextAttemptAt := now, lastError := None, modifiedAt := now)
  }

  function Overridden(m: Message, target: Status, now: int): Message {
    m.(status := target, modifiedAt := now)
  }

  // UPDATE ... WHERE signal_message_id = id has no effect when the id does not exist.

  function WithSent(t: Table, id: MessageId, resultId: string, now: int): Table {
    if id in t then t[id := MarkedSent(t[id], resultId, now)] else t
  }

  function WithFailed(t: Table, id: MessageId, error: string, next: int, now: int): Table {
    if id in t then t[id := MarkedFailed(t[id], error, next, now)] else t
  }

  function WithResent(t: Table, id: MessageId, now: int): Table {
    if id in t && Resendable(t[id]) then t[id := Resent(t[id], now)] else t
  }

  /** After a sweep nothing that can still be swept is left, so a second sweep at the same
      instant flips no row; the sweep touched exactly the rows it counted; and it never took a row
      that a claim could have had. */
  lemma SweepSettles(t: Table, now: int)
    ensures ReapableIds(Swept(t, now), now) == {}
    ensures Swept(Swept(t, now), now) == Swept(t, now)
    ensures forall id | id in t ::
      Swept(t, now)[id] != t[id] <==> id in ReapableIds(t, now)
    ensures forall id | id in t && Eligible(t[id], now) :: Swept(t, now)[id] == t[id]
    ensures forall id | id in t && t[id].deletedAt.None? && Overdue(t[id], now) ::
      IsTerminal(Swept(t, now)[id].status)
  {
    assert forall id | id in t :: !Reapable(Swept(t, now)[id], now);
  }

  function Changed(t: Table, t': Table): set<MessageId> {
    set id | id in t && id in t' && t'[id] != t[id]
  }

  /** The sweep times out exactly the PENDING, SENDING and FAILED rows at or past their deadline that
      are not deleted, touching status and stamp alone, and no other row. */
  lemma SweepChangesExactly(t: Table, now: int)
    ensures Swept(t, now).Keys == t.Keys && Changed(t, Swept(t, now)) == ReapableIds(t, now)
    ensures forall id | id in t ::
      Swept(t, now)[id] == if t[id].deletedAt == None && t[id].status in {Pending, Sending, Failed}
                              && t[id].timeoutAt != None && t[id].timeoutAt.value <= now
                           then t[id].(status := TimedOut, modifiedAt := now) else t[id]
  {
    SweepSettles(t, now);
  }

  datatype ResendReply = Missing | Failure | Echo(row: Message)

  class MessageTable {
    var rows: Table

    constructor ()
      ensures rows == map[]
    {
      rows := map[];
    }

    method Insert(id: MessageId, maxAttempts: int, timeoutAt: Option<int>, now: int)
      requires id !in rows
      modifies this
      ensures rows == old(rows)[id := Message(
        status := Pending, attempts := 0, maxAttempts := maxAttempts, nextAttemptAt := now, timeoutAt := timeoutAt,
        lastError := None, resultId := None, modifiedAt := now, deletedAt := None)]
    {
      rows := rows[id := Inserted(maxAttempts, timeoutAt, now)];
    }

    /** `locked` are the rows other transactions hold; FOR UPDATE SKIP LOCKED passes over them. The
        row taken is not deleted, not past its deadline, due, and PENDING or with an expired lease. */
    method ClaimPending(now: int, lease: int, locked: set<MessageId>) returns (claimed: Option<(MessageId, Message)>)
      modifies this
      ensures claimed.None? ==> rows == old(rows)
      ensures claimed.None? ==> forall id | id in rows && id !in locked && rows[id].deletedAt == None
                                            && (rows[id].timeoutAt == None || now < rows[id].timeoutAt.value) ::
        rows[id].nextAttemptAt > now || (rows[id].status != Pending
                                         && (rows[id].status != Sending || rows[id].nextAttemptAt == now))
      ensures claimed.None? ==> forall id | id in rows && id !in locked :: !Eligible(rows[id], now)
      ensures claimed.Some? ==> Earliest(old(rows), now, locked, claimed.value.0)
      ensures claimed.Some? ==>
        var (id, row) := claimed.value; var m := old(rows)[id];
        && id !in locked && m.deletedAt == None && m.nextAttemptAt <= now
        && (m.status == Pending || (m.status == Sending && m.nextAttemptAt < now))
        && (m.timeoutAt == None || now < m.timeoutAt.value)
        && row == m.(status := Sending, attempts := m.attempts + 1, nextAttemptAt := now + lease, modifiedAt := now)
        && rows == old(rows)[id := row]
    {
      var todo := rows.Keys;
      var best: Option<MessageId> := None;
      while todo != {}
        invariant todo <= rows.Keys
        invariant rows == old(rows)
        invariant best.None? ==>
          forall id | id in rows && id !in todo && id !in locked :: !Eligible(rows[id], now)
        invariant best.Some? ==>
          && best.value in rows && best.value !in locked && Eligible(rows[best.value], now)
          && forall id | id in rows && id !in todo && id !in locked && Eligible(rows[id], now) ::
               rows[best.value].nextAttemptAt <= rows[id].nextAttemptAt
        decreases |todo|
      {
        var id :| id in todo;
        todo := todo - {id};
        if id !in locked && Eligible(rows[id], now)
           && (best.None? || rows[id].nextAttemptAt < rows[best.value].nextAttemptAt) {
          best := Some(id);
        }
      }
      if best.None? {
        return None;
      }
      var row := Claimed(rows[best.value], now, lease);
      rows := rows[best.value := row];
      return Some((best.value, row));
    }

    method MarkSent(id: MessageId, resultId: string, now: int)
      modifies this
      ensures rows == WithSent(old(rows), id, resultId, now)
      ensures rows == if id !in old(rows) then old(rows) else
        old(rows)[id := old(rows)[id].(status := Sent, resultId := Some(resultId), modifiedAt := now)]
    {
      if id in rows {
        rows := rows[id := MarkedSent(rows[id], resultId, now)];
      }
    }

    method MarkFailed(id: MessageId, error: string, next: int, now: int)
      modifies this
      ensures rows == WithFailed(old(rows), id, error, next, now)
      ensures rows == if id !in old(rows) then old(rows) else
        var m := old(rows)[id];
        old(rows)[id := m.(status := if m.attempts < m.maxAttempts then Failed else PermanentFailed,
                           lastError := Some(error), nextAttemptAt := next, modifiedAt := now)]
    {
      if id in rows {
        rows := rows[id := MarkedFailed(rows[id], error, next, now)];
      }
    }

    /** Returns the number of rows flipped. */
    method MarkTimedOut(now: int) returns (flipped: nat)
      modifies this
      ensures rows == Swept(old(rows), now)
      ensures flipped == |ReapableIds(old(rows), now)| == |Changed(old(rows), rows)|
    {
      ghost var t := rows;
      var todo := rows.Keys;
      flipped := 0;
      assert ReapableIds(t, now) * todo == ReapableIds(t, now);
      while todo != {}
        invariant todo <= t.Keys && rows.Keys == t.Keys
        invariant forall id | id in t :: rows[id] == if id in todo then t[id] else SweptRow(t[id], now)
        invariant flipped + |ReapableIds(t, now) * todo| == |ReapableIds(t, now)|
        decreases |todo|
      {
        var id :| id in todo;
        ghost var left := ReapableIds(t, now) * todo;
        todo := todo - {id};
        assert ReapableIds(t, now) * todo == left - {id};
        if Reapable(rows[id], now) {
          rows := rows[id := Reaped(rows[id], now)];
          flipped := flipped + 1;
        }
      }
      assert rows == Swept(t, now);
      SweepChangesExactly(t, now);
    }

    method Resend(id: MessageId, now: int)
      modifies this
      ensures rows == WithResent(old(rows), id, now)
      ensures rows == if id !in old(rows) || old(rows)[id].status in {Pending, Sending, Sent} then old(rows) else
        old(rows)[id := old(rows)[id].(status := Pending, attempts := 0, nextAttemptAt := now,
                                       lastError := None, modifiedAt := now)]
    {
      if id in rows && Resendable(rows[id]) {
        rows := rows[id := Resent(rows[id], now)];
      }
    }

    /** GetByID: soft-deleted rows do not exist. */
    predicate Visible(id: MessageId)
      reads this
    {
      id in rows && rows[id].deletedAt.None?
    }

    /** ResendSignalMessage: three statements, `answered` of which the database answers before it
        fails. A missing row is reported, an answered call echoes the row after it, and an error
        after the second statement reports failure although the row was reset. */
    method ResendSignalMessage(id: MessageId, now: int, answered: nat) returns (reply: ResendReply)
      modifies this
      ensures reply.Missing? <==> answered >= 1 && !old(Visible(id))
      ensures reply.Echo? <==> answered >= 3 && old(Visible(id))
      ensures rows == if answered >= 2 && old(Visible(id)) then WithResent(old(rows), id, now) else old(rows)
      ensures reply.Echo? ==> rows == old(rows)[id := reply.row]
      ensures reply.Echo? ==>
        var m := old(rows)[id];
        reply.row == if m.status in {Pending, Sending, Sent} then m
                     else m.(status := Pending, attempts := 0, nextAttemptAt := now, lastError := None,
                             modifiedAt := now)
    {
      if answered < 1 {
        return Failure;
      }
      if !Visible(id) {
        return Missing;
      }
      if answered < 2 {
        return Failure;
      }
      Resend(id, now);
      if answered < 3 {
        return Failure;
      }
      return Echo(rows[id]);
    }

    /** UpdateSignalMessage: SENDING is refused, a missing row is reported. */
    method UpdateSignalMessage(id: MessageId, target: Status, now: int) returns (updated: Option<Message>)
      modifies this
      ensures updated.Some? <==> target != Sending && old(Visible(id))
      ensures rows == if updated.Some? then old(rows)[id := old(rows)[id].(status := target, modifiedAt := now)]
                      else old(rows)
      ensures updated.Some? ==> updated.value == rows[id]
    {
      if !IsOperatorAssignable(target) || !Visible(id) {
        return None;
      }
      rows := rows[id := Overridden(rows[id], target, now)];
      return Some(rows[id]);
    }
  }

  /** One reaper tick: the sweep, and the counter that mirrors it. */
  class TimeoutReaper {
    const table: MessageTable
    var timedOut: nat

    constructor (table: MessageTable)
      ensures this.table == table && timedOut == 0
    {
      this.table := table;
      timedOut := 0;
    }

    /** `reachable` is whether the database answered; a failed sweep changes nothing. */
    method Reap(now: int, reachable: bool)
      modifies this, table
      ensures table.rows == if reachable then Swept(old(table.rows), now) else old(table.rows)
      ensures timedOut == old(timedOut) + if reachable then |ReapableIds(old(table.rows), now)| else 0
    {
      if reachable {
        var n := table.MarkTimedOut(now);
        if n > 0 {
          timedOut := timedOut + n;
        }
      }
    }
  }
}
