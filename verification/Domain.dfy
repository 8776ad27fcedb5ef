/** Statuses, rows and the table of outgoing messages. */
module Domain {
  datatype Option<+T> = None | Some(value: T)

  newtype Byte = b: int | 0 <= b < 256
  type Bytes = seq<Byte>

  datatype Status = Pending | Sending | Sent | Failed | PermanentFailed | TimedOut

  /** Statuses the worker never advances from on its own. */
  predicate IsTerminal(s: Status) {
    s.Sent? || s.PermanentFailed? || s.TimedOut?
  }

  /** Only the worker may move a row to SENDING. */
  predicate IsOperatorAssignable(s: Status) {
    !s.Sending?
  }

  type MessageId = nat

  /** The columns of `signal_messages` that some statement reads or writes after the insert.
      Times are points on one clock shared by the database and the replicas. */
  datatype Message = Message(
    status: Status,
    attempts: int,
    maxAttempts: int,
    nextAttemptAt: int,
    timeoutAt: Option<int>,
    lastError: Option<string>,
    resultId: Option<string>,
    modifiedAt: int,
    deletedAt: Option<int>)

  type Table = map<MessageId, Message>

  /** Some number above all of these: ids never run out. */
  lemma MaxPlusOne(ids: set<nat>) returns (m: nat)
    ensures forall i | i in ids :: i < m
  {
    m := 0;
    var todo := ids;
    while todo != {}
      invariant todo <= ids
      invariant forall i | i in ids && i !in todo :: i < m
      decreases |todo|
    {
      var i :| i in todo;
      todo := todo - {i};
      if i >= m { m := i + 1; }
    }
  }
}
