/** The worker's loops: one dispatch with the bounded MarkSent retry, and the drain loop that
    claims until the table has nothing left. Time passes between and inside dispatches. What the
    worker does is a run of the protocol, so what holds of all runs holds of the worker. */
module Worker {
  import opened Domain
  import opened Messages
  import opened Outbox
  import Backoff

  /** One try of a write: how long after the previous event it is made, what the database did,
      and whether the attempt's context had ended by the time the next try would begin. */
  datatype Try = Try(wait: nat, outcome: WriteOutcome, stops: bool)

  /** What the environment does to one dispatch. `preparing` is how long download and build take,
      `preparation` their error, if any; `sending` is how long Send takes; `delay` is the backoff
      drawn for an attempt count. */
  datatype Weather = Weather(
    preparing: nat,
    preparation: Option<string>,
    sending: nat,
    reply: Reply,
    delay: int -> int,
    failedWrite: WriteOutcome,
    sentWrites: seq<Try>)

  datatype Reply = Accepted(resultId: string) | Refused(error: string)

  /** The attempt's context ends after the per-attempt timeout, and with it the dispatch. */
  ghost predicate Complete(c: Config, wx: Weather) {
    && |wx.sentWrites| == 3 && Duration(wx) <= c.perAttempt
    && forall attempts :: Backoff.Possible(attempts, c.baseBackoff, c.maxBackoff, wx.delay(attempts))
  }

  /** No further try is made after this one. */
  predicate IsLast(t: Try) {
    t.outcome.Applied? || t.stops
  }

  /** Some try that is made takes effect. */
  predicate TakesEffect(tries: seq<Try>) {
    tries != [] && (!tries[0].outcome.Lost? || (!tries[0].stops && TakesEffect(tries[1..])))
  }

  /** Some try that is made is acknowledged. */
  predicate Acknowledged(tries: seq<Try>) {
    tries != [] && (tries[0].outcome.Applied? || (!tries[0].stops && Acknowledged(tries[1..])))
  }

  function TriesTake(tries: seq<Try>): nat {
    if tries == [] then 0 else tries[0].wait + if IsLast(tries[0]) then 0 else TriesTake(tries[1..])
  }

  /** How long Send and what follows it take. */
  function SendTakes(wx: Weather): nat {
    wx.sending + if wx.reply.Refused? then 0 else TriesTake(wx.sentWrites)
  }

  function Duration(wx: Weather): nat {
    wx.preparing + if wx.preparation.Some? then 0 else SendTakes(wx)
  }

  /** The row a failed attempt leaves behind. */
  function FailedRow(m: Message, error: string, delay: int, outcome: WriteOutcome, now: int): Message {
    if outcome.Lost? then m else MarkedFailed(m, error, now + delay, now)
  }

  /** The row after the tries of MarkSent. */
  function SentRow(m: Message, resultId: string, tries: seq<Try>, now: int): Message
    decreases |tries|
  {
    if tries == [] then m
    else
      var t := now + tries[0].wait;
      var m' := if tries[0].outcome.Lost? then m else MarkedSent(m, resultId, t);
      if IsLast(tries[0]) then m' else SentRow(m', resultId, tries[1..], t)
  }

  /** The row after a Send that was called at `now`. */
  function SendOutcome(m: Message, wx: Weather, now: int): Message {
    if wx.reply.Refused? then FailedRow(m, wx.reply.error, wx.delay(m.attempts), wx.failedWrite, now + wx.sending)
    else SentRow(m, wx.reply.resultId, wx.sentWrites, now + wx.sending)
  }

  /** The row a dispatch leaves behind, from the row it claimed at `now`. */
  function Outcome(m: Message, wx: Weather, now: int): Message {
    if wx.preparation.Some? then
      FailedRow(m, wx.preparation.value, wx.delay(m.attempts), wx.failedWrite, now + wx.preparing)
    else SendOutcome(m, wx, now + wx.preparing)
  }

  /** The tries leave the row SENT with the result exactly when one of them took effect. */
  lemma {:induction false} SentExactlyIfTakesEffect(m: Message, resultId: string, tries: seq<Try>, now: int)
    ensures var row := SentRow(m, resultId, tries, now);
      if TakesEffect(tries) then
        row == MarkedSent(m, resultId, row.modifiedAt) && now <= row.modifiedAt <= now + TriesTake(tries)
      else row == m
    decreases |tries|
  {
    if tries != [] {
      var t := now + tries[0].wait;
      var m' := if tries[0].outcome.Lost? then m else MarkedSent(m, resultId, t);
      if !IsLast(tries[0]) { SentExactlyIfTakesEffect(m', resultId, tries[1..], t); }
    }
  }

  /** The row a dispatch leaves, column by column: the error and the schedule of a failed download,
      build or Send if the write took effect, the result of an accepted Send if some try did. */
  lemma DispatchOutcome(m: Message, wx: Weather, now: int)
    ensures var row, prepared := Outcome(m, wx, now), now + wx.preparing;
      var parked := if m.attempts < m.maxAttempts then Failed else PermanentFailed;
      if wx.preparation.Some? then
        row == if wx.failedWrite == Lost then m
               else m.(status := parked, lastError := wx.preparation, modifiedAt := prepared,
                       nextAttemptAt := prepared + wx.delay(m.attempts))
      else if wx.reply.Refused? then
        row == if wx.failedWrite == Lost then m
               else m.(status := parked, lastError := Some(wx.reply.error), modifiedAt := prepared + wx.sending,
                       nextAttemptAt := prepared + wx.sending + wx.delay(m.attempts))
      else if TakesEffect(wx.sentWrites) then
        row == m.(status := Sent, resultId := Some(wx.reply.resultId), modifiedAt := row.modifiedAt)
      else row == m
  {
    if wx.reply.Accepted? {
      SentExactlyIfTakesEffect(m, wx.reply.resultId, wx.sentWrites, now + wx.preparing + wx.sending);
    }
  }

  /** Whatever happens to its dispatch, a row can be claimed again only after the lease, and only
      if no write of the dispatch took effect. */
  lemma ReclaimNeedsLease(c: Config, m: Message, wx: Weather, now: int, later: int)
    requires Eligible(Outcome(Claimed(m, now, c.lease), wx, now), later)
    ensures now + c.lease < later
    ensures Outcome(Claimed(m, now, c.lease), wx, now) == Claimed(m, now, c.lease)
  {
    var row, sent := Claimed(m, now, c.lease), now + wx.preparing + wx.sending;
    if wx.preparation.None? && wx.reply.Accepted? {
      SentExactlyIfTakesEffect(row, wx.reply.resultId, wx.sentWrites, sent);
    }
  }

  /** The counters, as the log determines them. */
  datatype Counts = Counts(sends: nat, sent: nat, permanentFailed: nat, retries: nat)

  function Counted(n: Counts, e: Event): Counts {
    match e
    case SendCalled(_) => n.(sends := n.sends + 1)
    case SentReported(_) => n.(sent := n.sent + 1)
    case FailureReported(_, true, _, _, _) => n.(permanentFailed := n.permanentFailed + 1)
    case FailureReported(_, false, _, _, _) => n.(retries := n.retries + 1)
    case _ => n
  }

  function CountsOf(log: seq<Event>): Counts
    decreases |log|
  {
    if log == [] then Counts(0, 0, 0, 0) else Counted(CountsOf(ButLast(log)), Last(log))
  }

  /** The counters after MarkFailed: only an acknowledged one counts. */
  function CountedFailure(n: Counts, msg: Message, outcome: WriteOutcome): Counts {
    if !outcome.Applied? then n
    else if msg.attempts >= msg.maxAttempts then n.(permanentFailed := n.permanentFailed + 1)
    else n.(retries := n.retries + 1)
  }

  function CountedTries(n: Counts, tries: seq<Try>): Counts {
    if Acknowledged(tries) then n.(sent := n.sent + 1) else n
  }

  function CountedReply(n: Counts, msg: Message, wx: Weather): Counts {
    if wx.reply.Refused? then CountedFailure(n, msg, wx.failedWrite) else CountedTries(n, wx.sentWrites)
  }

  /** The counters after a dispatch of `msg`. */
  function CountedDispatch(n: Counts, msg: Message, wx: Weather): Counts {
    if wx.preparation.Some? then CountedFailure(n, msg, wx.failedWrite)
    else CountedReply(n.(sends := n.sends + 1), msg, wx)
  }

  class Worker {
    const c: Config
    const table: MessageTable
    var sends: nat
    var sent: nat
    var permanentFailed: nat
    var retries: nat

    function Counters(): Counts
      reads this
    {
      Counts(sends, sent, permanentFailed, retries)
    }

    constructor (c: Config, table: MessageTable)
      ensures this.c == c && this.table == table && Counters() == Counts(0, 0, 0, 0)
    {
      this.c := c;
      this.table := table;
      sends, sent, permanentFailed, retries := 0, 0, 0, 0;
    }

    /** markSent: at most three tries, none after the context has ended. */
    method MarkSent(id: MessageId, resultId: string, tries: seq<Try>, now: int) returns (ok: bool, end: int)
      requires id in table.rows && |tries| == 3
      modifies this`sent, table
      ensures end == now + TriesTake(tries) && ok == Acknowledged(tries)
      ensures table.rows == old(table.rows)[id := SentRow(old(table.rows)[id], resultId, tries, now)]
      ensures Counters() == CountedTries(old(Counters()), tries)
    {
      ghost var row := table.rows[id];
      var i := 0;
      ok, end := false, now;
      while i < MARK_SENT_TRIES
        invariant 0 <= i <= MARK_SENT_TRIES && !ok && sent == old(sent)
        invariant end + TriesTake(tries[i..]) == now + TriesTake(tries)
        invariant Acknowledged(tries) == Acknowledged(tries[i..])
        invariant id in table.rows && table.rows == old(table.rows)[id := table.rows[id]]
        invariant SentRow(row, resultId, tries, now) == SentRow(table.rows[id], resultId, tries[i..], end)
      {
        var t := tries[i];
        assert tries[i..][0] == t && tries[i..][1..] == tries[i + 1..];
        end := end + t.wait;
        if !t.outcome.Lost? {
          table.MarkSent(id, resultId, end);
        }
        if t.outcome.Applied? {
          ok := true;
          sent := sent + 1;
          return;
        }
        if t.stops {
          return;
        }
        i := i + 1;
      }
    }

    /** fail: schedules the next attempt; the counters mirror the CASE of the statement on the
        worker's own copy of the row. */
    method Fail(id: MessageId, msg: Message, error: string, delay: int, outcome: WriteOutcome, now: int)
      requires id in table.rows
      modifies this`permanentFailed, this`retries, table
      ensures table.rows == old(table.rows)[id := FailedRow(old(table.rows)[id], error, delay, outcome, now)]
      ensures var m := old(table.rows)[id];
        table.rows[id] == if outcome == Lost then m
                          else m.(status := if m.attempts < m.maxAttempts then Failed else PermanentFailed,
                                  lastError := Some(error), nextAttemptAt := now + delay, modifiedAt := now)
      ensures Counters() == CountedFailure(old(Counters()), msg, outcome)
    {
      if !outcome.Lost? {
        table.MarkFailed(id, error, now + delay, now);
      }
      if outcome.Applied? {
        if msg.attempts >= msg.maxAttempts {
          permanentFailed := permanentFailed + 1;
        } else {
          retries := retries + 1;
        }
      }
    }

    method Dispatch(id: MessageId, msg: Message, wx: Weather, now: int) returns (end: int)
      requires id in table.rows && table.rows[id] == msg && |wx.sentWrites| == 3
      modifies this`sends, this`sent, this`permanentFailed, this`retries, table
      ensures end == now + Duration(wx)
      ensures table.rows == old(table.rows)[id := Outcome(msg, wx, now)]
      ensures Counters() == CountedDispatch(old(Counters()), msg, wx)
    {
      end := now + wx.preparing;
      if wx.preparation.Some? {
        Fail(id, msg, wx.preparation.value, wx.delay(msg.attempts), wx.failedWrite, end);
        return;
      }
      sends := sends + 1;
      end := end + wx.sending;
      if wx.reply.Refused? {
        Fail(id, msg, wx.reply.error, wx.delay(msg.attempts), wx.failedWrite, end);
        return;
      }
      var ok;
      ok, end := MarkSent(id, wx.reply.resultId, wx.sentWrites, end);
    }

    /** tick: nothing is returned when there was nothing to claim. */
    method Tick(wx: Weather, now: int) returns (claimed: Option<(MessageId, Message)>, end: int)
      requires |wx.sentWrites| == 3
      modifies this, table
      ensures claimed.None? ==>
        && end == now && table.rows == old(table.rows) && Counters() == old(Counters())
        && forall id | id in table.rows :: !Eligible(table.rows[id], now)
      ensures claimed.Some? ==>
        && var (id, msg) := claimed.value;
        && end == now + Duration(wx) && Earliest(old(table.rows), now, {}, id)
        && msg == Claimed(old(table.rows)[id], now, c.lease)
        && table.rows == old(table.rows)[id := Outcome(msg, wx, now)]
        && Counters() == CountedDispatch(old(Counters()), msg, wx)
    {
      claimed := table.ClaimPending(now, c.lease, {});
      if claimed.None? {
        return None, now;
      }
      end := Dispatch(claimed.value.0, claimed.value.1, wx, now);
    }

    /** The drain loop of runSingle. Each turn is the pause before a claim and what happens to its
        dispatch; the context ends, or the claim errors, after the last turn. `tables` is the
        history of the table, one entry before each claim. */
    method Drain(start: int, turns: seq<Turn>) returns (claims: seq<ClaimAt>, end: int, ghost tables: seq<Table>)
      requires forall k | 0 <= k < |turns| :: |turns[k].wx.sentWrites| == 3
      modifies this, table
      ensures |claims| <= |turns| && History(c, tables, claims, turns)
      ensures tables[0] == old(table.rows) && tables[|claims|] == table.rows
      ensures Counters() == CountedClaims(old(Counters()), claims, turns)
      ensures forall k | 0 <= k < |claims| :: start <= claims[k].at <= end
      ensures |claims| == |turns| || forall id | id in table.rows :: !Eligible(table.rows[id], end)
    {
      claims, end, tables := [], start, [table.rows];
      while |claims| < |turns|
        invariant |claims| <= |turns| && start <= end
        invariant History(c, tables, claims, turns)
        invariant tables[0] == old(table.rows) && tables[|claims|] == table.rows
        invariant Counters() == CountedClaims(old(Counters()), claims, turns)
        invariant forall k | 0 <= k < |claims| :: start <= claims[k].at && EndOf(claims[k], turns[k]) <= end
      {
        var turn := turns[|claims|];
        var at := end + turn.pause;
        var next;
        next, end := Tick(turn.wx, at);
        if next.None? {
          return;
        }
        var claim := ClaimAt(next.value.0, at, next.value.1);
        HistoryGrows(c, tables, claims, turns, claim, table.rows);
        CountedNext(old(Counters()), claims, turns, claim);
        claims, tables := claims + [claim], tables + [table.rows];
      }
    }
  }

  // ----- What the history of a drain says

  datatype Turn = Turn(pause: nat, wx: Weather)

  /** A claim, its time, and the row as it returned it. */
  datatype ClaimAt = ClaimAt(id: MessageId, at: int, row: Message)

  function EndOf(claim: ClaimAt, turn: Turn): int {
    claim.at + Duration(turn.wx)
  }

  /** The claim takes the earliest eligible row of the table, and its dispatch leaves the table t. */
  predicate Follows(c: Config, before: Table, claim: ClaimAt, turn: Turn, t: Table) {
    && Earliest(before, claim.at, {}, claim.id) && claim.row == Claimed(before[claim.id], claim.at, c.lease)
    && t == before[claim.id := Outcome(claim.row, turn.wx, claim.at)]
  }

  /** Each claim follows from the table it finds, after the dispatch before it has ended. */
  predicate History(c: Config, tables: seq<Table>, claims: seq<ClaimAt>, turns: seq<Turn>) {
    && |tables| == |claims| + 1 && |claims| <= |turns|
    && (forall k | 0 <= k < |claims| :: Follows(c, tables[k], claims[k], turns[k], tables[k + 1]))
    && (forall i, j | 0 <= i < j < |claims| :: EndOf(claims[i], turns[i]) <= claims[j].at)
  }

  /** The counters after the dispatches of these claims. */
  function CountedClaims(n: Counts, claims: seq<ClaimAt>, turns: seq<Turn>): Counts
    requires |claims| <= |turns|
    decreases |claims|
  {
    if claims == [] then n
    else CountedDispatch(CountedClaims(n, ButLast(claims), turns), Last(claims).row, turns[|claims| - 1].wx)
  }

  lemma CountedNext(n: Counts, claims: seq<ClaimAt>, turns: seq<Turn>, claim: ClaimAt)
    requires |claims| < |turns|
    ensures CountedClaims(n, claims + [claim], turns)
         == CountedDispatch(CountedClaims(n, claims, turns), claim.row, turns[|claims|].wx)
  {
    assert ButLast(claims + [claim]) == claims;
  }

  lemma HistoryGrows(c: Config, tables: seq<Table>, claims: seq<ClaimAt>, turns: seq<Turn>, claim: ClaimAt, t: Table)
    requires History(c, tables, claims, turns) && |claims| < |turns|
    requires Follows(c, tables[|claims|], claim, turns[|claims|], t)
    requires forall i | 0 <= i < |claims| :: EndOf(claims[i], turns[i]) <= claim.at
    ensures History(c, tables + [t], claims + [claim], turns)
  {
    var tables', claims' := tables + [t], claims + [claim];
    forall k | 0 <= k < |claims'| ensures Follows(c, tables'[k], claims'[k], turns[k], tables'[k + 1]) {
      if k < |claims| { assert Follows(c, tables[k], claims[k], turns[k], tables[k + 1]); }
    }
  }

  /** Nobody claims the row from the i-th claim on, up to the j-th. */
  predicate Unclaimed(claims: seq<ClaimAt>, id: MessageId, i: nat, j: nat) {
    forall k | i <= k < j && k < |claims| :: claims[k].id != id
  }

  lemma {:induction false} UnclaimedIsUntouched(c: Config, tables: seq<Table>, claims: seq<ClaimAt>, turns: seq<Turn>,
                                                id: MessageId, i: nat, j: nat)
    requires History(c, tables, claims, turns) && i <= j <= |claims| && Unclaimed(claims, id, i, j)
    ensures id in tables[i] <==> id in tables[j]
    ensures id in tables[i] ==> tables[i][id] == tables[j][id]
    decreases j - i
  {
    if i < j {
      UnclaimedIsUntouched(c, tables, claims, turns, id, i, j - 1);
      assert Follows(c, tables[j - 1], claims[j - 1], turns[j - 1], tables[j]);
    }
  }

  /** The last claim of the row before the j-th. */
  lemma {:induction false} LastClaimBefore(claims: seq<ClaimAt>, id: MessageId, i: nat, j: nat) returns (k: nat)
    requires i < j <= |claims| && claims[i].id == id
    ensures i <= k < j && claims[k].id == id && Unclaimed(claims, id, k + 1, j)
    decreases j
  {
    if claims[j - 1].id == id {
      k := j - 1;
    } else {
      k := LastClaimBefore(claims, id, i, j - 1);
    }
  }

  /** A claim of a row that was not claimed since the k-th claim took it. */
  lemma NextClaimOfRow(c: Config, tables: seq<Table>, claims: seq<ClaimAt>, turns: seq<Turn>, k: nat, j: nat)
    requires History(c, tables, claims, turns) && k < j < |claims| && claims[k].id == claims[j].id
    requires Unclaimed(claims, claims[j].id, k + 1, j)
    ensures claims[k].at + c.lease < claims[j].at
  {
    var id := claims[j].id;
    UnclaimedIsUntouched(c, tables, claims, turns, id, k + 1, j);
    assert Follows(c, tables[k], claims[k], turns[k], tables[k + 1]);
    assert Follows(c, tables[j], claims[j], turns[j], tables[j + 1]);
    ReclaimNeedsLease(c, tables[k][id], turns[k].wx, claims[k].at, claims[j].at);
  }

  /** However long it runs and however its dispatches end, a draining worker claims a row again
      only more than a lease after it claimed it last. */
  lemma ReclaimsAreALeaseApart(c: Config, tables: seq<Table>, claims: seq<ClaimAt>, turns: seq<Turn>, i: nat, j: nat)
    requires History(c, tables, claims, turns) && i < j < |claims| && claims[i].id == claims[j].id
    ensures claims[i].at + c.lease < claims[j].at
  {
    var k := LastClaimBefore(claims, claims[j].id, i, j);
    NextClaimOfRow(c, tables, claims, turns, k, j);
    assert i < k ==> claims[i].at <= EndOf(claims[i], turns[i]) <= claims[k].at;
  }

  /** Claims that fall within one lease take distinct rows, so there are no more of them than rows:
      such a loop ends by itself. */
  lemma DrainClaimsOncePerLease(c: Config, tables: seq<Table>, claims: seq<ClaimAt>, turns: seq<Turn>)
    requires History(c, tables, claims, turns)
    requires forall i, j | 0 <= i < j < |claims| :: claims[j].at <= claims[i].at + c.lease
    ensures forall i, j | 0 <= i < j < |claims| :: claims[i].id != claims[j].id
    ensures |claims| <= |tables[0]|
  {
    forall i, j | 0 <= i < j < |claims| ensures claims[i].id != claims[j].id {
      if claims[i].id == claims[j].id {
        ReclaimsAreALeaseApart(c, tables, claims, turns, i, j);
      }
    }
    forall k | 0 <= k < |claims| ensures claims[k].id in tables[0] {
      assert Follows(c, tables[k], claims[k], turns[k], tables[k + 1]);
      UnclaimedIsUntouched(c, tables, claims, turns, claims[k].id, 0, k);
    }
    DistinctFitIn(claims, tables[0].Keys);
  }

  lemma {:induction false} DistinctFitIn(claims: seq<ClaimAt>, ids: set<MessageId>)
    requires forall k | 0 <= k < |claims| :: claims[k].id in ids
    requires forall i, j | 0 <= i < j < |claims| :: claims[i].id != claims[j].id
    ensures |claims| <= |ids|
    decreases |claims|
  {
    if claims != [] {
      var n := |claims| - 1;
      DistinctFitIn(claims[..n], ids - {claims[n].id});
    }
  }

  /** When the loop ends because nothing is eligible, every row that was eligible at some time up to
      the end, and is not past its deadline then, was claimed. */
  lemma EligibleRowsAreClaimed(c: Config, tables: seq<Table>, claims: seq<ClaimAt>, turns: seq<Turn>, end: int,
                               id: MessageId, at: int) returns (k: nat)
    requires History(c, tables, claims, turns)
    requires forall o | o in tables[|claims|] :: !Eligible(tables[|claims|][o], end)
    requires id in tables[0] && Eligible(tables[0][id], at) && at <= end && !Overdue(tables[0][id], end)
    ensures k < |claims| && claims[k].id == id
  {
    if Unclaimed(claims, id, 0, |claims|) {
      UnclaimedIsUntouched(c, tables, claims, turns, id, 0, |claims|);
      assert false;
    }
    k :| 0 <= k < |claims| && claims[k].id == id;
  }

  predicate ClaimedOnce(claims: seq<ClaimAt>, id: MessageId) {
    exists k :: 0 <= k < |claims| && claims[k].id == id && forall j | 0 <= j < |claims| && j != k :: claims[j].id != id
  }

  /** A drain that makes all its claims within a lease and has more turns than there are rows ends by
      itself with nothing eligible, having claimed every row of the first table that is eligible in it
      at some time up to the end, and not past its deadline then, exactly once. */
  lemma DrainClaimsEachRowOnce(c: Config, tables: seq<Table>, claims: seq<ClaimAt>, turns: seq<Turn>, end: int)
    requires History(c, tables, claims, turns) && |tables[0]| < |turns|
    requires forall i, j | 0 <= i < j < |claims| :: claims[j].at <= claims[i].at + c.lease
    requires |claims| == |turns| || forall o | o in tables[|claims|] :: !Eligible(tables[|claims|][o], end)
    ensures |claims| < |turns| && forall o | o in tables[|claims|] :: !Eligible(tables[|claims|][o], end)
    ensures forall id, at | id in tables[0] && Eligible(tables[0][id], at) && at <= end
                            && !Overdue(tables[0][id], end) :: ClaimedOnce(claims, id)
  {
    DrainClaimsOncePerLease(c, tables, claims, turns);
    forall id, at | id in tables[0] && Eligible(tables[0][id], at) && at <= end && !Overdue(tables[0][id], end)
      ensures ClaimedOnce(claims, id)
    {
      var k := EligibleRowsAreClaimed(c, tables, claims, turns, end, id, at);
      assert claims[k].id == id && forall j | 0 <= j < |claims| && j != k :: claims[j].id != id;
    }
  }

  /** Rows are first claimed in the order of their schedule, also those that fall due while the
      loop runs. */
  lemma DrainFollowsSchedule(c: Config, tables: seq<Table>, claims: seq<ClaimAt>, turns: seq<Turn>, i: nat, j: nat)
    requires History(c, tables, claims, turns) && i < j < |claims|
    requires Unclaimed(claims, claims[i].id, 0, i) && Unclaimed(claims, claims[j].id, 0, j)
    ensures claims[i].id in tables[0] && claims[j].id in tables[0]
    ensures tables[0][claims[i].id].nextAttemptAt <= tables[0][claims[j].id].nextAttemptAt
  {
    UnclaimedIsUntouched(c, tables, claims, turns, claims[i].id, 0, i);
    UnclaimedIsUntouched(c, tables, claims, turns, claims[j].id, 0, i);
    UnclaimedIsUntouched(c, tables, claims, turns, claims[j].id, 0, j);
    assert Follows(c, tables[i], claims[i], turns[i], tables[i + 1]);
    assert Follows(c, tables[j], claims[j], turns[j], tables[j + 1]);
    assert claims[i].at <= EndOf(claims[i], turns[i]) <= claims[j].at;
  }
}
