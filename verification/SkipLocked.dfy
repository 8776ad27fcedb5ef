/** ClaimPending as it runs: the transaction fixes its time, then locks one eligible row with
    FOR UPDATE SKIP LOCKED, then updates it and commits. Interleaved with other claims and
    other writers it refines claims that run one after another in commit order. */
module SkipLocked {
  import opened Domain
  import opened Messages
  import opened Outbox

  type TxnId = nat

  /** `at` is now() of the transaction: the time it began, however long it then takes. */
  datatype Txn = Started(at: int) | Holding(at: int, id: MessageId)

  /** What committed: a claim, or some other statement that left a row as `row`. */
  datatype Commit = ClaimCommit(at: int, id: MessageId) | WriteCommit(id: MessageId, row: Message)

  datatype Db = Db(now: int, table: Table, txns: map<TxnId, Txn>, commits: seq<Commit>)

  datatype DbStep =
    | Begin(x: TxnId)
    | LockSelect(x: TxnId, id: MessageId)
    | UpdateAndCommit(x: TxnId)
    | Rollback(x: TxnId)  // also a claim that found no row
    | OtherWrite(id: MessageId, row: Message)
    | Pass(to: int)

  function LockedRows(db: Db): set<MessageId> {
    set x | x in db.txns && db.txns[x].Holding? :: db.txns[x].id
  }

  predicate DbEnabled(db: Db, step: DbStep) {
    match step
    case Begin(x) => x !in db.txns
    // The condition is re-evaluated on the locked row; the order is that of the snapshot, so
    // the row need not be the earliest any more. Locked rows are skipped.
    case LockSelect(x, id) =>
      && x in db.txns && db.txns[x].Started?
      && id in db.table && id !in LockedRows(db) && Eligible(db.table[id], db.txns[x].at)
    case UpdateAndCommit(x) => x in db.txns && db.txns[x].Holding? && db.txns[x].id in db.table
    case Rollback(x) => x in db.txns
    case OtherWrite(id, row) => id !in LockedRows(db)  // an UPDATE waits for the row lock
    case Pass(to) => db.now <= to
  }

  function DbNext(lease: nat, db: Db, step: DbStep): Db
    requires DbEnabled(db, step)
  {
    match step
    case Begin(x) => db.(txns := db.txns[x := Started(db.now)])
    case LockSelect(x, id) => db.(txns := db.txns[x := Holding(db.txns[x].at, id)])
    case UpdateAndCommit(x) =>
      var Holding(at, id) := db.txns[x];
      db.(table := db.table[id := Claimed(db.table[id], at, lease)],
          txns := db.txns - {x},
          commits := db.commits + [ClaimCommit(at, id)])
    case Rollback(x) => db.(txns := db.txns - {x})
    case OtherWrite(id, row) =>
      db.(table := db.table[id := row], commits := db.commits + [WriteCommit(id, row)])
    case Pass(to) => db.(now := to)
  }

  function DbRun(lease: nat, db: Db, steps: seq<DbStep>): Option<Db>
    decreases |steps|
  {
    if steps == [] then Some(db)
    else match DbRun(lease, db, ButLast(steps))
      case None => None
      case Some(mid) => if DbEnabled(mid, Last(steps)) then Some(DbNext(lease, mid, Last(steps))) else None
  }

  /** The atomic protocol: the commits one at a time, every claim taking a row that is eligible
      in the table it finds. */
  function Replay(lease: nat, t: Table, commits: seq<Commit>): Option<Table>
    decreases |commits|
  {
    if commits == [] then Some(t)
    else match Replay(lease, t, ButLast(commits))
      case None => None
      case Some(mid) =>
        match Last(commits)
        case ClaimCommit(at, id) =>
          if id in mid && Eligible(mid[id], at) then Some(mid[id := Claimed(mid[id], at, lease)]) else None
        case WriteCommit(id, row) => Some(mid[id := row])
  }

  predicate Locking(db: Db) {
    && (forall x | x in db.txns && db.txns[x].Holding? ::
          db.txns[x].id in db.table && Eligible(db.table[db.txns[x].id], db.txns[x].at))
    && (forall x, y | x in db.txns && y in db.txns && x != y && db.txns[x].Holding? && db.txns[y].Holding? ::
          db.txns[x].id != db.txns[y].id)
  }

  lemma DbStepKeepsLocking(lease: nat, db: Db, step: DbStep)
    requires Locking(db) && DbEnabled(db, step)
    ensures Locking(DbNext(lease, db, step))
  {
    forall x | x in db.txns && db.txns[x].Holding? ensures db.txns[x].id in LockedRows(db) {}
  }

  /** The row a transaction locked is still eligible when it commits, so every interleaving
      leaves the table that the atomic claims leave in commit order. */
  lemma {:induction false} InterleavingRefinesAtomicClaims(lease: nat, db: Db, steps: seq<DbStep>)
    requires db.txns == map[] && db.commits == [] && DbRun(lease, db, steps).Some?
    ensures var db' := DbRun(lease, db, steps).value;
      Locking(db') && Replay(lease, db.table, db'.commits) == Some(db'.table)
    decreases |steps|
  {
    if steps != [] {
      InterleavingRefinesAtomicClaims(lease, db, ButLast(steps));
      var mid, step := DbRun(lease, db, ButLast(steps)).value, Last(steps);
      DbStepKeepsLocking(lease, mid, step);
      var end := DbNext(lease, mid, step);
      if end.commits != mid.commits {
        assert ButLast(end.commits) == mid.commits;
      }
    }
  }

  /** No other statement wrote the row strictly between the two positions. */
  predicate Undisturbed(commits: seq<Commit>, id: MessageId, i: nat, j: nat) {
    forall k | i < k < j && k < |commits| :: !(commits[k].WriteCommit? && commits[k].id == id)
  }

  lemma {:induction false} ClaimHolds(lease: nat, t: Table, commits: seq<Commit>, i: nat)
    requires i < |commits| && commits[i].ClaimCommit? && Replay(lease, t, commits).Some?
    requires Undisturbed(commits, commits[i].id, i, |commits|)
    ensures var row := Replay(lease, t, commits).value;
      commits[i].id in row && row[commits[i].id].status.Sending?
      && row[commits[i].id].nextAttemptAt >= commits[i].at + lease
    decreases |commits|
  {
    if i < |commits| - 1 {
      assert ButLast(commits)[i] == commits[i];
      ClaimHolds(lease, t, ButLast(commits), i);
    }
  }

  lemma {:induction false} ReplayPrefix(lease: nat, t: Table, commits: seq<Commit>, n: nat)
    requires n <= |commits| && Replay(lease, t, commits).Some?
    ensures Replay(lease, t, commits[..n]).Some?
    decreases |commits| - n
  {
    if n < |commits| {
      ReplayPrefix(lease, t, commits, n + 1);
      assert ButLast(commits[..n + 1]) == commits[..n];
    } else {
      assert commits[..n] == commits;
    }
  }

  /** Two claims of one row with no other write of it in between are more than a lease apart. */
  lemma SameRowClaimsAreALeaseApart(lease: nat, t: Table, commits: seq<Commit>, i: nat, j: nat)
    requires i < j < |commits| && Replay(lease, t, commits).Some?
    requires commits[i].ClaimCommit? && commits[j].ClaimCommit? && commits[i].id == commits[j].id
    requires Undisturbed(commits, commits[i].id, i, j)
    ensures commits[i].at + lease < commits[j].at
  {
    ReplayPrefix(lease, t, commits, j + 1);
    assert ButLast(commits[..j + 1]) == commits[..j];
    assert commits[..j][i] == commits[i];
    ClaimHolds(lease, t, commits[..j], i);
  }

  /** Claims of two concurrent transactions that began within one lease of each other return
      distinct rows, unless another statement wrote the row in between. */
  lemma ConcurrentClaimsAreDistinct(lease: nat, db: Db, steps: seq<DbStep>)
    requires db.txns == map[] && db.commits == [] && DbRun(lease, db, steps).Some?
    ensures var commits := DbRun(lease, db, steps).value.commits;
      forall i, j | 0 <= i < j < |commits| && commits[i].ClaimCommit? && commits[j].ClaimCommit? ::
        commits[j].at <= commits[i].at + lease && Undisturbed(commits, commits[i].id, i, j) ==>
        commits[i].id != commits[j].id
  {
    InterleavingRefinesAtomicClaims(lease, db, steps);
    var commits := DbRun(lease, db, steps).value.commits;
    forall i, j | 0 <= i < j < |commits| && commits[i].ClaimCommit? && commits[j].ClaimCommit?
                  && Undisturbed(commits, commits[i].id, i, j) && commits[i].id == commits[j].id
      ensures commits[i].at + lease < commits[j].at
    {
      SameRowClaimsAreALeaseApart(lease, db.table, commits, i, j);
    }
  }

  /** A transaction keeps the row it locked until it commits or rolls back, and nobody else changes the
      row meanwhile. */
  lemma {:induction false} LockIsHeld(lease: nat, db: Db, steps: seq<DbStep>, x: TxnId)
    requires Locking(db) && x in db.txns && db.txns[x].Holding? && DbRun(lease, db, steps).Some?
    requires UpdateAndCommit(x) !in steps && Rollback(x) !in steps
    ensures var db', id := DbRun(lease, db, steps).value, db.txns[x].id;
      && Locking(db') && x in db'.txns && db'.txns[x] == db.txns[x]
      && id in db'.table && db'.table[id] == db.table[id]
    decreases |steps|
  {
    if steps != [] {
      assert Last(steps) in steps && forall y | y in ButLast(steps) :: y in steps;
      LockIsHeld(lease, db, ButLast(steps), x);
      LockHeldStep(lease, DbRun(lease, db, ButLast(steps)).value, Last(steps), x);
    }
  }

  lemma LockHeldStep(lease: nat, db: Db, step: DbStep, x: TxnId)
    requires Locking(db) && x in db.txns && db.txns[x].Holding? && DbEnabled(db, step)
    requires step != UpdateAndCommit(x) && step != Rollback(x)
    ensures var db', id := DbNext(lease, db, step), db.txns[x].id;
      && Locking(db') && x in db'.txns && db'.txns[x] == db.txns[x]
      && id in db'.table && db'.table[id] == db.table[id]
  {
    assert db.txns[x].id in LockedRows(db);
    DbStepKeepsLocking(lease, db, step);
  }

  // ----- Transactions do interleave

  lemma DbExtend(lease: nat, start: Db, steps: seq<DbStep>, mid: Db, step: DbStep)
    returns (longer: seq<DbStep>, next: Db)
    requires DbRun(lease, start, steps) == Some(mid) && DbEnabled(mid, step)
    ensures longer == steps + [step] && next == DbNext(lease, mid, step)
    ensures DbRun(lease, start, longer) == Some(next)
  {
    longer, next := steps + [step], DbNext(lease, mid, step);
    assert ButLast(longer) == steps;
  }

  /** Transactions roll back without a trace: from every state a run leads to the same table and commits
      with none under way. */
  lemma {:induction false} AllCanRollBack(lease: nat, start: Db, steps: seq<DbStep>, db: Db)
    returns (longer: seq<DbStep>, db': Db)
    requires DbRun(lease, start, steps) == Some(db)
    ensures DbRun(lease, start, longer) == Some(db') && db' == db.(txns := map[])
    decreases |db.txns|
  {
    longer, db' := steps, db;
    if db.txns != map[] {
      var x :| x in db.txns;
      var more, next := DbExtend(lease, start, steps, db, Rollback(x));
      assert next.txns.Keys == db.txns.Keys - {x};
      longer, db' := AllCanRollBack(lease, start, more, next);
    }
  }

  /** A claim can lock after its time and commit later still, and a second one that began before the
      first committed takes the other row. */
  lemma ClaimsOverlap(lease: nat) returns (steps: seq<DbStep>, db: Db)
    ensures var row := Inserted(1, None, 0); var start := Db(0, map[0 := row, 1 := row], map[], []);
      DbRun(lease, start, steps) == Some(db)
    ensures db.now == 2 && db.commits == [ClaimCommit(1, 1), ClaimCommit(0, 0)]
  {
    var row := Inserted(1, None, 0);
    var start := Db(0, map[0 := row, 1 := row], map[], []);
    assert DbRun(lease, start, []) == Some(start);
    steps, db := DbExtend(lease, start, [], start, Begin(0));
    steps, db := DbExtend(lease, start, steps, db, Pass(1));
    steps, db := DbExtend(lease, start, steps, db, LockSelect(0, 0));
    steps, db := DbExtend(lease, start, steps, db, Begin(1));
    assert 1 !in LockedRows(db);
    steps, db := DbExtend(lease, start, steps, db, LockSelect(1, 1));
    steps, db := DbExtend(lease, start, steps, db, UpdateAndCommit(1));
    steps, db := DbExtend(lease, start, steps, db, Pass(2));
    steps, db := DbExtend(lease, start, steps, db, UpdateAndCommit(0));
  }
}
