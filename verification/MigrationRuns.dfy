/** Replicas that share one file list and one database run the migrations at the same time. */
module MigrationRuns {
  import opened Domain
  import opened Migrations

  type ReplicaId = nat

  /** Where a replica stands in runMigrations. `Finished(ok)` is what it returned. */
  datatype Replica =
    | Waiting
    | Locked
    | Applying(pending: seq<File>)
    | Unlocking(ok: bool)
    | Finished(ok: bool)
    | Skipped
    | Dead

  /** The advisory lock belongs to a session, and everything a replica does runs on that session.
      `recorded` are the versions in schema_migrations, in the order of their commits; `effects` are
      the bodies that took effect, in order; `cut` are the replicas whose session is gone. */
  datatype State = State(
    holder: Option<ReplicaId>, recorded: seq<Bytes>, effects: seq<Bytes>, replicas: map<ReplicaId, Replica>,
    cut: set<ReplicaId>)

  /** A transaction commits and says so, commits and the answer is lost, or rolls back. */
  datatype TxOutcome = Committed | CommittedUnheard | RolledBack

  datatype Step =
    | Start(r: ReplicaId, autoRun: bool)
    | Acquire(r: ReplicaId)
    | List(r: ReplicaId, ok: bool)
    | Apply(r: ReplicaId, outcome: TxOutcome)
    | EndApply(r: ReplicaId)
    | Unlock(r: ReplicaId, ok: bool)
    | LoseSession(r: ReplicaId)
    | Crash(r: ReplicaId)

  function VersionOfFile(f: File): Bytes
    requires VersionOf(f.name).Some?
  {
    VersionOf(f.name).value
  }

  function Versions(files: seq<File>): seq<Bytes>
    requires forall i | 0 <= i < |files| :: VersionOf(files[i].name).Some?
  {
    seq(|files|, i requires 0 <= i < |files| => VersionOfFile(files[i]))
  }

  function Bodies(files: seq<File>): seq<Bytes> {
    seq(|files|, i requires 0 <= i < |files| => files[i].body)
  }

  /** What every embedded list satisfies once the runner has listed it, and that no two files
      share a version. */
  predicate Versioned(files: seq<File>) {
    && (forall i | 0 <= i < |files| :: VersionOf(files[i].name).Some?)
    && (forall i, j | 0 <= i < j < |files| :: VersionOf(files[i].name) != VersionOf(files[j].name))
  }

  function SetOf(xs: seq<Bytes>): set<Bytes> {
    set x | x in xs
  }

  /** Without its session a replica's statements fail. */
  predicate Enabled(s: State, step: Step) {
    match step
    case Start(r, autoRun) => r !in s.replicas
    case Acquire(r) => r in s.replicas && s.replicas[r].Waiting? && (r in s.cut || s.holder.None?)
    case List(r, ok) => r in s.replicas && s.replicas[r].Locked? && (r in s.cut ==> !ok)
    case Apply(r, outcome) =>
      && r in s.replicas && s.replicas[r].Applying? && s.replicas[r].pending != []
      && VersionOf(s.replicas[r].pending[0].name).Some?
      // The primary key refuses a version that is already recorded.
      && (VersionOfFile(s.replicas[r].pending[0]) in s.recorded ==> outcome.RolledBack?)
      && (r in s.cut ==> outcome.RolledBack?)
    case EndApply(r) => r in s.replicas && s.replicas[r].Applying? && s.replicas[r].pending == []
    case Unlock(r, ok) => r in s.replicas && s.replicas[r].Unlocking? && (r in s.cut ==> !ok)
    case LoseSession(r) => r in s.replicas
    case Crash(r) => r in s.replicas
  }

  function Next(files: seq<File>, s: State, step: Step): State
    requires Enabled(s, step)
  {
    match step
    case Start(r, autoRun) => s.(replicas := s.replicas[r := if autoRun then Waiting else Skipped])
    case Acquire(r) =>
      if r in s.cut then s.(replicas := s.replicas[r := Finished(false)])
      else s.(holder := Some(r), replicas := s.replicas[r := Locked])
    case List(r, ok) =>
      s.(replicas := s.replicas[r := if ok then Applying(PendingFiles(SetOf(s.recorded), files)) else Unlocking(false)])
    case Apply(r, outcome) =>
      var pending := s.replicas[r].pending;
      var s' := if outcome.RolledBack? then s
                else s.(recorded := s.recorded + [VersionOfFile(pending[0])], effects := s.effects + [pending[0].body]);
      s'.(replicas := s.replicas[r := if outcome.Committed? then Applying(pending[1..]) else Unlocking(false)])
    case EndApply(r) => s.(replicas := s.replicas[r := Unlocking(true)])
    case Unlock(r, ok) =>
      // A failed unlock leaves the lock with the pooled session.
      s.(holder := if ok then None else s.holder, replicas := s.replicas[r := Finished(s.replicas[r].ok)])
    case LoseSession(r) =>
      // The database frees the lock at once; the replica finds out at its next statement.
      s.(holder := if s.holder == Some(r) then None else s.holder, cut := s.cut + {r})
    case Crash(r) =>
      s.(holder := if s.holder == Some(r) then None else s.holder, replicas := s.replicas[r := Dead])
  }

  function Run(files: seq<File>, s: State, steps: seq<Step>): Option<State>
    decreases |steps|
  {
    if steps == [] then Some(s)
    else match Run(files, s, steps[..|steps| - 1])
      case None => None
      case Some(mid) =>
        var last := steps[|steps| - 1];
        if Enabled(mid, last) then Some(Next(files, mid, last)) else None
  }

  /** No replica yet, and the first n files applied. */
  function Boot(files: seq<File>, n: nat): State
    requires Versioned(files) && n <= |files|
  {
    State(None, Versions(files[..n]), [], map[], {})
  }

  // ----- Only the lock holder is at work, on exactly what is left

  predicate AtWork(p: Replica) {
    p.Locked? || p.Applying? || p.Unlocking?
  }

  predicate ReplicaInv(files: seq<File>, s: State, r: ReplicaId)
    requires r in s.replicas
  {
    var p := s.replicas[r];
    && (AtWork(p) && r !in s.cut ==> s.holder == Some(r))
    && (p.Applying? && r !in s.cut ==> |s.recorded| <= |files| && p.pending == files[|s.recorded|..])
    && (p.Applying? && p.pending == [] ==> |s.recorded| == |files|)
    && (p.Unlocking? && p.ok ==> |s.recorded| == |files|)
    && (p.Finished? && p.ok ==> |s.recorded| == |files|)
  }

  /** From n applied files on: the recorded versions are those of an initial segment, and the
      bodies that took effect are those of the files in between, once each and in order. */
  predicate Progress(files: seq<File>, n: nat, s: State)
    requires Versioned(files)
  {
    && n <= |s.recorded| <= |files|
    && s.recorded == Versions(files[..|s.recorded|])
    && s.effects == Bodies(files[n..|s.recorded|])
  }

  predicate Inv(files: seq<File>, n: nat, s: State)
    requires Versioned(files)
  {
    && Progress(files, n, s)
    && (forall r | r in s.replicas :: ReplicaInv(files, s, r))
  }

  lemma RecordedExactly(files: seq<File>, k: nat, i: nat)
    requires Versioned(files) && k <= |files| && i < |files|
    ensures Applied(SetOf(Versions(files[..k])), files[i]) <==> i < k
  {
    var recorded := Versions(files[..k]);
    if i < k {
      assert recorded[i] == VersionOfFile(files[i]);
    } else {
      forall j | 0 <= j < k ensures recorded[j] != VersionOfFile(files[i]) {}
    }
  }

  lemma {:induction false} FilterNone<T>(keep: T -> bool, xs: seq<T>)
    requires forall i | 0 <= i < |xs| :: !keep(xs[i])
    ensures Filter(keep, xs) == []
    decreases |xs|
  {
    if xs != [] {
      FilterNone(keep, xs[..|xs| - 1]);
    }
  }

  lemma {:induction false} FilterAfter<T>(keep: T -> bool, a: seq<T>, b: seq<T>)
    requires forall i | 0 <= i < |b| :: keep(b[i])
    ensures Filter(keep, a + b) == Filter(keep, a) + b
    decreases |b|
  {
    if b == [] {
      assert a + b == a;
    } else {
      var c, x := b[..|b| - 1], b[|b| - 1];
      FilterAfter(keep, a, c);
      assert (a + b)[..|a + b| - 1] == a + c;
      assert b == c + [x];
      assert Filter(keep, a) + b == (Filter(keep, a) + c) + [x];
    }
  }

  /** With the first k versions recorded, the files after them are pending. */
  lemma PendingIsTheRest(files: seq<File>, k: nat)
    requires Versioned(files) && k <= |files|
    ensures PendingFiles(SetOf(Versions(files[..k])), files) == files[k..]
  {
    var applied := SetOf(Versions(files[..k]));
    var keep := (f: File) => !Applied(applied, f);
    forall i | 0 <= i < |files| ensures keep(files[i]) <==> k <= i {
      RecordedExactly(files, k, i);
    }
    FilterNone(keep, files[..k]);
    FilterAfter(keep, files[..k], files[k..]);
    assert files[..k] + files[k..] == files;
  }

  lemma ProgressKept(files: seq<File>, n: nat, s: State, step: Step)
    requires Versioned(files) && Inv(files, n, s) && Enabled(s, step)
    ensures Progress(files, n, Next(files, s, step))
  {
    if step.Apply? && !step.outcome.RolledBack? {
      assert ReplicaInv(files, s, step.r);
      var k := |s.recorded|;
      assert s.replicas[step.r].pending[0] == files[k];
      assert Versions(files[..k + 1]) == Versions(files[..k]) + [VersionOfFile(files[k])];
      assert Bodies(files[n..k + 1]) == Bodies(files[n..k]) + [files[k].body];
    }
  }

  lemma ReplicaKept(files: seq<File>, n: nat, s: State, step: Step, r: ReplicaId)
    requires Versioned(files) && Inv(files, n, s) && Enabled(s, step) && r in Next(files, s, step).replicas
    ensures ReplicaInv(files, Next(files, s, step), r)
  {
    if r in s.replicas {
      assert ReplicaInv(files, s, r);
    }
    if step.r in s.replicas {
      assert ReplicaInv(files, s, step.r);
    }
    if step.List? && step.r == r && step.ok {
      PendingIsTheRest(files, |s.recorded|);
    }
  }

  lemma {:induction false} RunKeepsInv(files: seq<File>, n: nat, s: State, steps: seq<Step>)
    requires Versioned(files) && Inv(files, n, s) && Run(files, s, steps).Some?
    ensures Inv(files, n, Run(files, s, steps).value)
    decreases |steps|
  {
    if steps != [] {
      RunKeepsInv(files, n, s, steps[..|steps| - 1]);
      var mid, step := Run(files, s, steps[..|steps| - 1]).value, steps[|steps| - 1];
      ProgressKept(files, n, mid, step);
      forall r | r in Next(files, mid, step).replicas ensures ReplicaInv(files, Next(files, mid, step), r) {
        ReplicaKept(files, n, mid, step, r);
      }
    }
  }

  /** Starting from the first n files applied, with any number of replicas, any interleaving,
      crashes, lost sessions, lost answers and failed unlocks at any point: the recorded versions
      are always those of an initial segment, every further body took effect exactly once and in
      order, at most one replica with a session is at work, and a replica that returned without
      error under auto-run has seen all of them applied. */
  lemma MigrationsRunOnceInOrder(files: seq<File>, n: nat, steps: seq<Step>)
    requires Versioned(files) && n <= |files| && Run(files, Boot(files, n), steps).Some?
    ensures var s := Run(files, Boot(files, n), steps).value;
      && Progress(files, n, s)
      && (forall q, r | q in s.replicas && r in s.replicas && q !in s.cut && r !in s.cut ::
            AtWork(s.replicas[q]) && AtWork(s.replicas[r]) ==> q == r)
      && (forall r | r in s.replicas && s.replicas[r] == Finished(true) ::
            s.recorded == Versions(files) && s.effects == Bodies(files[n..]))
  {
    assert Bodies(files[n..n]) == [];
    RunKeepsInv(files, n, Boot(files, n), steps);
    var s := Run(files, Boot(files, n), steps).value;
    assert forall r | r in s.replicas :: ReplicaInv(files, s, r);
    assert files[..|files|] == files && files[n..|files|] == files[n..];
  }

  /** The primary key on the version is never what stops a migration: under the lock the next
      pending version is never recorded yet. */
  lemma NextVersionIsNew(files: seq<File>, n: nat, steps: seq<Step>, r: ReplicaId)
    requires Versioned(files) && n <= |files| && Run(files, Boot(files, n), steps).Some?
    requires var s := Run(files, Boot(files, n), steps).value;
      r in s.replicas && r !in s.cut && s.replicas[r].Applying? && s.replicas[r].pending != []
    ensures Enabled(Run(files, Boot(files, n), steps).value, Apply(r, Committed))
  {
    assert Bodies(files[n..n]) == [];
    RunKeepsInv(files, n, Boot(files, n), steps);
    var s := Run(files, Boot(files, n), steps).value;
    assert ReplicaInv(files, s, r);
    assert s.replicas[r].pending[0] == files[|s.recorded|];
  }

  // ----- Distinct versions are what makes the promise true

  predicate AllVersioned(files: seq<File>) {
    forall i | 0 <= i < |files| :: VersionOf(files[i].name).Some?
  }

  function Empty(): State {
    State(None, [], [], map[], {})
  }

  /** From an empty database, a replica that returns without error leaves every body applied. */
  ghost predicate NilMeansApplied(files: seq<File>) {
    forall steps, r | Run(files, Empty(), steps).Some?
                      && r in Run(files, Empty(), steps).value.replicas
                      && Run(files, Empty(), steps).value.replicas[r] == Finished(true) ::
      Run(files, Empty(), steps).value.effects == Bodies(files)
  }

  predicate NoDuplicates(xs: seq<Bytes>) {
    forall i, j | 0 <= i < j < |xs| :: xs[i] != xs[j]
  }

  /** One body per recorded version, no version recorded twice, nobody at work, and replica ids
      from k on unused. */
  predicate Resting(files: seq<File>, s: State, k: nat)
    requires AllVersioned(files)
  {
    && s.holder.None? && |s.effects| == |s.recorded| && NoDuplicates(s.recorded)
    && SetOf(s.recorded) <= SetOf(Versions(files))
    && (forall r | r in s.replicas :: r < k) && s.cut == {}
  }

  lemma Extend(files: seq<File>, start: State, steps: seq<Step>, mid: State, step: Step)
    returns (longer: seq<Step>, next: State)
    requires Run(files, start, steps) == Some(mid) && Enabled(mid, step)
    ensures longer == steps + [step] && next == Next(files, mid, step) && Run(files, start, longer) == Some(next)
  {
    longer, next := steps + [step], Next(files, mid, step);
    assert longer[..|longer| - 1] == steps;
  }

  lemma {:induction false} FilterHead<T>(keep: T -> bool, xs: seq<T>)
    requires Filter(keep, xs) != []
    ensures Filter(keep, xs)[0] in xs && keep(Filter(keep, xs)[0])
    decreases |xs|
  {
    if Filter(keep, xs[..|xs| - 1]) != [] {
      FilterHead(keep, xs[..|xs| - 1]);
    }
  }

  /** A new replica takes the lock and lists what is pending. */
  lemma LockAndList(files: seq<File>, start: State, steps: seq<Step>, s: State, k: nat)
    returns (longer: seq<Step>, s': State)
    requires Run(files, start, steps) == Some(s) && s.holder.None? && k !in s.replicas && k !in s.cut
    ensures Run(files, start, longer) == Some(s')
    ensures s' == s.(holder := Some(k), replicas := s.replicas[k := Applying(PendingFiles(SetOf(s.recorded), files))])
  {
    longer, s' := Extend(files, start, steps, s, Start(k, true));
    longer, s' := Extend(files, start, longer, s', Acquire(k));
    longer, s' := Extend(files, start, longer, s', List(k, true));
  }

  lemma RestingNext(files: seq<File>, s: State, s': State, k: nat, i: nat)
    requires AllVersioned(files) && Resting(files, s, k) && i < |files| && VersionOfFile(files[i]) !in s.recorded
    requires s'.recorded == s.recorded + [VersionOfFile(files[i])] && |s'.effects| == |s.effects| + 1
    requires s'.holder.None? && s'.replicas.Keys == s.replicas.Keys + {k} && s'.cut == {}
    ensures Resting(files, s', k + 1) && SetOf(s.recorded) < SetOf(s'.recorded)
  {
    assert Versions(files)[i] == VersionOfFile(files[i]);
    assert SetOf(s'.recorded) == SetOf(s.recorded) + {VersionOfFile(files[i])};
  }

  /** A replica that lists, applies one pending file and dies. */
  lemma ApplyOneAndDie(files: seq<File>, steps: seq<Step>, s: State, k: nat) returns (longer: seq<Step>, s': State)
    requires AllVersioned(files) && Run(files, Empty(), steps) == Some(s) && Resting(files, s, k)
    requires PendingFiles(SetOf(s.recorded), files) != []
    ensures Run(files, Empty(), longer) == Some(s') && Resting(files, s', k + 1)
    ensures SetOf(s.recorded) < SetOf(s'.recorded)
  {
    FilterHead((f: File) => !Applied(SetOf(s.recorded), f), files);
    var f := PendingFiles(SetOf(s.recorded), files)[0];
    var i :| 0 <= i < |files| && files[i] == f;
    longer, s' := LockAndList(files, Empty(), steps, s, k);
    longer, s' := Extend(files, Empty(), longer, s', Apply(k, Committed));
    longer, s' := Extend(files, Empty(), longer, s', Crash(k));
    RestingNext(files, s, s', k, i);
  }

  lemma {:induction false} ApplyAllVersions(files: seq<File>, steps: seq<Step>, s: State, k: nat)
    returns (longer: seq<Step>, s': State, k': nat)
    requires AllVersioned(files) && Run(files, Empty(), steps) == Some(s) && Resting(files, s, k)
    ensures Run(files, Empty(), longer) == Some(s') && Resting(files, s', k')
    ensures PendingFiles(SetOf(s'.recorded), files) == []
    decreases SetOf(Versions(files)) - SetOf(s.recorded)
  {
    longer, s', k' := steps, s, k;
    if PendingFiles(SetOf(s.recorded), files) != [] {
      var mid, s1 := ApplyOneAndDie(files, steps, s, k);
      longer, s', k' := ApplyAllVersions(files, mid, s1, k + 1);
    }
  }

  lemma {:induction false} SetNoLargerThanSeq(xs: seq<Bytes>)
    ensures |SetOf(xs)| <= |xs|
    ensures !NoDuplicates(xs) ==> |SetOf(xs)| < |xs|
    ensures NoDuplicates(xs) ==> |SetOf(xs)| == |xs|
    decreases |xs|
  {
    if xs != [] {
      var n := |xs| - 1;
      SetNoLargerThanSeq(xs[..n]);
      assert xs == xs[..n] + [xs[n]];
      assert SetOf(xs) == SetOf(xs[..n]) + {xs[n]};
    }
  }

  lemma FewerVersionsThanFiles(files: seq<File>, recorded: seq<Bytes>)
    requires AllVersioned(files) && !Versioned(files)
    requires NoDuplicates(recorded) && SetOf(recorded) <= SetOf(Versions(files))
    ensures |recorded| < |files|
  {
    var i, j :| 0 <= i < j < |files| && VersionOf(files[i].name) == VersionOf(files[j].name);
    assert Versions(files)[i] == Versions(files)[j];
    SetNoLargerThanSeq(Versions(files));
    SetNoLargerThanSeq(recorded);
    SubsetIsNoLarger(SetOf(recorded), SetOf(Versions(files)));
  }

  lemma SubsetIsNoLarger(a: set<Bytes>, b: set<Bytes>)
    requires a <= b
    ensures |a| <= |b|
  {
    assert b == a + (b - a);
  }

  /** Of two files that share a version the second is never applied, yet later runs report
      success: the promise holds exactly for lists with distinct versions. */
  lemma NilMeansAppliedExactly(files: seq<File>)
    requires AllVersioned(files)
    ensures NilMeansApplied(files) <==> Versioned(files)
  {
    if Versioned(files) {
      assert Boot(files, 0) == Empty();
      forall steps, r | Run(files, Empty(), steps).Some?
                        && r in Run(files, Empty(), steps).value.replicas
                        && Run(files, Empty(), steps).value.replicas[r] == Finished(true)
        ensures Run(files, Empty(), steps).value.effects == Bodies(files)
      {
        MigrationsRunOnceInOrder(files, 0, steps);
        assert files[0..] == files;
      }
    } else {
      var steps, s, k := ApplyAllVersions(files, [], Empty(), 0);
      FewerVersionsThanFiles(files, s.recorded);
      steps, s := LockAndList(files, Empty(), steps, s, k);
      steps, s := Extend(files, Empty(), steps, s, EndApply(k));
      steps, s := Extend(files, Empty(), steps, s, Unlock(k, true));
      assert s.replicas[k] == Finished(true) && |s.effects| < |Bodies(files)|;
    }
  }

  // ----- Progress, and why a replica fails

  lemma StepKeepsInv(files: seq<File>, n: nat, s: State, step: Step)
    requires Versioned(files) && Inv(files, n, s) && Enabled(s, step)
    ensures Inv(files, n, Next(files, s, step))
  {
    ProgressKept(files, n, s, step);
    forall r | r in Next(files, s, step).replicas ensures ReplicaInv(files, Next(files, s, step), r) {
      ReplicaKept(files, n, s, step, r);
    }
  }

  /** A replica that applies, and keeps its session, can go on and commit every pending file, release
      the lock and return without error. */
  lemma {:induction false} ApplyingCanFinish(files: seq<File>, n: nat, start: State, steps: seq<Step>, s: State,
                                             r: ReplicaId)
    returns (longer: seq<Step>, s': State)
    requires Versioned(files) && Run(files, start, steps) == Some(s) && Inv(files, n, s)
    requires r in s.replicas && s.replicas[r].Applying? && r !in s.cut
    ensures Run(files, start, longer) == Some(s') && Inv(files, n, s')
    ensures r in s'.replicas && s'.replicas[r] == Finished(true) && s'.holder.None?
    decreases |s.replicas[r].pending|
  {
    assert ReplicaInv(files, s, r);
    if s.replicas[r].pending == [] {
      longer, s' := Extend(files, start, steps, s, EndApply(r));
      StepKeepsInv(files, n, s, EndApply(r));
      var mid := s';
      longer, s' := Extend(files, start, longer, s', Unlock(r, true));
      StepKeepsInv(files, n, mid, Unlock(r, true));
    } else {
      PendingIsNew(files, n, s, r);
      longer, s' := Extend(files, start, steps, s, Apply(r, Committed));
      StepKeepsInv(files, n, s, Apply(r, Committed));
      longer, s' := ApplyingCanFinish(files, n, start, longer, s', r);
    }
  }

  lemma PendingIsNew(files: seq<File>, n: nat, s: State, r: ReplicaId)
    requires Versioned(files) && Inv(files, n, s)
    requires r in s.replicas && s.replicas[r].Applying? && s.replicas[r].pending != [] && r !in s.cut
    ensures Enabled(s, Apply(r, Committed))
  {
    assert ReplicaInv(files, s, r);
    assert s.replicas[r].pending[0] == files[|s.recorded|];
  }

  /** Whenever the lock is free, whatever crashed or failed before, a new replica can bring the
      database up to date: it ends without error with every version recorded, and every body since
      the start applied. */
  lemma NewReplicaCanFinish(files: seq<File>, n: nat, s: State, r: ReplicaId) returns (steps: seq<Step>, s': State)
    requires Versioned(files) && Inv(files, n, s) && s.holder.None? && r !in s.replicas && r !in s.cut
    ensures Run(files, s, steps) == Some(s') && r in s'.replicas && s'.replicas[r] == Finished(true)
    ensures s'.recorded == Versions(files) && s'.effects == Bodies(files[n..])
  {
    assert Run(files, s, []) == Some(s);
    steps, s' := LockAndList(files, s, [], s, r);
    RunKeepsInv(files, n, s, steps);
    steps, s' := ApplyingCanFinish(files, n, s, steps, s', r);
    assert ReplicaInv(files, s', r);
    assert files[..|files|] == files && files[n..|files|] == files[n..];
  }

  /** A replica that dies or loses its session with the lock stops nobody: the lock is free at once, and
      a new replica can finish. */
  lemma LockOutlivesNobody(files: seq<File>, n: nat, s: State, loss: Step, next: State, r: ReplicaId)
    returns (steps: seq<Step>, s': State)
    requires Versioned(files) && Inv(files, n, s) && s.holder.Some? && s.holder.value in s.replicas
    requires loss in {Crash(s.holder.value), LoseSession(s.holder.value)} && next == Next(files, s, loss)
    requires r !in s.replicas && r !in s.cut
    ensures Run(files, next, steps) == Some(s') && r in s'.replicas && s'.replicas[r] == Finished(true)
    ensures s'.recorded == Versions(files) && s'.effects == Bodies(files[n..])
  {
    StepKeepsInv(files, n, s, loss);
    steps, s' := NewReplicaCanFinish(files, n, next, r);
  }

  // ----- Whatever the versions

  /** No version is recorded twice and one body took effect per recorded version, in every run and for
      every file list, versions that repeat included. */
  lemma {:induction false} VersionsRecordedOnce(files: seq<File>, steps: seq<Step>)
    requires Run(files, Empty(), steps).Some?
    ensures var s := Run(files, Empty(), steps).value; NoDuplicates(s.recorded) && |s.effects| == |s.recorded|
    decreases |steps|
  {
    if steps != [] {
      VersionsRecordedOnce(files, steps[..|steps| - 1]);
    }
  }

  /** Without its session a replica writes nothing: neither versions nor effects nor the lock change by
      what it does. */
  lemma CutOffWritesNothing(files: seq<File>, s: State, step: Step)
    requires step.r in s.cut && s.holder != Some(step.r) && Enabled(s, step)
    ensures var s' := Next(files, s, step);
      s'.recorded == s.recorded && s'.effects == s.effects && s'.holder == s.holder && step.r in s'.cut
  {}

  /** Nor does one that lost it before it had listed ever succeed. */
  lemma {:induction false} LostBeforeListing(files: seq<File>, s: State, steps: seq<Step>, r: ReplicaId)
    requires r in s.replicas && r in s.cut && Run(files, s, steps).Some?
    requires s.replicas[r].Waiting? || s.replicas[r].Locked?
    ensures var s' := Run(files, s, steps).value;
      && r in s'.replicas && r in s'.cut
      && s'.replicas[r] in {Waiting, Locked, Unlocking(false), Finished(false), Dead}
    decreases |steps|
  {
    if steps != [] {
      LostBeforeListing(files, s, steps[..|steps| - 1], r);
    }
  }

  /** What a replica without a session does next on its way out. */
  function WayOut(s: State, r: ReplicaId): Step
    requires r in s.replicas
  {
    match s.replicas[r]
    case Waiting => Acquire(r)
    case Locked => List(r, false)
    case Applying(pending) => if pending == [] then EndApply(r) else Apply(r, RolledBack)
    case Unlocking(_) => Unlock(r, false)
    case _ => Crash(r)
  }

  function StepsOut(p: Replica): nat {
    match p
    case Waiting => 4
    case Locked => 3
    case Applying(_) => 2
    case Unlocking(_) => 1
    case _ => 0
  }

  /** Losing its session does not hang a replica, whoever has the lock: it can return at once. */
  lemma {:induction false} CutOffCanReturn(files: seq<File>, start: State, steps: seq<Step>, s: State, r: ReplicaId)
    returns (longer: seq<Step>, s': State)
    requires AllVersioned(files) && Run(files, start, steps) == Some(s) && r in s.replicas && r in s.cut
    requires s.replicas[r].Applying? ==> forall i | 0 <= i < |s.replicas[r].pending| ::
      VersionOf(s.replicas[r].pending[i].name).Some?
    requires !s.replicas[r].Skipped? && !s.replicas[r].Dead?
    ensures Run(files, start, longer) == Some(s') && r in s'.replicas && s'.replicas[r].Finished?
    ensures s.replicas[r].Finished? ==> s' == s
    ensures s.replicas[r].Waiting? ==> s'.replicas[r] == Finished(false) && s'.holder == s.holder
    decreases StepsOut(s.replicas[r])
  {
    longer, s' := steps, s;
    if !s.replicas[r].Finished? {
      var more, next := Extend(files, start, steps, s, WayOut(s, r));
      longer, s' := CutOffCanReturn(files, start, more, next, r);
    }
  }

  /** Something went wrong for the replica: it could not list, a transaction was not known to commit,
      or it lost its session. */
  predicate WentWrong(steps: seq<Step>, r: ReplicaId) {
    || List(r, false) in steps || LoseSession(r) in steps
    || Apply(r, RolledBack) in steps || Apply(r, CommittedUnheard) in steps
  }

  predicate Failing(p: Replica) {
    p == Unlocking(false) || p == Finished(false)
  }

  predicate FailuresCaused(s: State, steps: seq<Step>) {
    && (forall r | r in s.replicas && Failing(s.replicas[r]) :: WentWrong(steps, r))
    && (forall r | r in s.cut :: LoseSession(r) in steps)
  }

  lemma WentWrongKept(steps: seq<Step>, r: ReplicaId)
    requires steps != [] && WentWrong(steps[..|steps| - 1], r)
    ensures WentWrong(steps, r)
  {
    assert forall step | step in steps[..|steps| - 1] :: step in steps;
  }

  lemma FailureCaused(files: seq<File>, s: State, step: Step, steps: seq<Step>, r: ReplicaId)
    requires steps != [] && steps[|steps| - 1] == step && FailuresCaused(s, steps[..|steps| - 1])
    requires Enabled(s, step) && r in Next(files, s, step).replicas && Failing(Next(files, s, step).replicas[r])
    ensures WentWrong(steps, r)
  {
    assert step in steps && forall x | x in steps[..|steps| - 1] :: x in steps;
    if r in s.replicas && Failing(s.replicas[r]) {
      WentWrongKept(steps, r);
    }
  }

  /** A replica returns an error only if something went wrong for it. */
  lemma {:induction false} FailuresHaveCauses(files: seq<File>, steps: seq<Step>)
    requires Run(files, Empty(), steps).Some?
    ensures FailuresCaused(Run(files, Empty(), steps).value, steps)
    decreases |steps|
  {
    if steps != [] {
      FailuresHaveCauses(files, steps[..|steps| - 1]);
      var mid, step := Run(files, Empty(), steps[..|steps| - 1]).value, steps[|steps| - 1];
      var end := Next(files, mid, step);
      assert step in steps && forall x | x in steps[..|steps| - 1] :: x in steps;
      forall r | r in end.replicas && Failing(end.replicas[r]) ensures WentWrong(steps, r) {
        FailureCaused(files, mid, step, steps, r);
      }
    }
  }

  /** With auto-run disabled a replica changes nothing, however long it lives. */
  lemma {:induction false} SkippedStaysOut(files: seq<File>, s: State, steps: seq<Step>, r: ReplicaId)
    requires r !in s.replicas && s.holder != Some(r)
    requires Run(files, Next(files, s, Start(r, false)), steps).Some?
    ensures var s' := Run(files, Next(files, s, Start(r, false)), steps).value;
      r in s'.replicas && (s'.replicas[r].Skipped? || s'.replicas[r].Dead?) && s'.holder != Some(r)
    decreases |steps|
  {
    if steps != [] {
      SkippedStaysOut(files, s, steps[..|steps| - 1], r);
    }
  }

  /** A lock that could not be released stays taken until the session that holds it ends: no other
      replica with a session is at work or gets past its wait in the meantime. */
  lemma {:induction false} UnreleasedLockStays(files: seq<File>, n: nat, s: State, next: State, steps: seq<Step>,
                                               r: ReplicaId)
    requires Versioned(files) && Inv(files, n, s) && Enabled(s, Unlock(r, false)) && r !in s.cut
    requires next == Next(files, s, Unlock(r, false)) && Run(files, next, steps).Some?
    requires LoseSession(r) !in steps && Crash(r) !in steps
    ensures var s' := Run(files, next, steps).value;
      && s'.holder == Some(r) && r in s'.replicas && s'.replicas[r].Finished?
      && forall q | q in s'.replicas && q !in s'.cut :: !AtWork(s'.replicas[q]) && !Enabled(s', Acquire(q))
    decreases |steps|
  {
    assert ReplicaInv(files, s, r);
    StepKeepsInv(files, n, s, Unlock(r, false));
    RunKeepsInv(files, n, next, steps);
    if steps != [] {
      var before := steps[..|steps| - 1];
      assert steps[|steps| - 1] in steps && forall x | x in before :: x in steps;
      UnreleasedLockStays(files, n, s, next, before, r);
      RunKeepsInv(files, n, next, before);
      var mid := Run(files, next, before).value;
      LockKept(files, n, mid, steps[|steps| - 1], r);
    }
    var s' := Run(files, next, steps).value;
    forall q | q in s'.replicas && q !in s'.cut ensures !AtWork(s'.replicas[q]) {
      assert ReplicaInv(files, s', q);
    }
  }

  lemma LockKept(files: seq<File>, n: nat, s: State, step: Step, r: ReplicaId)
    requires Versioned(files) && Inv(files, n, s) && Enabled(s, step) && step != LoseSession(r) && step != Crash(r)
    requires s.holder == Some(r) && r in s.replicas && s.replicas[r].Finished?
    ensures var s' := Next(files, s, step); s'.holder == Some(r) && r in s'.replicas && s'.replicas[r].Finished?
  {
    if step.r in s.replicas { assert ReplicaInv(files, s, step.r); }
  }
}
