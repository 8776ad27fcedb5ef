/** The migration runner: the cumulative hash check of the embedded files, and replicas that
    apply what is pending under an advisory lock. */
module Migrations {
  import opened Domain

  /** An embedded .sql file; names are byte strings, as the hasher sees them. */
  datatype File = File(name: Bytes, body: Bytes)

  const UNDERSCORE: Byte := 95

  /** strings.Cut(name, "_"): what precedes the first underscore, if there is one. */
  function VersionOf(name: Bytes): Option<Bytes> {
    if name == [] then None
    else if name[0] == UNDERSCORE then Some([])
    else match VersionOf(name[1..])
      case None => None
      case Some(v) => Some([name[0]] + v)
  }

  /** A version is what precedes the first underscore; a name without one has none. */
  lemma {:induction false} VersionPrecedesUnderscore(name: Bytes)
    ensures VersionOf(name).Some? <==> UNDERSCORE in name
    ensures VersionOf(name).Some? ==>
      var v := VersionOf(name).value; v + [UNDERSCORE] <= name && UNDERSCORE !in v
    decreases |name|
  {
    if name != [] && name[0] != UNDERSCORE {
      VersionPrecedesUnderscore(name[1..]);
      assert name == [name[0]] + name[1..];
    }
  }

  /** Everything written to the running hasher after these files. */
  function Written(files: seq<File>): Bytes
    decreases |files|
  {
    if files == [] then []
    else
      var last := files[|files| - 1];
      Written(files[..|files| - 1]) + (last.name + last.body)
  }

  // ----- The hash check and the pending list

  datatype Problem = NoVersion(name: Bytes) | NotSummed(name: Bytes) | HashMismatch(name: Bytes)

  type Digest = Bytes -> string

  /** What is wrong with the i-th file, in the order the runner looks. */
  function ProblemAt(digest: Digest, sums: map<Bytes, string>, files: seq<File>, i: nat): Option<Problem>
    requires i < |files|
  {
    var name := files[i].name;
    if VersionOf(name).None? then Some(NoVersion(name))
    else if name !in sums then Some(NotSummed(name))
    else if digest(Written(files[..i + 1])) != sums[name] then Some(HashMismatch(name))
    else None
  }

  predicate Accepted(digest: Digest, sums: map<Bytes, string>, files: seq<File>) {
    forall i | 0 <= i < |files| :: ProblemAt(digest, sums, files, i).None?
  }

  predicate Applied(applied: set<Bytes>, f: File) {
    VersionOf(f.name).Some? && VersionOf(f.name).value in applied
  }

  function Filter<T>(keep: T -> bool, xs: seq<T>): seq<T>
    decreases |xs|
  {
    if xs == [] then []
    else Filter(keep, xs[..|xs| - 1]) + if keep(xs[|xs| - 1]) then [xs[|xs| - 1]] else []
  }

  lemma FilterNext<T>(keep: T -> bool, xs: seq<T>, m: nat)
    requires m < |xs|
    ensures Filter(keep, xs[..m + 1]) == Filter(keep, xs[..m]) + if keep(xs[m]) then [xs[m]] else []
  {
    assert xs[..m + 1][..m] == xs[..m];
  }

  /** The files whose version is not recorded, in order. */
  function PendingFiles(applied: set<Bytes>, files: seq<File>): seq<File> {
    Filter((f: File) => !Applied(applied, f), files)
  }

  datatype Listing = Listed(pending: seq<File>) | Refused(problem: Problem)

  /** pendingMigrations, from the sorted entries: one hasher runs across all files, applied or
      not, and the first file with a problem decides. */
  method PendingMigrations(digest: Digest, sums: map<Bytes, string>, applied: set<Bytes>, files: seq<File>)
    returns (r: Listing)
    ensures r.Listed? <==> Accepted(digest, sums, files)
    ensures r.Listed? ==> r.pending == PendingFiles(applied, files)
    ensures r.Refused? ==> exists i | 0 <= i < |files| ::
      && ProblemAt(digest, sums, files, i) == Some(r.problem)
      && forall j | 0 <= j < i :: ProblemAt(digest, sums, files, j).None?
  {
    ghost var keep := (f: File) => !Applied(applied, f);
    var running: Bytes := [];
    var pending: seq<File> := [];
    for i := 0 to |files|
      invariant running == Written(files[..i])
      invariant pending == Filter(keep, files[..i])
      invariant forall j | 0 <= j < i :: ProblemAt(digest, sums, files, j).None?
    {
      var f := files[i];
      WrittenNext(files, i);
      FilterNext(keep, files, i);
      var version := VersionOf(f.name);
      if version.None? {
        assert ProblemAt(digest, sums, files, i) == Some(NoVersion(f.name));
        return Refused(NoVersion(f.name));
      }
      if f.name !in sums {
        assert ProblemAt(digest, sums, files, i) == Some(NotSummed(f.name));
        return Refused(NotSummed(f.name));
      }
      running := running + (f.name + f.body);
      if digest(running) != sums[f.name] {
        assert ProblemAt(digest, sums, files, i) == Some(HashMismatch(f.name));
        return Refused(HashMismatch(f.name));
      }
      if version.value !in applied {
        pending := pending + [f];
      }
    }
    assert files[..|files|] == files;
    return Listed(pending);
  }

  // ----- What the hash check guarantees

  predicate DistinctNames(files: seq<File>) {
    forall i, j | 0 <= i < j < |files| :: files[i].name != files[j].name
  }

  /** atlas.sum over a list of files: each name with the digest of everything up to it. */
  function AtlasSum(digest: Digest, files: seq<File>): map<Bytes, string>
    decreases |files|
  {
    if files == [] then map[]
    else AtlasSum(digest, files[..|files| - 1])[files[|files| - 1].name := digest(Written(files))]
  }

  /** Bytes written by files i to j-1. */
  function Between(files: seq<File>, i: nat, j: nat): Bytes
    requires i <= j <= |files|
    decreases j - i
  {
    if i == j then [] else files[i].name + files[i].body + Between(files, i + 1, j)
  }

  /** The name of file j can be read where file i begins. */
  predicate ReadsAt(files: seq<File>, i: nat, j: nat)
    requires i <= j < |files|
  {
    files[j].name <= Between(files, i, j + 1)
  }

  /** Some name can be read at the start of an earlier file as well. */
  predicate Ambiguous(files: seq<File>) {
    exists i, j | 0 <= i < j < |files| :: ReadsAt(files, i, j)
  }

  predicate PrefixFree(files: seq<File>) {
    forall i, j | 0 <= i < |files| && 0 <= j < |files| && i != j :: !(files[i].name <= files[j].name)
  }

  predicate WellNamed(files: seq<File>) {
    DistinctNames(files) && forall i | 0 <= i < |files| :: VersionOf(files[i].name).Some?
  }

  ghost predicate Injective(digest: Digest) {
    forall a, b | digest(a) == digest(b) :: a == b
  }

  lemma {:induction false} WrittenSplits(files: seq<File>, i: nat, j: nat)
    requires i <= j <= |files|
    ensures Written(files[..j]) == Written(files[..i]) + Between(files, i, j)
    decreases j - i
  {
    if i < j {
      WrittenSplits(files, i + 1, j);
      assert files[..i + 1][..i] == files[..i];
    }
  }

  lemma {:induction false} AtlasSumAt(digest: Digest, files: seq<File>, name: Bytes)
    requires DistinctNames(files)
    ensures name in AtlasSum(digest, files) <==> exists j | 0 <= j < |files| :: files[j].name == name
    ensures forall j | 0 <= j < |files| && files[j].name == name ::
      AtlasSum(digest, files)[name] == digest(Written(files[..j + 1]))
    decreases |files|
  {
    if files != [] {
      var before := files[..|files| - 1];
      AtlasSumAt(digest, before, name);
      assert forall j | 0 <= j < |before| :: files[j] == before[j] && files[..j + 1] == before[..j + 1];
      assert files[..|files|] == files;
    }
  }

  lemma PrefixFreeIsUnambiguous(files: seq<File>)
    requires PrefixFree(files)
    ensures !Ambiguous(files)
  {
    forall i, j | 0 <= i < j < |files| ensures !ReadsAt(files, i, j) {
      assert Between(files, i, j + 1) == files[i].name + (files[i].body + Between(files, i + 1, j + 1));
      assert files[i].name <= Between(files, i, j + 1);
    }
  }

  lemma SameSuffix(prefix: Bytes, a: Bytes, b: Bytes)
    requires prefix + a == prefix + b
    ensures a == b
  {
    assert (prefix + a)[|prefix|..] == a;
    assert (prefix + b)[|prefix|..] == b;
  }

  lemma {:induction false} WrittenGrows(files: seq<File>, i: nat, j: nat)
    requires i <= j <= |files|
    ensures |Written(files[..i])| <= |Written(files[..j])|
  {
    WrittenSplits(files, i, j);
  }

  /** One more file over the first i summed ones gives the bytes of the first j + 1 of them only
      if it is the i-th. */
  lemma SameStream(summed: seq<File>, i: nat, j: nat, f: File)
    requires !Ambiguous(summed) && i <= |summed| && j < |summed| && summed[j].name == f.name && f.name != []
    requires Written(summed[..i]) + (f.name + f.body) == Written(summed[..j + 1])
    ensures i == j && f == summed[i]
  {
    if j < i {
      WrittenGrows(summed, j + 1, i);
      assert false;
    }
    WrittenSplits(summed, i, j + 1);
    SameSuffix(Written(summed[..i]), f.name + f.body, Between(summed, i, j + 1));
    assert ReadsAt(summed, i, j);
    assert i == j;
    assert Between(summed, i, i + 1) == summed[i].name + summed[i].body + [];
    SameSuffix(f.name, f.body, summed[i].body);
  }

  lemma WrittenNext(files: seq<File>, i: nat)
    requires i < |files|
    ensures Written(files[..i + 1]) == Written(files[..i]) + (files[i].name + files[i].body)
  {
    assert files[..i + 1][..i] == files[..i];
  }

  /** An accepted file has the name of a summed file, over the bytes summed for that one. */
  lemma AcceptedStream(digest: Digest, summed: seq<File>, files: seq<File>, i: nat) returns (j: nat)
    requires Injective(digest) && WellNamed(summed)
    requires i < |files| && ProblemAt(digest, AtlasSum(digest, summed), files, i).None?
    ensures j < |summed| && summed[j].name == files[i].name
    ensures Written(files[..i + 1]) == Written(summed[..j + 1])
  {
    AtlasSumAt(digest, summed, files[i].name);
    j :| 0 <= j < |summed| && summed[j].name == files[i].name;
    assert digest(Written(files[..i + 1])) == digest(Written(summed[..j + 1]));
  }

  /** The i-th accepted file, after i that agree, is the i-th summed file. */
  lemma NextFileAgrees(digest: Digest, summed: seq<File>, files: seq<File>, i: nat)
    requires Injective(digest) && WellNamed(summed) && !Ambiguous(summed)
    requires i < |files| && ProblemAt(digest, AtlasSum(digest, summed), files, i).None?
    requires i <= |summed| && files[..i] == summed[..i]
    ensures i < |summed| && files[i] == summed[i]
  {
    var j := AcceptedStream(digest, summed, files, i);
    WrittenNext(files, i);
    SameStream(summed, i, j, files[i]);
  }

  lemma {:induction false} AcceptedPrefix(digest: Digest, summed: seq<File>, files: seq<File>, n: nat)
    requires Injective(digest) && WellNamed(summed) && !Ambiguous(summed)
    requires n <= |files| && Accepted(digest, AtlasSum(digest, summed), files)
    ensures n <= |summed| && files[..n] == summed[..n]
    decreases n
  {
    if n > 0 {
      AcceptedPrefix(digest, summed, files, n - 1);
      NextFileAgrees(digest, summed, files, n - 1);
      assert files[..n] == files[..n - 1] + [files[n - 1]];
      assert summed[..n] == summed[..n - 1] + [summed[n - 1]];
    }
  }

  /** With the ambiguous name moved forward, the file list is accepted and is not the summed one. */
  function Forged(summed: seq<File>, i: nat, j: nat): seq<File>
    requires i < j < |summed| && ReadsAt(summed, i, j)
  {
    summed[..i] + [File(summed[j].name, Between(summed, i, j + 1)[|summed[j].name|..])]
  }

  /** A file with a summed name, over bytes that were summed for it, has no problem. */
  lemma NoProblemAt(digest: Digest, summed: seq<File>, files: seq<File>, k: nat, j: nat)
    requires WellNamed(summed) && k < |files| && j < |summed| && files[k].name == summed[j].name
    requires Written(files[..k + 1]) == Written(summed[..j + 1])
    ensures ProblemAt(digest, AtlasSum(digest, summed), files, k).None?
  {
    AtlasSumAt(digest, summed, summed[j].name);
  }

  lemma ForgedBytes(summed: seq<File>, i: nat, j: nat)
    requires i < j < |summed| && ReadsAt(summed, i, j)
    ensures Written(Forged(summed, i, j)) == Written(summed[..j + 1])
  {
    var files := Forged(summed, i, j);
    WrittenSplits(summed, i, j + 1);
    assert files[..|files| - 1] == summed[..i];
    assert files[i].name + files[i].body == Between(summed, i, j + 1);
  }

  /** Summed files, then one under the name of a later file over the bytes up to that one. */
  lemma SkippingIsAccepted(digest: Digest, summed: seq<File>, files: seq<File>, i: nat, j: nat)
    requires WellNamed(summed) && i < j < |summed| && |files| == i + 1 && files[..i] == summed[..i]
    requires files[i].name == summed[j].name && Written(files) == Written(summed[..j + 1])
    ensures Accepted(digest, AtlasSum(digest, summed), files) && !(files <= summed)
  {
    forall k | 0 <= k < |files| ensures ProblemAt(digest, AtlasSum(digest, summed), files, k).None? {
      if k < i {
        assert files[..k + 1] == files[..i][..k + 1] == summed[..i][..k + 1] == summed[..k + 1];
        assert files[k] == files[..i][k] == summed[..i][k] == summed[k];
        NoProblemAt(digest, summed, files, k, k);
      } else {
        assert files[..k + 1] == files;
        NoProblemAt(digest, summed, files, k, j);
      }
    }
    assert files[i].name != summed[i].name;
  }

  lemma ForgedIsAccepted(digest: Digest, summed: seq<File>, i: nat, j: nat)
    requires WellNamed(summed) && i < j < |summed| && ReadsAt(summed, i, j)
    ensures Accepted(digest, AtlasSum(digest, summed), Forged(summed, i, j))
    ensures !(Forged(summed, i, j) <= summed)
  {
    ForgedBytes(summed, i, j);
    SkippingIsAccepted(digest, summed, Forged(summed, i, j), i, j);
  }

  ghost predicate OnlyInitialSegments(digest: Digest, summed: seq<File>) {
    forall files | Accepted(digest, AtlasSum(digest, summed), files) :: files <= summed
  }

  /** If every cumulative hash matches, the embedded files are an initial segment of the list
      atlas.sum was computed over, bodies included; and this holds for every embedded list exactly
      when no name of the summed list can be read at the start of an earlier file. */
  lemma HashChainExactly(digest: Digest, summed: seq<File>)
    requires Injective(digest) && WellNamed(summed)
    ensures OnlyInitialSegments(digest, summed) <==> !Ambiguous(summed)
    ensures PrefixFree(summed) ==> OnlyInitialSegments(digest, summed)
  {
    if PrefixFree(summed) {
      PrefixFreeIsUnambiguous(summed);
    }
    if Ambiguous(summed) {
      var i, j :| 0 <= i < j < |summed| && ReadsAt(summed, i, j);
      ForgedIsAccepted(digest, summed, i, j);
    } else {
      forall files | Accepted(digest, AtlasSum(digest, summed), files) ensures files <= summed {
        AcceptedPrefix(digest, summed, files, |files|);
        assert files[..|files|] == files;
      }
    }
  }

  /** Ambiguous lists exist, with versions and in the order of their names: 1_a.sql whose body begins
      with b.sql, then 1_a.sqlb.sql, which the first name begins. */
  lemma AmbiguityExists()
    ensures var a: Bytes, b: Bytes := [49, 95, 97, 46, 115, 113, 108], [98, 46, 115, 113, 108];
      var files := [File(a, b), File(a + b, [])];
      WellNamed(files) && Ambiguous(files) && files[0].name < files[1].name
  {
    var a: Bytes, b: Bytes := [49, 95, 97, 46, 115, 113, 108], [98, 46, 115, 113, 108];
    var files := [File(a, b), File(a + b, [])];
    assert a[1] == UNDERSCORE && (a + b)[1] == UNDERSCORE;
    VersionPrecedesUnderscore(a);
    VersionPrecedesUnderscore(a + b);
    assert Between(files, 0, 2) == a + b + Between(files, 1, 2);
    assert ReadsAt(files, 0, 1);
  }

  /** And every initial segment is accepted. */
  lemma InitialSegmentsAreAccepted(digest: Digest, summed: seq<File>, n: nat)
    requires WellNamed(summed) && n <= |summed|
    ensures Accepted(digest, AtlasSum(digest, summed), summed[..n])
  {
    forall k | 0 <= k < n ensures ProblemAt(digest, AtlasSum(digest, summed), summed[..n], k).None? {
      assert summed[..n][..k + 1] == summed[..k + 1];
      NoProblemAt(digest, summed, summed[..n], k, k);
    }
  }
}
