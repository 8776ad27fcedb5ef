/** Attachments from upload to local path: file names, object keys, the upload loop with its
    rollback, and the download loop. */
module Attachments {
  import opened Domain

  // ----- File names

  function TrimSlashes(s: string): string {
    if s != [] && s[|s| - 1] == '/' then TrimSlashes(s[..|s| - 1]) else s
  }

  function AfterLastSlash(s: string): string {
    if s == [] || s[|s| - 1] == '/' then [] else AfterLastSlash(s[..|s| - 1]) + [s[|s| - 1]]
  }

  /** filepath.Base. */
  function Base(path: string): string {
    if path == "" then "."
    else
      var trimmed := TrimSlashes(path);
      if trimmed == "" then "/" else AfterLastSlash(trimmed)
  }

  predicate IsAllowed(ch: char) {
    'A' <= ch <= 'Z' || 'a' <= ch <= 'z' || '0' <= ch <= '9' || ch == '.' || ch == '_' || ch == '-'
  }

  // The code points of the pattern's class, one by one.
  const CAPITALS: set<int> := {
    65, 66, 67, 68, 69, 70, 71, 72, 73, 74, 75, 76, 77, 78, 79, 80, 81, 82, 83, 84, 85, 86, 87, 88, 89, 90}
  const SMALL_LETTERS: set<int> := {
    97, 98, 99, 100, 101, 102, 103, 104, 105, 106, 107, 108, 109, 110, 111, 112, 113, 114, 115, 116, 117, 118, 119,
    120, 121, 122}
  const DIGITS: set<int> := {48, 49, 50, 51, 52, 53, 54, 55, 56, 57}
  const DOT_HYPHEN_UNDERSCORE: set<int> := {46, 45, 95}

  predicate IsListed(ch: char) {
    ch as int in CAPITALS || ch as int in SMALL_LETTERS || ch as int in DIGITS || ch as int in DOT_HYPHEN_UNDERSCORE
  }

  lemma AllowedExactly(ch: char)
    ensures IsAllowed(ch) <==> IsListed(ch)
  {
    assert ch as int in CAPITALS <==> 'A' <= ch <= 'Z';
    assert ch as int in SMALL_LETTERS <==> 'a' <= ch <= 'z';
    assert ch as int in DIGITS <==> '0' <= ch <= '9';
  }

  function Clean(s: string): string {
    seq(|s|, i requires 0 <= i < |s| => if IsAllowed(s[i]) then s[i] else '_')
  }

  function SanitizeFilename(raw: string): string {
    var base := Base(raw);
    if base == "" || base == "." || base == "/" then ""
    else
      var cleaned := Clean(base);
      if cleaned == "" || cleaned[0] == '.' then "" else cleaned
  }

  /** The names that sanitising leaves as they are, apart from the empty one. */
  predicate IsSafeName(name: string) {
    name != "" && name[0] != '.' && forall i | 0 <= i < |name| :: IsAllowed(name[i])
  }

  lemma {:induction false} NoSlashIsItsOwnBase(s: string)
    requires '/' !in s
    ensures TrimSlashes(s) == s && AfterLastSlash(s) == s
  {
    if s != [] {
      NoSlashIsItsOwnBase(s[..|s| - 1]);
      assert s == s[..|s| - 1] + [s[|s| - 1]];
      assert s[|s| - 1] in s;
    }
  }

  /** Every name is rejected or made safe, and the safe names are exactly those that pass
      unchanged; so sanitising twice is sanitising once. A name that is not rejected keeps the
      length of its last component, its allowed characters stay and every other becomes an
      underscore; rejected are exactly the paths without a component and the hidden names. */
  lemma SanitizingIsAProjection(raw: string)
    ensures SanitizeFilename(raw) == "" || IsSafeName(SanitizeFilename(raw))
    ensures IsSafeName(raw) <==> raw != "" && SanitizeFilename(raw) == raw
    ensures SanitizeFilename(SanitizeFilename(raw)) == SanitizeFilename(raw)
    ensures var base, name := Base(raw), SanitizeFilename(raw);
      && (name == "" <==> base == "" || base == "/" || base[0] == '.')
      && (name != "" ==> |name| == |base| && forall i | 0 <= i < |base| ::
            name[i] == if IsListed(base[i]) then base[i] else '_')
  {
    forall ch: char ensures IsAllowed(ch) <==> IsListed(ch) {
      AllowedExactly(ch);
    }
    SafeNamesPass(raw);
    SafeNamesPass(SanitizeFilename(raw));
    var base := Base(raw);
    if base != "" {
      assert Clean(base)[0] == if IsAllowed(base[0]) then base[0] else '_';
    }
  }

  lemma SafeNamesPass(name: string)
    ensures IsSafeName(name) ==> '/' !in name && Base(name) == name && SanitizeFilename(name) == name
  {
    if IsSafeName(name) {
      assert forall i | 0 <= i < |name| :: name[i] != '/';
      NoSlashIsItsOwnBase(name);
      assert Clean(name) == name;
    }
  }

  lemma {:induction false} TrimDropsSlashes(s: string)
    ensures TrimSlashes(s) <= s
    ensures forall i | |TrimSlashes(s)| <= i < |s| :: s[i] == '/'
    ensures TrimSlashes(s) != "" ==> TrimSlashes(s)[|TrimSlashes(s)| - 1] != '/'
  {
    if s != [] && s[|s| - 1] == '/' {
      TrimDropsSlashes(s[..|s| - 1]);
    }
  }

  lemma {:induction false} AfterLastSlashIsSuffix(s: string)
    ensures var n := |s| - |AfterLastSlash(s)|;
      && 0 <= n && s[n..] == AfterLastSlash(s) && '/' !in AfterLastSlash(s)
      && (n == 0 || s[n - 1] == '/')
  {
    if s != [] && s[|s| - 1] != '/' {
      AfterLastSlashIsSuffix(s[..|s| - 1]);
      assert s == s[..|s| - 1] + [s[|s| - 1]];
    }
  }

  /** The part from a to b is the last path component: no slash in it, a slash or nothing before it,
      and only slashes after it. */
  predicate IsLastComponent(path: string, a: nat, b: nat) {
    && a < b <= |path| && '/' !in path[a..b]
    && (a == 0 || path[a - 1] == '/') && forall k | b <= k < |path| :: path[k] == '/'
  }

  /** Base is the last path component. A path of slashes alone gives "/", the empty one ".". */
  lemma BaseIsLastComponent(path: string)
    ensures path == "" ==> Base(path) == "."
    ensures path != "" && (forall i | 0 <= i < |path| :: path[i] == '/') ==> Base(path) == "/"
    ensures (exists i | 0 <= i < |path| :: path[i] != '/') ==>
      exists a, b | 0 <= a < b <= |path| :: IsLastComponent(path, a, b) && path[a..b] == Base(path)
  {
    TrimDropsSlashes(path);
    if i :| 0 <= i < |path| && path[i] != '/' {
      LastComponentFound(path, i);
    }
  }

  lemma LastComponentFound(path: string, i: nat)
    requires i < |path| && path[i] != '/'
    ensures exists a, b | 0 <= a < b <= |path| :: IsLastComponent(path, a, b) && path[a..b] == Base(path)
  {
    TrimDropsSlashes(path);
    var trimmed := TrimSlashes(path);
    AfterLastSlashIsSuffix(trimmed);
    var a, b := |trimmed| - |AfterLastSlash(trimmed)|, |trimmed|;
    assert trimmed == path[..b];
    assert path[a..b] == trimmed[a..];
    assert a < b by {
      assert trimmed[b - 1] != '/';
    }
  }

  // ----- Object keys and local paths

  /** The key of an object: the uuid of its message and a file name, stored as text. */
  datatype ObjectKey = ObjectKey(prefix: string, name: string) {
    function Text(): string {
      prefix + "/" + name
    }
  }

  type Store = map<ObjectKey, Bytes>

  function LocalPath(dir: string, key: ObjectKey): string {
    dir + "/" + Base(key.Text())
  }

  lemma PrefixEndsAtSlash(a: ObjectKey, b: ObjectKey)
    requires '/' !in b.prefix && a.Text() == b.Text()
    ensures |b.prefix| <= |a.prefix|
  {
    assert a.Text()[|a.prefix|] == '/';
    assert forall i | 0 <= i < |b.prefix| :: b.Text()[i] == b.prefix[i] && b.prefix[i] in b.prefix;
  }

  /** A uuid has no slash, so the text of a key says which key it is. */
  lemma TextIdentifiesKey(a: ObjectKey, b: ObjectKey)
    requires '/' !in a.prefix && '/' !in b.prefix
    ensures a.Text() == b.Text() <==> a == b
  {
    if a.Text() == b.Text() {
      PrefixEndsAtSlash(a, b);
      PrefixEndsAtSlash(b, a);
      assert a.prefix == a.Text()[..|a.prefix|] && b.prefix == b.Text()[..|b.prefix|];
      SameTail(a.prefix, a.name, b.name);
    }
  }

  lemma {:induction false} BaseAfterSlash(prefix: string, name: string)
    requires '/' !in name
    ensures AfterLastSlash(prefix + "/" + name) == name
    decreases |name|
  {
    var s := prefix + "/" + name;
    if name == "" {
      assert s[|s| - 1] == '/';
    } else {
      var shorter := name[..|name| - 1];
      BaseAfterSlash(prefix, shorter);
      assert s[..|s| - 1] == prefix + "/" + shorter;
      assert s[|s| - 1] == name[|name| - 1] && name[|name| - 1] in name;
      assert name == shorter + [name[|name| - 1]];
    }
  }

  /** The name survives the trip through the object key, whatever the key's prefix. */
  lemma NameSurvivesKey(dir: string, prefix: string, name: string)
    requires IsSafeName(name)
    ensures Base(ObjectKey(prefix, name).Text()) == name
    ensures LocalPath(dir, ObjectKey(prefix, name)) == dir + "/" + name
  {
    SafeNamesPass(name);
    var key := ObjectKey(prefix, name).Text();
    assert key[|key| - 1] == name[|name| - 1];
    assert name[|name| - 1] in name;
    assert TrimSlashes(key) == key;
    BaseAfterSlash(prefix, name);
  }

  lemma SameTail(prefix: string, a: string, b: string)
    ensures prefix + "/" + a == prefix + "/" + b <==> a == b
  {
    assert (prefix + "/" + a)[|prefix| + 1..] == a;
    assert (prefix + "/" + b)[|prefix| + 1..] == b;
  }

  // ----- Upload and download

  datatype NamedPart = NamedPart(name: string, body: Bytes, readable: bool, storable: bool)

  /** One part of the request under its sanitised name, and what happens to it: whether it could
      be read from the request and whether the store accepted it. */
  type Part = p: NamedPart | p.name == "" || IsSafeName(p.name) witness NamedPart("", [], false, false)

  function Received(filename: string, body: Bytes, readable: bool, storable: bool): Part {
    SanitizingIsAProjection(filename);
    NamedPart(SanitizeFilename(filename), body, readable, storable)
  }

  predicate Accepted(p: Part) {
    p.readable && p.name != "" && p.storable
  }

  predicate AllAccepted(parts: seq<Part>) {
    forall i | 0 <= i < |parts| :: Accepted(parts[i])
  }

  function KeyOf(prefix: string, p: Part): ObjectKey {
    ObjectKey(prefix, p.name)
  }

  function KeysOf(prefix: string, parts: seq<Part>): seq<ObjectKey> {
    seq(|parts|, i requires 0 <= i < |parts| => KeyOf(prefix, parts[i]))
  }

  /** The store after the parts were put in order. */
  function PutAll(objects: Store, prefix: string, parts: seq<Part>): Store {
    if parts == [] then objects
    else
      var last := parts[|parts| - 1];
      PutAll(objects, prefix, parts[..|parts| - 1])[KeyOf(prefix, last) := last.body]
  }

  predicate Unused(objects: Store, prefix: string) {
    forall key | key in objects :: key.prefix != prefix
  }

  lemma {:induction false} OtherKeysKept(objects: Store, prefix: string, parts: seq<Part>, key: ObjectKey)
    requires key !in KeysOf(prefix, parts)
    ensures key in PutAll(objects, prefix, parts) <==> key in objects
    ensures key in objects ==> PutAll(objects, prefix, parts)[key] == objects[key]
    decreases |parts|
  {
    if parts != [] {
      var before := parts[..|parts| - 1];
      assert KeysOf(prefix, parts) == KeysOf(prefix, before) + [KeyOf(prefix, parts[|parts| - 1])];
      OtherKeysKept(objects, prefix, before, key);
    }
  }

  lemma RemovingUndoesPutAll(objects: Store, prefix: string, parts: seq<Part>)
    requires Unused(objects, prefix)
    ensures PutAll(objects, prefix, parts) - (set k | k in KeysOf(prefix, parts)) == objects
  {
    forall key | key !in KeysOf(prefix, parts)
      ensures key in PutAll(objects, prefix, parts) <==> key in objects
      ensures key in objects ==> PutAll(objects, prefix, parts)[key] == objects[key]
    {
      OtherKeysKept(objects, prefix, parts, key);
    }
    assert forall key | key in objects :: key !in KeysOf(prefix, parts);
  }

  lemma PutNext(objects: Store, prefix: string, parts: seq<Part>, i: nat)
    requires i < |parts|
    ensures PutAll(objects, prefix, parts[..i + 1])
         == PutAll(objects, prefix, parts[..i])[KeyOf(prefix, parts[i]) := parts[i].body]
    ensures KeysOf(prefix, parts[..i + 1]) == KeysOf(prefix, parts[..i]) + [KeyOf(prefix, parts[i])]
  {
    assert parts[..i + 1][..i] == parts[..i];
  }

  function PathsOf(dir: string, keys: seq<ObjectKey>): seq<string> {
    seq(|keys|, i requires 0 <= i < |keys| => LocalPath(dir, keys[i]))
  }

  function PathSet(paths: seq<string>): set<string> {
    set p | p in paths
  }

  /** The local files after the objects were copied in order. */
  function FetchAll(files: map<string, Bytes>, objects: Store, dir: string, keys: seq<ObjectKey>)
    : map<string, Bytes>
    requires forall i | 0 <= i < |keys| :: keys[i] in objects
  {
    if keys == [] then files
    else
      var last := keys[|keys| - 1];
      FetchAll(files, objects, dir, keys[..|keys| - 1])[LocalPath(dir, last) := objects[last]]
  }

  /** How the copy of one object goes: to the end, not even to an open file, or cut off after a
      number of bytes. */
  datatype Fetch = Whole | Unopened | CutAfter(n: nat)

  /** How many references, from the front, can be fetched. */
  function Fetchable(objects: Store, keys: seq<ObjectKey>, fetches: seq<Fetch>): (n: nat)
    requires |fetches| == |keys|
    ensures n <= |keys|
    ensures forall i | 0 <= i < n :: keys[i] in objects && fetches[i].Whole?
    ensures n < |keys| ==> keys[n] !in objects || !fetches[n].Whole?
  {
    if keys == [] || keys[0] !in objects || !fetches[0].Whole? then 0
    else 1 + Fetchable(objects, keys[1..], fetches[1..])
  }

  /** The files after a copy that failed: a file that was opened is truncated and keeps what was
      copied. An object that is not there fails at its first read, with the file open. */
  function AfterCut(files: map<string, Bytes>, objects: Store, dir: string, key: ObjectKey, fetch: Fetch)
    : map<string, Bytes>
  {
    if fetch.Unopened? then files
    else if fetch.CutAfter? && key in objects then
      var n := if fetch.n <= |objects[key]| then fetch.n else |objects[key]|;
      files[LocalPath(dir, key) := objects[key][..n]]
    else files[LocalPath(dir, key) := []]
  }

  lemma FetchNext(files: map<string, Bytes>, objects: Store, dir: string, keys: seq<ObjectKey>, i: nat)
    requires i < |keys| && forall k | 0 <= k <= i :: keys[k] in objects
    ensures FetchAll(files, objects, dir, keys[..i + 1])
         == FetchAll(files, objects, dir, keys[..i])[LocalPath(dir, keys[i]) := objects[keys[i]]]
    ensures PathsOf(dir, keys[..i + 1]) == PathsOf(dir, keys[..i]) + [LocalPath(dir, keys[i])]
  {
    assert keys[..i + 1][..i] == keys[..i] && keys[..i + 1][i] == keys[i];
  }

  class ObjectStore {
    var objects: Store
    var files: map<string, Bytes>

    /** rollback: removing an object that is not there is no error. */
    method Rollback(keys: seq<ObjectKey>)
      modifies this`objects
      ensures objects == old(objects) - set k | k in keys
    {
      var i := 0;
      while i < |keys|
        invariant 0 <= i <= |keys|
        invariant objects == old(objects) - set k | k in keys[..i]
      {
        objects := objects - {keys[i]};
        assert keys[..i + 1] == keys[..i] + [keys[i]];
        i := i + 1;
      }
      assert keys[..i] == keys;
    }

    /** uploadAll: the keys in the order of the parts, or nothing left behind. The prefix is a
        fresh uuid, so no object lies under it. */
    method UploadAll(prefix: string, parts: seq<Part>) returns (keys: Option<seq<ObjectKey>>)
      requires Unused(objects, prefix)
      modifies this`objects
      ensures keys.Some? <==> AllAccepted(parts)
      ensures keys.Some? <==> forall i | 0 <= i < |parts| ::
        parts[i].readable && parts[i].name != "" && parts[i].storable
      ensures keys.Some? ==>
        keys.value == KeysOf(prefix, parts) && objects == PutAll(old(objects), prefix, parts)
      ensures keys.None? ==> objects == old(objects)
    {
      var done: seq<ObjectKey> := [];
      for i := 0 to |parts|
        invariant forall k | 0 <= k < i :: Accepted(parts[k])
        invariant done == KeysOf(prefix, parts[..i])
        invariant objects == PutAll(old(objects), prefix, parts[..i])
      {
        var p := parts[i];
        if !Accepted(p) {
          Rollback(done);
          RemovingUndoesPutAll(old(objects), prefix, parts[..i]);
          return None;
        }
        PutNext(old(objects), prefix, parts, i);
        objects := objects[KeyOf(prefix, p) := p.body];
        done := done + [KeyOf(prefix, p)];
      }
      assert parts[..|parts|] == parts;
      return Some(done);
    }

    /** DownloadAll: one path per reference, in order. After a failure the files written before it
        are removed, but not the file whose copy failed. */
    method DownloadAll(dir: string, keys: seq<ObjectKey>, fetches: seq<Fetch>) returns (paths: Option<seq<string>>)
      requires |fetches| == |keys|
      modifies this`files
      ensures var n := Fetchable(objects, keys, fetches);
        && (paths.Some? <==> n == |keys|)
        && (paths.Some? ==> paths.value == PathsOf(dir, keys) && files == FetchAll(old(files), objects, dir, keys))
        && (paths.None? ==> files == AfterFailure(old(files), objects, dir, keys, n, fetches[n]))
    {
      ghost var n := Fetchable(objects, keys, fetches);
      var done: seq<string> := [];
      for i := 0 to |keys|
        invariant i <= n
        invariant done == PathsOf(dir, keys[..i])
        invariant files == FetchAll(old(files), objects, dir, keys[..i])
      {
        if keys[i] !in objects || !fetches[i].Whole? {
          assert i == n;
          files := AfterCut(files, objects, dir, keys[i], fetches[i]) - PathSet(done);
          return None;
        }
        FetchNext(old(files), objects, dir, keys, i);
        files := files[LocalPath(dir, keys[i]) := objects[keys[i]]];
        done := done + [LocalPath(dir, keys[i])];
      }
      assert keys[..|keys|] == keys;
      return Some(done);
    }
  }

  /** The files after the first n references were copied, the next one failed, and the copies
      were removed. */
  function AfterFailure(files: map<string, Bytes>, objects: Store, dir: string, keys: seq<ObjectKey>, n: nat,
                        fetch: Fetch): map<string, Bytes>
    requires n < |keys| && forall i | 0 <= i < n :: keys[i] in objects
  {
    AfterCut(FetchAll(files, objects, dir, keys[..n]), objects, dir, keys[n], fetch)
    - PathSet(PathsOf(dir, keys[..n]))
  }

  lemma {:induction false} OtherFilesKept(files: map<string, Bytes>, objects: Store, dir: string, keys: seq<ObjectKey>,
                                          path: string)
    requires (forall i | 0 <= i < |keys| :: keys[i] in objects) && path !in PathsOf(dir, keys)
    ensures path in FetchAll(files, objects, dir, keys) <==> path in files
    ensures path in files ==> FetchAll(files, objects, dir, keys)[path] == files[path]
    decreases |keys|
  {
    if keys != [] {
      var before := keys[..|keys| - 1];
      assert PathsOf(dir, keys) == PathsOf(dir, before) + [LocalPath(dir, keys[|keys| - 1])];
      OtherFilesKept(files, objects, dir, before, path);
    }
  }

  /** A failed download into a directory without these files leaves the disk as it was exactly when
      the copy that failed had not opened its file, or shared its path with one already copied. */
  lemma FailedDownloadLeavesNothingExactly(files: map<string, Bytes>, objects: Store, dir: string,
                                           keys: seq<ObjectKey>, n: nat, fetch: Fetch)
    requires n < |keys| && forall i | 0 <= i < n :: keys[i] in objects
    requires forall i | 0 <= i <= n :: LocalPath(dir, keys[i]) !in files
    ensures AfterFailure(files, objects, dir, keys, n, fetch) == files
      <==> fetch.Unopened? || LocalPath(dir, keys[n]) in PathsOf(dir, keys[..n])
  {
    var copied := PathsOf(dir, keys[..n]);
    forall path | path !in copied
      ensures path in FetchAll(files, objects, dir, keys[..n]) <==> path in files
      ensures path in files ==> FetchAll(files, objects, dir, keys[..n])[path] == files[path]
    {
      OtherFilesKept(files, objects, dir, keys[..n], path);
    }
    assert forall path | path in copied :: path !in files;
  }

  /** What stays behind is what the failed copy had copied: as many of the object's first bytes as it
      got to, none if the object is not there. */
  lemma PartialFileStays(files: map<string, Bytes>, objects: Store, dir: string, keys: seq<ObjectKey>, n: nat, got: nat)
    requires n < |keys| && forall i | 0 <= i < n :: keys[i] in objects
    requires LocalPath(dir, keys[n]) !in PathsOf(dir, keys[..n])
    ensures var path, left := LocalPath(dir, keys[n]), AfterFailure(files, objects, dir, keys, n, CutAfter(got));
      && path in left
      && (keys[n] !in objects ==> left[path] == [])
      && (keys[n] in objects ==> left[path] <= objects[keys[n]])
      && (keys[n] in objects && got <= |objects[keys[n]]| ==> |left[path]| == got)
      && (keys[n] in objects && got >= |objects[keys[n]]| ==> left[path] == objects[keys[n]])
  {}

  // ----- The round trip

  /** The file at each part's path holds that part's bytes. */
  predicate HoldsBodies(files: map<string, Bytes>, paths: seq<string>, parts: seq<Part>) {
    && |paths| == |parts|
    && forall i | 0 <= i < |parts| :: paths[i] in files && files[paths[i]] == parts[i].body
  }

  predicate SameName(p: Part, q: Part) {
    p.name == q.name
  }

  /** Parts that share a sanitised name carry the same bytes. */
  predicate NoClash(parts: seq<Part>) {
    forall i, j | 0 <= i < j < |parts| && SameName(parts[i], parts[j]) :: parts[i].body == parts[j].body
  }

  /** The last part with a given name decides what its key holds. */
  lemma {:induction false} LastPutWins(objects: Store, prefix: string, parts: seq<Part>, i: nat)
    returns (j: nat)
    requires i < |parts|
    ensures i <= j < |parts| && SameName(parts[i], parts[j])
    ensures forall k | j < k < |parts| :: !SameName(parts[i], parts[k])
    ensures KeyOf(prefix, parts[i]) in PutAll(objects, prefix, parts)
    ensures PutAll(objects, prefix, parts)[KeyOf(prefix, parts[i])] == parts[j].body
    decreases |parts|
  {
    var last := parts[|parts| - 1];
    if SameName(parts[i], last) {
      j := |parts| - 1;
    } else {
      j := LastPutWins(objects, prefix, parts[..|parts| - 1], i);
    }
  }

  lemma {:induction false} FetchedAt(files: map<string, Bytes>, objects: Store, dir: string,
                                     keys: seq<ObjectKey>, i: nat)
    requires forall k | 0 <= k < |keys| :: keys[k] in objects
    requires forall k, l | 0 <= k < |keys| && 0 <= l < |keys| ::
      LocalPath(dir, keys[k]) == LocalPath(dir, keys[l]) ==> keys[k] == keys[l]
    requires i < |keys|
    ensures LocalPath(dir, keys[i]) in FetchAll(files, objects, dir, keys)
    ensures FetchAll(files, objects, dir, keys)[LocalPath(dir, keys[i])] == objects[keys[i]]
    decreases |keys|
  {
    if i < |keys| - 1 {
      FetchedAt(files, objects, dir, keys[..|keys| - 1], i);
    }
  }

  lemma KeyDeterminesPath(dir: string, prefix: string, p: Part, q: Part)
    requires Accepted(p) && Accepted(q)
    ensures LocalPath(dir, KeyOf(prefix, p)) == LocalPath(dir, KeyOf(prefix, q)) <==> SameName(p, q)
    ensures LocalPath(dir, KeyOf(prefix, p)) == dir + "/" + p.name
  {
    NameSurvivesKey(dir, prefix, p.name);
    NameSurvivesKey(dir, prefix, q.name);
    SameTail(dir, p.name, q.name);
  }

  /** What the download puts at the path of part i is the body of the last part of its name. */
  lemma RoundTripAt(objects: Store, files: map<string, Bytes>, dir: string, prefix: string,
                    parts: seq<Part>, i: nat) returns (j: nat)
    requires AllAccepted(parts) && i < |parts|
    requires forall k | 0 <= k < |parts| :: KeysOf(prefix, parts)[k] in PutAll(objects, prefix, parts)
    ensures i <= j < |parts| && SameName(parts[i], parts[j])
    ensures forall k | j < k < |parts| :: !SameName(parts[i], parts[k])
    ensures var got := FetchAll(files, PutAll(objects, prefix, parts), dir, KeysOf(prefix, parts));
      var path := LocalPath(dir, KeysOf(prefix, parts)[i]);
      path in got && got[path] == parts[j].body
  {
    var keys, stored := KeysOf(prefix, parts), PutAll(objects, prefix, parts);
    forall k, l | 0 <= k < |keys| && 0 <= l < |keys|
      ensures LocalPath(dir, keys[k]) == LocalPath(dir, keys[l]) ==> keys[k] == keys[l]
    {
      KeyDeterminesPath(dir, prefix, parts[k], parts[l]);
    }
    FetchedAt(files, stored, dir, keys, i);
    j := LastPutWins(objects, prefix, parts, i);
  }

  lemma AllStored(objects: Store, prefix: string, parts: seq<Part>)
    ensures forall k | 0 <= k < |parts| :: KeysOf(prefix, parts)[k] in PutAll(objects, prefix, parts)
  {
    forall k | 0 <= k < |parts| ensures KeysOf(prefix, parts)[k] in PutAll(objects, prefix, parts) {
      var j := LastPutWins(objects, prefix, parts, k);
    }
  }

  /** A message's own uploads are under exactly the keys of its parts. */
  lemma PutAllKeys(prefix: string, parts: seq<Part>, key: ObjectKey)
    ensures key in PutAll(map[], prefix, parts) <==> key in KeysOf(prefix, parts)
  {
    AllStored(map[], prefix, parts);
    if key !in KeysOf(prefix, parts) {
      OtherKeysKept(map[], prefix, parts, key);
    }
  }

  /** A download reads nothing but its references. */
  lemma {:induction false} FetchReadsOnlyKeys(files: map<string, Bytes>, a: Store, b: Store, dir: string,
                                              keys: seq<ObjectKey>)
    requires forall i | 0 <= i < |keys| :: keys[i] in a && keys[i] in b && a[keys[i]] == b[keys[i]]
    ensures FetchAll(files, a, dir, keys) == FetchAll(files, b, dir, keys)
    decreases |keys|
  {
    if keys != [] {
      FetchReadsOnlyKeys(files, a, b, dir, keys[..|keys| - 1]);
    }
  }

  /** The local files after an upload and a download. */
  function RoundTripped(objects: Store, files: map<string, Bytes>, dir: string, prefix: string, parts: seq<Part>)
    : map<string, Bytes>
  {
    AllStored(objects, prefix, parts);
    FetchAll(files, PutAll(objects, prefix, parts), dir, KeysOf(prefix, parts))
  }

  lemma WithoutClashAllHeld(objects: Store, files: map<string, Bytes>, dir: string, prefix: string, parts: seq<Part>)
    requires AllAccepted(parts) && NoClash(parts)
    ensures HoldsBodies(RoundTripped(objects, files, dir, prefix, parts), PathsOf(dir, KeysOf(prefix, parts)), parts)
  {
    AllStored(objects, prefix, parts);
    var paths, got := PathsOf(dir, KeysOf(prefix, parts)), RoundTripped(objects, files, dir, prefix, parts);
    forall i | 0 <= i < |parts| ensures paths[i] in got && got[paths[i]] == parts[i].body {
      var j := RoundTripAt(objects, files, dir, prefix, parts, i);
    }
  }

  lemma AllHeldMeansNoClash(files: map<string, Bytes>, dir: string, prefix: string, parts: seq<Part>)
    requires AllAccepted(parts) && HoldsBodies(files, PathsOf(dir, KeysOf(prefix, parts)), parts)
    ensures NoClash(parts)
  {
    var paths := PathsOf(dir, KeysOf(prefix, parts));
    forall i, j | 0 <= i < j < |parts| && SameName(parts[i], parts[j]) ensures parts[i].body == parts[j].body {
      KeyDeterminesPath(dir, prefix, parts[i], parts[j]);
      assert paths[i] == paths[j];
    }
  }

  /** Uploading, storing the references and downloading yields one path per part, in order,
      holding that part's bytes, exactly when parts that share a sanitised name carry the same
      bytes: of two that clash the later one wins. */
  lemma RoundTripExactlyWithoutClash(objects: Store, files: map<string, Bytes>,
                                     dir: string, prefix: string, parts: seq<Part>)
    requires AllAccepted(parts)
    ensures HoldsBodies(RoundTripped(objects, files, dir, prefix, parts), PathsOf(dir, KeysOf(prefix, parts)), parts)
      <==> NoClash(parts)
  {
    if NoClash(parts) {
      WithoutClashAllHeld(objects, files, dir, prefix, parts);
    }
    if HoldsBodies(RoundTripped(objects, files, dir, prefix, parts), PathsOf(dir, KeysOf(prefix, parts)), parts) {
      AllHeldMeansNoClash(RoundTripped(objects, files, dir, prefix, parts), dir, prefix, parts);
    }
  }

  /** File names that differ can clash: characters that are not allowed all become underscores. */
  lemma ClashExists()
    ensures var parts := [Received("a b", [1], true, true), Received("a+b", [2], true, true)];
      AllAccepted(parts) && !NoClash(parts)
  {
    NoSlashIsItsOwnBase("a b");
    NoSlashIsItsOwnBase("a+b");
    assert Clean("a b") == "a_b" == Clean("a+b");
    var parts := [Received("a b", [1], true, true), Received("a+b", [2], true, true)];
    assert SameName(parts[0], parts[1]);
  }

  /** Distinct names never clash, and every path lies directly under the message's directory. */
  lemma DistinctNamesRoundTrip(objects: Store, files: map<string, Bytes>,
                               dir: string, prefix: string, parts: seq<Part>)
    requires AllAccepted(parts)
    requires forall i, j | 0 <= i < j < |parts| :: !SameName(parts[i], parts[j])
    ensures var paths := PathsOf(dir, KeysOf(prefix, parts));
      && HoldsBodies(RoundTripped(objects, files, dir, prefix, parts), paths, parts)
      && (forall i | 0 <= i < |parts| :: paths[i] == dir + "/" + parts[i].name)
      && (forall i, j | 0 <= i < j < |parts| :: paths[i] != paths[j])
  {
    RoundTripExactlyWithoutClash(objects, files, dir, prefix, parts);
    forall i, j | 0 <= i < |parts| && 0 <= j < |parts|
      ensures PathsOf(dir, KeysOf(prefix, parts))[i] == dir + "/" + parts[i].name
      ensures i < j ==> PathsOf(dir, KeysOf(prefix, parts))[i] != PathsOf(dir, KeysOf(prefix, parts))[j]
    {
      KeyDeterminesPath(dir, prefix, parts[i], parts[j]);
    }
  }
}
