/** The input-bundle profile on top of the envelope: safe paths in one canonical order. */
module InputBundle {
  import opened Basics
  import opened PaxRecord
  import opened TarHeader
  import opened PathText

  // ---- paths ----

  const DOT: Bytes := [0x2E]
  const DOT_DOT: Bytes := [0x2E, 0x2E]
  const BACKSLASH: Byte := 0x5C

  /** The parts a relative `PurePosixPath` keeps. */
  function Kept(parts: seq<Bytes>): seq<Bytes> {
    if parts == [] then []
    else
      var last := parts[|parts| - 1];
      Kept(parts[..|parts| - 1]) + if last == [] || last == DOT then [] else [last]
  }

  function WithoutSlash(path: Bytes): Bytes {
    if path != [] && path[|path| - 1] == SLASH then path[..|path| - 1] else path
  }

  function PartsOf(e: TarEntry): seq<Bytes> {
    Kept(Split(WithoutSlash(e.path), SLASH))
  }

  predicate StartsWith(path: Bytes, prefix: Bytes) {
    |path| >= |prefix| && path[..|prefix|] == prefix
  }

  // ---- safe paths ----

  predicate SafeParts(parts: seq<Bytes>) {
    forall i :: 0 <= i < |parts| ==> parts[i] != [] && parts[i] != DOT && parts[i] != DOT_DOT
  }

  predicate SafePath(e: TarEntry) {
    e.path != [] && e.path[0] != SLASH && BACKSLASH !in e.path && NUL !in e.path &&
    (e.kind == Directory <==> e.path[|e.path| - 1] == SLASH) &&
    SafeParts(Split(if e.kind == Directory then e.path[..|e.path| - 1] else e.path, SLASH))
  }

  predicate SafePaths(entries: seq<TarEntry>) {
    forall i :: 0 <= i < |entries| ==> SafePath(entries[i])
  }

  /** Where a walk along the parts ends up below the root, if it never climbs above it. */
  function Resolve(parts: seq<Bytes>): Option<seq<Bytes>> {
    if parts == [] then Some([])
    else
      var last, before := parts[|parts| - 1], Resolve(parts[..|parts| - 1]);
      if before.None? then None
      else if last == [] || last == DOT then before
      else if last == DOT_DOT then if before.value == [] then None else Some(before.value[..|before.value| - 1])
      else Some(before.value + [last])
  }

  /** A safe path means exactly what it says: every prefix of it stays below the root, one level deeper each. */
  lemma {:induction false} SafePartsStayInside(parts: seq<Bytes>, count: nat)
    requires SafeParts(parts) && count <= |parts|
    ensures Resolve(parts[..count]) == Some(parts[..count])
    decreases count
  {
    if count > 0 {
      SafePartsStayInside(parts, count - 1);
      assert parts[..count][..count - 1] == parts[..count - 1];
      assert parts[..count - 1] + [parts[count - 1]] == parts[..count];
    }
  }

  /** Whatever directory an archive is unpacked in, no prefix of a safe entry's path leads out of it. */
  lemma SafeEntryStaysInside(e: TarEntry, count: nat)
    requires SafePath(e) && count <= |PartsOf(e)|
    ensures PartsOf(e) == Split(WithoutSlash(e.path), SLASH)
    ensures Resolve(PartsOf(e)[..count]) == Some(PartsOf(e)[..count])
  {
    KeptAll(Split(WithoutSlash(e.path), SLASH));
    SafePartsStayInside(PartsOf(e), count);
  }

  method ValidateSafePaths(entries: seq<TarEntry>) returns (ok: bool)
    ensures ok <==> SafePaths(entries)
  {
    hide SafePath;
    for i := 0 to |entries|
      invariant forall k :: 0 <= k < i ==> SafePath(entries[k])
    {
      if !SafePath(entries[i]) {
        return false;
      }
    }
    return true;
  }

  // ---- byte order ----

  predicate Less(a: Bytes, b: Bytes) {
    if b == [] then false
    else if a == [] then true
    else if a[0] != b[0] then a[0] < b[0]
    else Less(a[1..], b[1..])
  }

  lemma {:induction false} LessTotal(a: Bytes, b: Bytes)
    ensures a == b || Less(a, b) || Less(b, a)
    ensures !(Less(a, b) && Less(b, a)) && !Less(a, a)
  {
    if a != [] {
      LessTotal(a[1..], a[1..]);
      if b != [] && a[0] == b[0] {
        LessTotal(a[1..], b[1..]);
        if a[1..] == b[1..] {
          assert a == [a[0]] + a[1..] && b == [b[0]] + b[1..];
        }
      }
    }
  }

  lemma {:induction false} LessTransitive(a: Bytes, b: Bytes, c: Bytes)
    requires Less(a, b) && Less(b, c)
    ensures Less(a, c)
  {
    if a != [] && a[0] == b[0] == c[0] {
      LessTransitive(a[1..], b[1..], c[1..]);
    }
  }

  /** A proper prefix sorts first. */
  lemma {:induction false} PrefixIsLess(a: Bytes, b: Bytes)
    requires |a| < |b| && b[..|a|] == a
    ensures Less(a, b)
  {
    if a != [] {
      assert b[1..][..|a| - 1] == a[1..] && a[0] == b[0];
      PrefixIsLess(a[1..], b[1..]);
    }
  }

  // ---- the profile ----

  /** `manifest.json` */
  const MANIFEST: Bytes :=
    [0x6D, 0x61, 0x6E, 0x69, 0x66, 0x65, 0x73, 0x74, 0x2E, 0x6A, 0x73, 0x6F, 0x6E]

  /** `workspace.snapshot.tar` */
  const SNAPSHOT: Bytes :=
    [0x77, 0x6F, 0x72, 0x6B, 0x73, 0x70, 0x61, 0x63, 0x65, 0x2E, 0x73, 0x6E, 0x61, 0x70, 0x73, 0x68, 0x6F, 0x74,
     0x2E, 0x74, 0x61, 0x72]

  /** `history/` */
  const HISTORY: Bytes := [0x68, 0x69, 0x73, 0x74, 0x6F, 0x72, 0x79, 0x2F]

  /** `incremental-window/` */
  const WINDOW: Bytes :=
    [0x69, 0x6E, 0x63, 0x72, 0x65, 0x6D, 0x65, 0x6E, 0x74, 0x61, 0x6C, 0x2D, 0x77, 0x69, 0x6E, 0x64, 0x6F, 0x77, 0x2F]

  predicate AllowedPath(e: TarEntry) {
    if e.path == MANIFEST || e.path == SNAPSHOT then e.kind == RegularFile
    else if e.path == HISTORY then e.kind == Directory
    else if StartsWith(e.path, HISTORY) then e.kind == RegularFile || e.kind == Directory
    else if e.path == WINDOW then e.kind == Directory
    else StartsWith(e.path, WINDOW) && (e.kind == RegularFile || e.kind == Directory)
  }

  datatype BundleFault =
    | ManifestNotFirst
    | DuplicatePath
    | PathNotAllowed
    | NotInOrder
    | RequiredPathMissing
    | ParentMissing

  function PathsOf(entries: seq<TarEntry>): (paths: set<Bytes>)
    ensures forall i :: 0 <= i < |entries| ==> entries[i].path in paths
  {
    set i | 0 <= i < |entries| :: entries[i].path
  }

  ghost predicate DistinctPaths(entries: seq<TarEntry>) {
    forall i, j :: 0 <= i < j < |entries| ==> entries[i].path != entries[j].path
  }

  ghost predicate AllAllowed(entries: seq<TarEntry>) {
    forall i :: 0 <= i < |entries| ==> AllowedPath(entries[i])
  }

  /** Strictly ascending from the second entry on. */
  ghost predicate Ascending(entries: seq<TarEntry>) {
    forall i, j :: 1 <= i < j < |entries| ==> Less(entries[i].path, entries[j].path)
  }

  ghost predicate ParentsIn(paths: set<Bytes>, parts: seq<Bytes>) {
    forall n :: 0 < n < |parts| ==> Join(parts[..n], SLASH) + [SLASH] in paths
  }

  ghost predicate AllParents(entries: seq<TarEntry>) {
    forall i :: 0 <= i < |entries| ==> ParentsIn(PathsOf(entries), PartsOf(entries[i]))
  }

  ghost predicate HasRequired(entries: seq<TarEntry>) {
    {MANIFEST, SNAPSHOT, HISTORY} <= PathsOf(entries)
  }

  ghost predicate ManifestFirst(entries: seq<TarEntry>) {
    entries != [] && entries[0].path == MANIFEST
  }

  ghost predicate Holds(entries: seq<TarEntry>, rule: BundleFault) {
    match rule
    case ManifestNotFirst => ManifestFirst(entries)
    case DuplicatePath => DistinctPaths(entries)
    case PathNotAllowed => AllAllowed(entries)
    case NotInOrder => Ascending(entries)
    case RequiredPathMissing => HasRequired(entries)
    case ParentMissing => AllParents(entries)
  }

  ghost predicate Accepted(entries: seq<TarEntry>) {
    Holds(entries, ManifestNotFirst) && Holds(entries, DuplicatePath) && Holds(entries, PathNotAllowed) &&
    Holds(entries, NotInOrder) && Holds(entries, RequiredPathMissing) && Holds(entries, ParentMissing)
  }

  // ---- the checks as they run ----

  /** Every directory above every entry is an entry itself. */
  method RequireParentDirectories(entries: seq<TarEntry>) returns (ok: bool)
    requires AllAllowed(entries)
    ensures ok <==> AllParents(entries)
  {
    hide AllowedPath, Split, Kept, Join;
    var paths := PathsOf(entries);
    var i := 0;
    while i < |entries|
      invariant 0 <= i <= |entries|
      invariant forall k :: 0 <= k < i ==> ParentsIn(paths, PartsOf(entries[k]))
    {
      var parts := PartsOf(entries[i]);
      var parent := if parts == [] then [] else parts[..|parts| - 1];
      while parent != []
        invariant |parent| <= |parts| && parent == parts[..|parent|]
        invariant parts == [] ==> parent == []
        invariant parts != [] ==> |parent| < |parts|
        invariant forall n :: |parent| < n < |parts| ==> Join(parts[..n], SLASH) + [SLASH] in paths
        decreases |parent|
      {
        if Join(parent, SLASH) + [SLASH] !in paths {
          assert parent == parts[..|parent|];
          assert !ParentsIn(paths, parts);
          return false;
        }
        parent := parent[..|parent| - 1];
      }
      i := i + 1;
    }
    return true;
  }

  method ValidateInputBundle(entries: seq<TarEntry>) returns (fault: Option<BundleFault>)
    ensures fault == None <==> Accepted(entries)
    ensures fault.Some? ==> !Holds(entries, fault.value)
  {
    hide AllowedPath, Less, ParentsIn, HasRequired;
    if entries == [] || entries[0].path != MANIFEST {
      return Some(ManifestNotFirst);
    }
    var seen: set<Bytes> := {};
    var previous: Option<Bytes> := None;
    var index := 0;
    while index < |entries|
      invariant 0 <= index <= |entries|
      invariant seen == PathsOf(entries[..index])
      invariant previous == if index > 1 then Some(entries[index - 1].path) else None
      invariant DistinctPaths(entries[..index]) && AllAllowed(entries[..index]) && Ascending(entries[..index])
    {
      var entry := entries[index];
      if entry.path in seen {
        Repeated(entries, index);
        return Some(DuplicatePath);
      }
      if !AllowedPath(entry) {
        return Some(PathNotAllowed);
      }
      if index > 1 && previous.Some? && !Less(previous.value, entry.path) {
        OutOfOrder(entries, index);
        return Some(NotInOrder);
      }
      OneMore(entries, index);
      seen := seen + {entry.path};
      if index > 0 {
        previous := Some(entry.path);
      }
      index := index + 1;
    }
    assert entries[..index] == entries;
    if !({MANIFEST, SNAPSHOT, HISTORY} <= seen) {
      assert !HasRequired(entries) by { RequiredMeans(entries); }
      return Some(RequiredPathMissing);
    }
    RequiredMeans(entries);
    var closed := RequireParentDirectories(entries);
    if !closed {
      return Some(ParentMissing);
    }
    return None;
  }

  lemma RequiredMeans(entries: seq<TarEntry>)
    ensures HasRequired(entries) <==> {MANIFEST, SNAPSHOT, HISTORY} <= PathsOf(entries)
  {
  }

  lemma Repeated(entries: seq<TarEntry>, index: nat)
    requires index < |entries| && entries[index].path in PathsOf(entries[..index])
    ensures !DistinctPaths(entries)
  {
    var i :| 0 <= i < index && entries[..index][i].path == entries[index].path;
    assert entries[i].path == entries[index].path;
  }

  lemma OutOfOrder(entries: seq<TarEntry>, index: nat)
    requires 1 < index < |entries| && !Less(entries[index - 1].path, entries[index].path)
    ensures !Ascending(entries)
  {
  }

  lemma OneMore(entries: seq<TarEntry>, index: nat)
    requires index < |entries| && entries[index].path !in PathsOf(entries[..index])
    requires DistinctPaths(entries[..index]) && AllAllowed(entries[..index]) && Ascending(entries[..index])
    requires AllowedPath(entries[index]) && (index > 1 ==> Less(entries[index - 1].path, entries[index].path))
    ensures PathsOf(entries[..index + 1]) == PathsOf(entries[..index]) + {entries[index].path}
    ensures DistinctPaths(entries[..index + 1]) && AllAllowed(entries[..index + 1]) && Ascending(entries[..index + 1])
  {
    OneMorePath(entries, index);
    OneMoreInOrder(entries, index);
    hide AllowedPath, Less, Ascending;
    var before, after := entries[..index], entries[..index + 1];
    assert forall i :: 0 <= i < index ==> after[i] == before[i] && before[i].path in PathsOf(before);
    hide PathsOf;
  }

  lemma OneMoreInOrder(entries: seq<TarEntry>, index: nat)
    requires index < |entries| && Ascending(entries[..index])
    requires index > 1 ==> Less(entries[index - 1].path, entries[index].path)
    ensures Ascending(entries[..index + 1])
  {
    hide Less;
    var before, after := entries[..index], entries[..index + 1];
    assert forall i :: 0 <= i < index ==> after[i] == before[i];
    forall i | 1 <= i < index ensures Less(after[i].path, after[index].path) {
      if i < index - 1 {
        assert Less(before[i].path, before[index - 1].path);
        LessTransitive(entries[i].path, entries[index - 1].path, entries[index].path);
      }
    }
  }

  lemma OneMorePath(entries: seq<TarEntry>, index: nat)
    requires index < |entries|
    ensures PathsOf(entries[..index + 1]) == PathsOf(entries[..index]) + {entries[index].path}
  {
    var before, after := entries[..index], entries[..index + 1];
    assert forall i :: 0 <= i < index ==> after[i] == before[i];
    forall p ensures p in PathsOf(after) <==> p in PathsOf(before) + {entries[index].path} {
      if p in PathsOf(after) {
        var i :| 0 <= i < |after| && after[i].path == p;
        assert i < index ==> before[i].path == p;
      }
      if p in PathsOf(before) {
        var i :| 0 <= i < |before| && before[i].path == p;
        assert after[i].path == p;
      }
      assert after[index].path == entries[index].path;
    }
  }

  // ---- what acceptance gives ----

  ghost predicate SameEntries(p: seq<TarEntry>, q: seq<TarEntry>) {
    forall e :: e in p <==> e in q
  }

  /** Two accepted bundles with the same entries are the same sequence. */
  lemma AcceptedIsCanonical(p: seq<TarEntry>, q: seq<TarEntry>)
    requires Accepted(p) && Accepted(q) && SameEntries(p, q)
    ensures p == q
  {
    hide Less, AllowedPath, ParentsIn, HasRequired;
    assert Holds(p, ManifestNotFirst) && Holds(q, ManifestNotFirst);
    assert Holds(p, DuplicatePath) && Holds(q, DuplicatePath);
    assert Holds(p, NotInOrder) && Holds(q, NotInOrder);
    assert p[0] in q && q[0] in p;
    assert p[0] == q[0];
    TailEntries(p, q);
    TailEntries(q, p);
    AscendingOnce(p[1..], q[1..]);
    assert p == [p[0]] + p[1..] && q == [q[0]] + q[1..];
  }

  lemma TailEntries(p: seq<TarEntry>, q: seq<TarEntry>)
    requires p != [] && q != [] && p[0] == q[0] && DistinctPaths(p) && SameEntries(p, q)
    ensures forall e :: e in p[1..] ==> e in q[1..]
    ensures Ascending(p) ==> Sorted(p[1..])
  {
    hide Less;
    forall e | e in p[1..] ensures e in q[1..] {
      assert e in p && e in q;
      assert e != q[0];
    }
  }

  ghost predicate Sorted(p: seq<TarEntry>) {
    forall i, j :: 0 <= i < j < |p| ==> Less(p[i].path, p[j].path)
  }

  lemma {:induction false} AscendingOnce(p: seq<TarEntry>, q: seq<TarEntry>)
    requires Sorted(p) && Sorted(q) && SameEntries(p, q)
    ensures p == q
  {
    hide Less;
    SameEmptiness(p, q);
    if p != [] {
      SameFirst(p, q);
      SortedTail(p, q);
      SortedTail(q, p);
      AscendingOnce(p[1..], q[1..]);
      assert p == [p[0]] + p[1..] && q == [q[0]] + q[1..];
    }
  }

  lemma SameEmptiness(p: seq<TarEntry>, q: seq<TarEntry>)
    requires SameEntries(p, q)
    ensures p == [] <==> q == []
  {
    assert p != [] ==> p[0] in q;
    assert q != [] ==> q[0] in p;
  }

  lemma SameFirst(p: seq<TarEntry>, q: seq<TarEntry>)
    requires p != [] && q != [] && Sorted(p) && Sorted(q) && SameEntries(p, q)
    ensures p[0] == q[0]
  {
    hide Less;
    assert p[0] in q && q[0] in p;
    var i :| 0 <= i < |q| && q[i] == p[0];
    var j :| 0 <= j < |p| && p[j] == q[0];
    LessTotal(p[0].path, q[0].path);
  }

  lemma SortedTail(p: seq<TarEntry>, q: seq<TarEntry>)
    requires p != [] && q != [] && p[0] == q[0] && Sorted(p) && SameEntries(p, q)
    ensures Sorted(p[1..]) && forall e :: e in p[1..] ==> e in q[1..]
  {
    hide Less;
    forall e | e in p[1..] ensures e in q[1..] {
      assert e in p;
      var i :| 0 <= i < |p[1..]| && p[1..][i] == e;
      assert Less(p[0].path, p[i + 1].path);
      LessTotal(p[0].path, e.path);
      assert e != q[0];
    }
  }

  // ---- parents precede their children ----

  lemma {:induction false} KeptAll(parts: seq<Bytes>)
    requires SafeParts(parts)
    ensures Kept(parts) == parts
  {
    if parts != [] {
      KeptAll(parts[..|parts| - 1]);
      assert parts == parts[..|parts| - 1] + [parts[|parts| - 1]];
    }
  }

  /** In an accepted bundle of safe paths, every directory that a path runs through is an earlier entry. */
  lemma ParentsPrecede(entries: seq<TarEntry>, i: nat, at: nat)
    requires Accepted(entries) && SafePaths(entries) && i < |entries|
    requires at + 1 < |entries[i].path| && entries[i].path[at] == SLASH
    ensures exists j :: 0 < j < i && entries[j].path == entries[i].path[..at + 1] && entries[j].kind == Directory
  {
    hide Less, AllowedPath, HasRequired, Split, Kept, Join;
    var e := entries[i];
    assert Holds(entries, ParentMissing) && Holds(entries, ManifestNotFirst) && Holds(entries, NotInOrder);
    var parent := e.path[..at + 1];
    ParentIsEntry(entries, i, at);
    var j :| 0 <= j < |entries| && entries[j].path == parent;
    assert parent[|parent| - 1] == SLASH;
    assert SafePath(entries[j]);
    ManifestHasNoSlash(entries[0], e);
    assert j != 0 && i != 0;
    assert e.path[..|parent|] == parent;
    PrefixIsLess(parent, e.path);
    LessTotal(parent, e.path);
    assert j < i;
  }

  lemma ManifestHasNoSlash(first: TarEntry, e: TarEntry)
    requires first.path == MANIFEST
    ensures forall k :: 0 <= k < |first.path| ==> first.path[k] != SLASH
  {
  }

  lemma ParentIsEntry(entries: seq<TarEntry>, i: nat, at: nat)
    requires AllParents(entries) && SafePaths(entries) && i < |entries|
    requires at + 1 < |entries[i].path| && entries[i].path[at] == SLASH
    ensures entries[i].path[..at + 1] in PathsOf(entries)
  {
    hide Split, Kept, Join, PathsOf;
    var e := entries[i];
    var value := WithoutSlash(e.path);
    assert SafePath(e);
    assert SafeParts(Split(value, SLASH));
    KeptAll(Split(value, SLASH));
    var n := SplitAt(value, SLASH, at);
    assert Join(PartsOf(e)[..n], SLASH) == value[..at];
    assert value[..at] + [SLASH] == e.path[..at + 1];
  }
}
