/** What the input-bundle profile means: the order of its paths by byte, and its files part by part. */
module BundleMeaning {
  import opened Basics
  import opened PaxRecord
  import opened TarHeader
  import opened PathText
  import opened InputBundle

  /** Less at the first difference, or a proper prefix. */
  ghost predicate DiffersBelow(a: Bytes, b: Bytes, n: nat) {
    n <= |a| && n < |b| && a[..n] == b[..n] && (n == |a| || a[n] < b[n])
  }

  /** The order of paths is the one by byte, a prefix first. */
  lemma {:induction false} LessMeans(a: Bytes, b: Bytes)
    ensures Less(a, b) <==> exists n: nat :: DiffersBelow(a, b, n)
  {
    if b != [] {
      if a == [] || a[0] < b[0] {
        assert DiffersBelow(a, b, 0);
      } else if a[0] == b[0] {
        LessMeans(a[1..], b[1..]);
        assert a == [a[0]] + a[1..] && b == [b[0]] + b[1..];
        if n: nat :| DiffersBelow(a[1..], b[1..], n) {
          assert a[..n + 1] == [a[0]] + a[1..][..n] && b[..n + 1] == [b[0]] + b[1..][..n];
          assert DiffersBelow(a, b, n + 1);
        }
        if n: nat :| DiffersBelow(a, b, n) {
          assert n > 0;
          assert a[1..][..n - 1] == a[..n][1..] && b[1..][..n - 1] == b[..n][1..];
          assert DiffersBelow(a[1..], b[1..], n - 1);
        }
      } else {
        forall n: nat ensures !DiffersBelow(a, b, n) {
          assert n > 0 && n <= |a| && n < |b| ==> a[..n][0] != b[..n][0];
        }
      }
    }
  }

  /** The bytes of an ASCII text. */
  function Ascii(text: string): (b: Bytes)
    requires forall i :: 0 <= i < |text| ==> text[i] as int < 128
    ensures |b| == |text|
  {
    seq(|text|, i requires 0 <= i < |text| => text[i] as int)
  }

  lemma NamesAreSpelled()
    ensures MANIFEST == Ascii("manifest.json") && SNAPSHOT == Ascii("workspace.snapshot.tar")
    ensures HISTORY == Ascii("history/") && WINDOW == Ascii("incremental-window/")
  {
  }

  /** A directory's name, or a path below it. */
  lemma FirstPart(v: Bytes, name: Bytes)
    requires SLASH !in name
    ensures Split(v, SLASH)[0] == name <==> v == name || StartsWith(v, name + [SLASH])
    ensures |Split(v, SLASH)| == 1 <==> SLASH !in v
  {
    JoinSplit(v, SLASH);
    SplitHasNoSlash(v, SLASH);
    if SLASH in v {
      var parts := Split(v, SLASH);
      MoreParts(v);
      JoinConcat(parts[..1], parts[1..], SLASH);
      assert parts[..1] + parts[1..] == parts && Join(parts[..1], SLASH) == parts[0];
      if StartsWith(v, name + [SLASH]) {
        var rest := v[|name| + 1..];
        assert v == name + [SLASH] + rest;
        SplitConcat(name, rest, SLASH);
        SplitAlone(name, SLASH);
      }
    } else {
      SplitAlone(v, SLASH);
      if StartsWith(v, name + [SLASH]) {
        LastOfPrefix(v, name + [SLASH]);
        assert false;
      }
    }
  }

  lemma LastOfPrefix(v: Bytes, prefix: Bytes)
    requires prefix != [] && StartsWith(v, prefix)
    ensures prefix[|prefix| - 1] in v
  {
    assert v[|prefix| - 1] == v[..|prefix|][|prefix| - 1];
  }

  lemma MoreParts(v: Bytes)
    requires SLASH in v
    ensures |Split(v, SLASH)| > 1
  {
  }

  /** The two files at the top and everything in the two directories. */
  ghost predicate InProfile(e: TarEntry) {
    (e.kind == RegularFile && (e.path == Ascii("manifest.json") || e.path == Ascii("workspace.snapshot.tar"))) ||
    ((e.kind == RegularFile || e.kind == Directory) &&
     (BelowRoot(e, Ascii("history")) || BelowRoot(e, Ascii("incremental-window"))))
  }

  /** In the directory, told from the text. */
  ghost predicate InRoot(e: TarEntry, root: Bytes) {
    if e.path == root then e.kind == Directory else StartsWith(e.path, root)
  }

  lemma AllowedCases(e: TarEntry)
    ensures AllowedPath(e) <==>
            (e.kind == RegularFile && (e.path == MANIFEST || e.path == SNAPSHOT)) ||
            (e.path != MANIFEST && e.path != SNAPSHOT && (e.kind == RegularFile || e.kind == Directory) &&
             (InRoot(e, HISTORY) || InRoot(e, WINDOW)))
  {
    OtherRoot(e);
    hide StartsWith;
  }

  /** A safe path is allowed exactly when, part by part, it is one of the profile's. */
  lemma AllowedMeans(e: TarEntry)
    requires SafePath(e)
    ensures AllowedPath(e) <==> InProfile(e)
  {
    hide SafePath, AllowedPath, BelowRoot, InRoot, Ascii;
    NamesAreSpelled();
    RootsAreSpelled();
    AllowedCases(e);
    PartsDecide(e, Ascii("history"));
    PartsDecide(e, Ascii("incremental-window"));
    PlainName(e, MANIFEST);
    PlainName(e, SNAPSHOT);
    OtherRoot(e);
  }

  lemma RootsAreSpelled()
    ensures HISTORY == Ascii("history") + [SLASH] && WINDOW == Ascii("incremental-window") + [SLASH]
    ensures SLASH !in Ascii("history") && SLASH !in Ascii("incremental-window")
    ensures Ascii("history") != [] && Ascii("incremental-window") != []
    ensures MANIFEST[|MANIFEST| - 1] != SLASH && SNAPSHOT[|SNAPSHOT| - 1] != SLASH
  {
    assert Ascii("history") == [0x68, 0x69, 0x73, 0x74, 0x6F, 0x72, 0x79];
    assert Ascii("incremental-window") ==
           [0x69, 0x6E, 0x63, 0x72, 0x65, 0x6D, 0x65, 0x6E, 0x74, 0x61, 0x6C, 0x2D, 0x77, 0x69, 0x6E, 0x64, 0x6F, 0x77];
  }

  /** In the directory, told from the parts. */
  ghost predicate BelowRoot(e: TarEntry, name: Bytes) {
    PartsOf(e) != [] && PartsOf(e)[0] == name && (|PartsOf(e)| == 1 ==> e.kind == Directory)
  }

  /** The two directories' paths differ. */
  lemma OtherRoot(e: TarEntry)
    ensures !(StartsWith(e.path, HISTORY) && StartsWith(e.path, WINDOW))
    ensures e.path == HISTORY ==> StartsWith(e.path, HISTORY)
    ensures e.path == WINDOW ==> StartsWith(e.path, WINDOW)
    ensures e.path == MANIFEST || e.path == SNAPSHOT ==>
              !InRoot(e, HISTORY) && !InRoot(e, WINDOW)
  {
    assert StartsWith(e.path, HISTORY) ==> e.path[0] == e.path[..|HISTORY|][0] == 0x68;
    assert StartsWith(e.path, WINDOW) ==> e.path[0] == e.path[..|WINDOW|][0] == 0x69;
  }

  lemma PartsDecide(e: TarEntry, name: Bytes)
    requires SafePath(e) && SLASH !in name && name != []
    ensures BelowRoot(e, name) <==> InRoot(e, name + [SLASH])
  {
    SafeEntryStaysInside(e, 0);
    FirstPart(WithoutSlash(e.path), name);
    RootDecides(e, name);
    hide SafePath, Split, Kept, WithoutSlash;
  }

  /** The path is the directory itself or lies below it, told from the text and from the parts. */
  lemma RootDecides(e: TarEntry, name: Bytes)
    requires SafePath(e) && SLASH !in name && name != []
    ensures var v := WithoutSlash(e.path);
            (v == name || StartsWith(v, name + [SLASH])) && (SLASH !in v ==> e.kind == Directory) <==>
            InRoot(e, name + [SLASH])
  {
    SlashMeans(e);
    hide SafePath, WithoutSlash;
    var v := WithoutSlash(e.path);
    if e.kind == Directory {
      DirectoryBelow(v, name);
    } else {
      FileBelow(v, name);
    }
  }

  lemma SlashMeans(e: TarEntry)
    requires SafePath(e)
    ensures if e.kind == Directory then e.path == WithoutSlash(e.path) + [SLASH]
            else e.path == WithoutSlash(e.path) && e.path != [] && e.path[|e.path| - 1] != SLASH
  {
    hide Split, SafeParts;
    assert e.path == e.path[..|e.path| - 1] + [e.path[|e.path| - 1]];
  }

  lemma DirectoryBelow(v: Bytes, name: Bytes)
    ensures v == name || StartsWith(v, name + [SLASH]) <==> StartsWith(v + [SLASH], name + [SLASH])
  {
    var root, path := name + [SLASH], v + [SLASH];
    if |v| > |name| {
      assert path[..|root|] == v[..|root|];
    } else if |v| == |name| {
      assert path[..|root|] == path;
      assert path == root ==> path[..|v|] == root[..|name|];
    }
  }

  lemma FileBelow(v: Bytes, name: Bytes)
    requires SLASH !in name && v != [] && v[|v| - 1] != SLASH
    ensures v != name + [SLASH]
    ensures StartsWith(v, name + [SLASH]) ==> SLASH in v
  {
    if StartsWith(v, name + [SLASH]) {
      LastOfPrefix(v, name + [SLASH]);
    }
  }

  lemma PlainName(e: TarEntry, name: Bytes)
    requires SafePath(e) && name != [] && name[|name| - 1] != SLASH
    ensures e.path == name ==> e.kind != Directory
  {
  }

  // ---- safe paths, written out ----

  /** A path put together from parts that are names, with a slash behind a directory's. */
  ghost predicate SpelledBy(e: TarEntry, parts: seq<Bytes>) {
    parts != [] && NoSlash(parts, SLASH) &&
    (forall i :: 0 <= i < |parts| ==> parts[i] != [] && parts[i] != [0x2E] && parts[i] != [0x2E, 0x2E]) &&
    e.path == Join(parts, SLASH) + if e.kind == Directory then [SLASH] else []
  }

  /**
   * A path is safe exactly when it is spelled by parts other than `.` and `..`, with a slash at the end
   * for directories alone, and has no backslash and no NUL.
   */
  lemma SafeMeans(e: TarEntry)
    ensures SafePath(e) <==> (exists parts :: SpelledBy(e, parts)) && 0x5C !in e.path && 0 !in e.path
  {
    if SafePath(e) {
      var v := if e.kind == Directory then e.path[..|e.path| - 1] else e.path;
      JoinSplit(v, SLASH);
      SplitHasNoSlash(v, SLASH);
      SlashMeans(e);
      hide Split, Join;
      assert SpelledBy(e, Split(v, SLASH));
    }
    if parts :| SpelledBy(e, parts) && 0x5C !in e.path && 0 !in e.path {
      SpelledIsSafe(e, parts);
    }
  }

  lemma SpelledIsSafe(e: TarEntry, parts: seq<Bytes>)
    requires SpelledBy(e, parts) && 0x5C !in e.path && 0 !in e.path
    ensures SafePath(e)
  {
    var v := Join(parts, SLASH);
    SplitJoin(parts, SLASH);
    JoinEnds(parts);
    hide Split, Join;
    if e.kind == Directory {
      assert e.path[..|e.path| - 1] == v;
    } else {
      assert e.path == v;
    }
  }

  /** Neither end of joined names is a slash. */
  lemma {:induction false} JoinEnds(parts: seq<Bytes>)
    requires parts != [] && NoSlash(parts, SLASH) && forall i :: 0 <= i < |parts| ==> parts[i] != []
    ensures var v := Join(parts, SLASH); v != [] && v[0] != SLASH && v[|v| - 1] != SLASH
    decreases |parts|
  {
    assert parts[|parts| - 1] != [] && parts[0] != [];
    assert parts[|parts| - 1][|parts[|parts| - 1]| - 1] in parts[|parts| - 1];
    if |parts| > 1 {
      JoinEnds(parts[..|parts| - 1]);
    } else {
      assert parts[0][0] in parts[0];
    }
  }

  /** What a path object keeps of an entry's path: every part but the empty ones and `.`. */
  lemma {:induction false} KeptMeans(parts: seq<Bytes>)
    ensures forall p :: p in Kept(parts) <==> p in parts && p != [] && p != [0x2E]
    ensures |Kept(parts)| <= |parts|
  {
    if parts != [] {
      var n := |parts| - 1;
      KeptMeans(parts[..n]);
      assert parts == parts[..n] + [parts[n]];
    }
  }
}
