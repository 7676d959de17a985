/** Splitting a path at its slashes and joining it again, for any alphabet. */
module PathText {

  function LastSlash<T(==)>(path: seq<T>, slash: T): (at: int)
    ensures -1 <= at < |path|
    ensures at >= 0 ==> path[at] == slash
    ensures forall i :: at < i < |path| ==> path[i] != slash
    ensures at < 0 <==> slash !in path
  {
    if path == [] then -1
    else if path[|path| - 1] == slash then |path| - 1
    else LastSlash(path[..|path| - 1], slash)
  }

  function Split<T(==)>(path: seq<T>, slash: T): (parts: seq<seq<T>>)
    ensures |parts| >= 1
    decreases |path|
  {
    var at := LastSlash(path, slash);
    if at < 0 then [path] else Split(path[..at], slash) + [path[at + 1..]]
  }

  function Join<T>(parts: seq<seq<T>>, slash: T): seq<T> {
    if parts == [] then []
    else if |parts| == 1 then parts[0]
    else Join(parts[..|parts| - 1], slash) + [slash] + parts[|parts| - 1]
  }

  ghost predicate NoSlash<T>(parts: seq<seq<T>>, slash: T) {
    forall i :: 0 <= i < |parts| ==> slash !in parts[i]
  }

  lemma {:induction false} JoinSplit<T>(path: seq<T>, slash: T)
    ensures Join(Split(path, slash), slash) == path
    decreases |path|
  {
    var at := LastSlash(path, slash);
    if at >= 0 {
      JoinSplit(path[..at], slash);
      var parts := Split(path, slash);
      assert parts[..|parts| - 1] == Split(path[..at], slash);
      assert path == path[..at] + [slash] + path[at + 1..];
    }
  }

  lemma {:induction false} LastSlashIs<T>(front: seq<T>, back: seq<T>, slash: T)
    requires slash !in back
    ensures LastSlash(front + [slash] + back, slash) == |front|
    decreases |back|
  {
    var path := front + [slash] + back;
    if back == [] {
      assert path[|path| - 1] == slash;
    } else {
      var shorter := back[..|back| - 1];
      LastSlashIs(front, shorter, slash);
      assert path[..|path| - 1] == front + [slash] + shorter;
      assert path[|path| - 1] == back[|back| - 1];
    }
  }

  lemma {:induction false} SplitJoin<T>(parts: seq<seq<T>>, slash: T)
    requires parts != [] && NoSlash(parts, slash)
    ensures Split(Join(parts, slash), slash) == parts
  {
    var front, last := parts[..|parts| - 1], parts[|parts| - 1];
    assert parts == front + [last];
    assert slash !in last;
    if |parts| > 1 {
      assert NoSlash(front, slash);
      SplitJoin(front, slash);
      LastSlashIs(Join(front, slash), last, slash);
      var path := Join(parts, slash);
      assert path == Join(front, slash) + [slash] + last;
      assert path[..|Join(front, slash)|] == Join(front, slash) && path[|Join(front, slash)| + 1..] == last;
    }
  }

  lemma SplitLast<T>(front: seq<T>, back: seq<T>, slash: T)
    requires slash !in back
    ensures Split(front + [slash] + back, slash) == Split(front, slash) + [back]
  {
    LastSlashIs(front, back, slash);
    var path := front + [slash] + back;
    assert path[..|front|] == front && path[|front| + 1..] == back;
  }

  lemma SplitAlone<T>(path: seq<T>, slash: T)
    requires slash !in path
    ensures Split(path, slash) == [path]
  {
  }

  lemma {:induction false} SplitConcat<T>(x: seq<T>, y: seq<T>, slash: T)
    ensures Split(x + [slash] + y, slash) == Split(x, slash) + Split(y, slash)
    decreases |y|
  {
    hide Split;
    var at := LastSlash(y, slash);
    if at < 0 {
      SplitAlone(y, slash);
      SplitLast(x, y, slash);
    } else {
      var front, back := y[..at], y[at + 1..];
      assert forall i :: 0 <= i < |back| ==> back[i] == y[at + 1 + i];
      SplitConcat(x, front, slash);
      SplitLast(front, back, slash);
      SplitLast(x + [slash] + front, back, slash);
      assert y == front + [slash] + back;
      assert x + [slash] + y == x + [slash] + front + [slash] + back;
    }
  }

  lemma {:induction false} SplitHasNoSlash<T>(path: seq<T>, slash: T)
    ensures NoSlash(Split(path, slash), slash)
    decreases |path|
  {
    var at := LastSlash(path, slash);
    if at >= 0 {
      SplitHasNoSlash(path[..at], slash);
    }
  }

  lemma {:induction false} JoinConcat<T>(a: seq<seq<T>>, b: seq<seq<T>>, slash: T)
    requires a != [] && b != []
    ensures Join(a + b, slash) == Join(a, slash) + [slash] + Join(b, slash)
    decreases |b|
  {
    assert (a + b)[..|a + b| - 1] == a + b[..|b| - 1];
    if |b| > 1 {
      JoinConcat(a, b[..|b| - 1], slash);
    } else {
      assert a + b[..0] == a;
    }
  }

  /** The part of a path before one of its slashes is some of its parts, joined. */
  lemma {:induction false} SplitAt<T>(path: seq<T>, slash: T, at: nat) returns (n: nat)
    requires at < |path| && path[at] == slash
    ensures 0 < n < |Split(path, slash)| && Join(Split(path, slash)[..n], slash) == path[..at]
  {
    var front, back := path[..at], path[at + 1..];
    assert path == front + [slash] + back;
    SplitConcat(front, back, slash);
    JoinSplit(front, slash);
    n := |Split(front, slash)|;
    assert Split(path, slash)[..n] == Split(front, slash);
  }
}
