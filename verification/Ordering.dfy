/** The one total order the catalog sorts by: `(created_at, extraction_id)`, ids by code unit. */
module Ordering {
  import opened Basics

  predicate TextLess(a: string, b: string) {
    if b == [] then false
    else if a == [] then true
    else if a[0] != b[0] then a[0] < b[0]
    else TextLess(a[1..], b[1..])
  }

  lemma {:induction false} TextLessTransitive(a: string, b: string, c: string)
    requires TextLess(a, b) && TextLess(b, c)
    ensures TextLess(a, c)
  {
    if a != [] && b != [] && c != [] && a[0] == b[0] == c[0] {
      TextLessTransitive(a[1..], b[1..], c[1..]);
    }
  }

  lemma {:induction false} TextLessTotal(a: string, b: string)
    ensures a == b || TextLess(a, b) || TextLess(b, a)
    ensures !(TextLess(a, b) && TextLess(b, a))
    ensures !TextLess(a, a)
  {
    if a != [] && b != [] && a[0] == b[0] {
      TextLessTotal(a[1..], b[1..]);
      if a[1..] == b[1..] {
        assert a == [a[0]] + a[1..];
        assert b == [b[0]] + b[1..];
      }
    }
    if a != [] {
      TextLessTotal(a[1..], a[1..]);
    }
  }

  /** Less at the first difference, or a proper prefix. */
  ghost predicate DiffersBelow(a: string, b: string, n: nat) {
    n <= |a| && n < |b| && a[..n] == b[..n] && (n == |a| || a[n] < b[n])
  }

  /** The order of texts is the one by code unit, a prefix first. */
  lemma {:induction false} TextLessMeans(a: string, b: string)
    ensures TextLess(a, b) <==> exists n: nat :: DiffersBelow(a, b, n)
  {
    if b != [] {
      if a == [] || a[0] < b[0] {
        assert DiffersBelow(a, b, 0);
      } else if a[0] == b[0] {
        TextLessMeans(a[1..], b[1..]);
        assert a == [a[0]] + a[1..] && b == [b[0]] + b[1..];
        if n: nat :| DiffersBelow(a[1..], b[1..], n) {
          assert a[..n + 1] == [a[0]] + a[1..][..n] && b[..n + 1] == [b[0]] + b[1..][..n];
          assert DiffersBelow(a, b, n + 1);
        }
        if n: nat :| DiffersBelow(a, b, n) {
          assert n > 0;
          assert a[1..][..n - 1] == a[..n][1..] && b[1..][..n - 1] == b[..n][1..];
          assert DiffersBelow(a[1..], b[1..], n - 1);
        }
      } else {
        forall n: nat ensures !DiffersBelow(a, b, n) {
          assert n > 0 && n <= |a| && n < |b| ==> a[..n][0] != b[..n][0];
        }
      }
    }
  }

  datatype Key = Key(at: int, id: string)

  predicate Before(a: Key, b: Key) {
    a.at < b.at || (a.at == b.at && TextLess(a.id, b.id))
  }

  lemma BeforeTransitive(a: Key, b: Key, c: Key)
    requires Before(a, b) && Before(b, c)
    ensures Before(a, c)
  {
    if a.at == b.at == c.at {
      TextLessTransitive(a.id, b.id, c.id);
    }
  }

  lemma BeforeTotal(a: Key, b: Key)
    ensures a == b || Before(a, b) || Before(b, a)
    ensures !(Before(a, b) && Before(b, a))
    ensures !Before(a, a)
  {
    TextLessTotal(a.id, b.id);
    TextLessTotal(a.id, a.id);
  }

  predicate Ascending(q: seq<Key>) {
    forall i, j :: 0 <= i < j < |q| ==> Before(q[i], q[j])
  }

  function Elements<T(==)>(q: seq<T>): set<T> {
    set x | x in q
  }

  predicate Distinct<T(==)>(q: seq<T>) {
    forall i, j :: 0 <= i < j < |q| ==> q[i] != q[j]
  }

  lemma AscendingIsDistinct(q: seq<Key>)
    requires Ascending(q)
    ensures Distinct(q)
  {
    forall i, j | 0 <= i < j < |q| ensures q[i] != q[j] {
      BeforeTotal(q[i], q[j]);
    }
  }

  lemma DistinctFront<T>(q: seq<T>)
    requires q != []
    ensures Distinct(q) <==> q[0] !in q[1..] && Distinct(q[1..])
  {
    var rest := q[1..];
    assert forall i :: 0 <= i < |rest| ==> rest[i] == q[i + 1];
    if q[0] !in rest && Distinct(rest) {
      forall i, j | 0 <= i < j < |q| ensures q[i] != q[j] {
        assert q[j] == rest[j - 1];
        assert i > 0 ==> q[i] == rest[i - 1];
      }
    }
  }

  lemma ElementsFront<T>(q: seq<T>)
    requires q != []
    ensures Elements(q) == {q[0]} + Elements(q[1..])
  {
    assert q == [q[0]] + q[1..];
  }

  lemma {:induction false} DistinctCount<T>(q: seq<T>)
    ensures |Elements(q)| <= |q|
    ensures Distinct(q) <==> |Elements(q)| == |q|
  {
    if q != [] {
      DistinctCount(q[1..]);
      DistinctFront(q);
      ElementsFront(q);
      assert q[0] in q[1..] <==> q[0] in Elements(q[1..]);
      hide Distinct, Elements;
      if q[0] in q[1..] {
        assert {q[0]} + Elements(q[1..]) == Elements(q[1..]);
      }
    }
  }

  /** The ascending enumeration of a set: what `order by created_at, extraction_id` returns. */
  function Least(s: set<Key>): (k: Key)
    requires s != {}
    ensures k in s
    ensures forall x :: x in s && x != k ==> Before(k, x)
  {
    LeastExists(s);
    assert forall x, y :: x in s && y in s && Before(x, y) ==> !Before(y, x) by {
      forall x, y | x in s && y in s && Before(x, y) ensures !Before(y, x) { BeforeTotal(x, y); }
    }
    var k :| k in s && forall x :: x in s && x != k ==> Before(k, x);
    k
  }

  lemma {:induction false} LeastExists(s: set<Key>)
    requires s != {}
    ensures exists k :: k in s && forall x :: x in s && x != k ==> Before(k, x)
  {
    var x :| x in s;
    if s == {x} {
      assert x in s && forall y :: y in s && y != x ==> Before(x, y);
    } else {
      var rest := s - {x};
      assert s == rest + {x};
      LeastExists(rest);
      var k :| k in rest && forall y :: y in rest && y != k ==> Before(k, y);
      BeforeTotal(k, x);
      if Before(k, x) {
        assert forall y :: y in s && y != k ==> Before(k, y);
      } else {
        forall y | y in s && y != x ensures Before(x, y) {
          if y != k {
            BeforeTransitive(x, k, y);
          }
        }
        assert x in s && forall y :: y in s && y != x ==> Before(x, y);
      }
    }
  }

  function Sort(s: set<Key>): (q: seq<Key>)
    ensures |q| == |s|
    ensures forall x :: x in q <==> x in s
    ensures Ascending(q)
    decreases |s|
  {
    if s == {} then []
    else
      var k := Least(s);
      [k] + Sort(s - {k})
  }

  /** An ascending sequence is determined by its elements. */
  lemma {:induction false} SortUnique(q: seq<Key>, s: set<Key>)
    requires Ascending(q)
    requires forall x :: x in q <==> x in s
    ensures q == Sort(s)
    decreases |q|
  {
    if q == [] {
      assert s == {};
    } else {
      assert q[0] in q;
      var k := Least(s);
      assert q[0] == k by {
        if q[0] != k {
          assert k in q;
          BeforeTotal(q[0], k);
        }
      }
      var rest := q[1..];
      assert q == [k] + rest;
      forall x ensures x in rest <==> x in s - {k} {
        if x in s - {k} {
          assert x in q;
        }
        if x in rest {
          assert x in q;
          BeforeTotal(k, x);
        }
      }
      assert Ascending(rest) by {
        assert forall i, j :: 0 <= i < j < |rest| ==> rest[i] == q[i + 1] && rest[j] == q[j + 1];
      }
      SortUnique(rest, s - {k});
    }
  }

  lemma SortSplit(s: set<Key>, n: nat)
    requires n <= |s|
    ensures Sort(s)[..n] == Sort(Elements(Sort(s)[..n]))
    ensures Sort(s)[n..] == Sort(s - Elements(Sort(s)[..n]))
    ensures |Elements(Sort(s)[..n])| == n
    ensures Elements(Sort(s)[..n]) <= s
  {
    hide Before, Sort, Ascending;
    var q := Sort(s);
    AscendingIsDistinct(q);
    AscendingParts(q, n);
    DistinctParts(q, n);
    hide Distinct;
    SortUnique(q[..n], Elements(q[..n]));
    forall x ensures x in q[n..] <==> x in s - Elements(q[..n]) {
      assert x in q <==> x in q[..n] || x in q[n..];
    }
    hide Elements;
    SortUnique(q[n..], s - Elements(q[..n]));
  }

  lemma AscendingParts(q: seq<Key>, n: nat)
    requires n <= |q| && Ascending(q)
    ensures Ascending(q[..n]) && Ascending(q[n..])
  {
    hide Before;
  }

  lemma DistinctParts(q: seq<Key>, n: nat)
    requires n <= |q| && Distinct(q)
    ensures |Elements(q[..n])| == n
    ensures forall x :: x in q[..n] ==> x !in q[n..]
    ensures forall x :: x in q <==> x in q[..n] || x in q[n..]
  {
    DistinctCount(q[..n]);
    assert q == q[..n] + q[n..];
  }

  // ---- `[...ids].sort()`: sorting a list keeps repetitions ----

  function InsertText(x: string, q: seq<string>): seq<string> {
    if q == [] || !TextLess(q[0], x) then [x] + q
    else [q[0]] + InsertText(x, q[1..])
  }

  function SortList(q: seq<string>): seq<string> {
    if q == [] then [] else InsertText(q[0], SortList(q[1..]))
  }

  ghost predicate WeaklyAscending(q: seq<string>) {
    forall i, j :: 0 <= i < j < |q| ==> !TextLess(q[j], q[i])
  }

  lemma {:induction false} InsertTextElements(x: string, q: seq<string>)
    ensures multiset(InsertText(x, q)) == multiset(q) + multiset{x}
  {
    if q != [] && TextLess(q[0], x) {
      InsertTextElements(x, q[1..]);
      assert q == [q[0]] + q[1..];
    }
  }

  lemma {:induction false} InsertTextAscends(x: string, q: seq<string>)
    requires WeaklyAscending(q)
    ensures WeaklyAscending(InsertText(x, q))
  {
    if q == [] || !TextLess(q[0], x) {
      forall y | y in q ensures !TextLess(y, x) {
        NotLessTransitive(y, q, x);
      }
      hide WeaklyAscending, TextLess;
      PrependAscends(x, q);
    } else {
      TailAscends(q);
      var rest := q[1..];
      InsertTextElements(x, rest);
      TextLessTotal(q[0], x);
      hide WeaklyAscending, TextLess;
      InsertTextAscends(x, rest);
      forall y | y in InsertText(x, rest) ensures !TextLess(y, q[0]) {
        assert y in multiset(InsertText(x, rest));
      }
      PrependAscends(q[0], InsertText(x, rest));
    }
  }

  lemma PrependAscends(x: string, q: seq<string>)
    requires WeaklyAscending(q) && forall y :: y in q ==> !TextLess(y, x)
    ensures WeaklyAscending([x] + q)
  {
    hide TextLess;
  }

  lemma TailAscends(q: seq<string>)
    requires q != [] && WeaklyAscending(q)
    ensures WeaklyAscending(q[1..]) && forall y :: y in q[1..] ==> !TextLess(y, q[0])
  {
    hide TextLess;
  }

  lemma NotLessTransitive(y: string, q: seq<string>, x: string)
    requires WeaklyAscending(q) && y in q && !TextLess(q[0], x)
    ensures !TextLess(y, x)
  {
    TextLessTotal(q[0], y);
    if q[0] != y && TextLess(y, x) {
      TextLessTransitive(q[0], y, x);
    }
  }

  lemma {:induction false} SortListFacts(q: seq<string>)
    ensures WeaklyAscending(SortList(q))
    ensures multiset(SortList(q)) == multiset(q)
    ensures |SortList(q)| == |q|
    ensures Elements(SortList(q)) == Elements(q)
  {
    hide WeaklyAscending, InsertText;
    if q == [] {
      NothingAscends();
    } else {
      SortListFacts(q[1..]);
      InsertTextAscends(q[0], SortList(q[1..]));
      InsertTextElements(q[0], SortList(q[1..]));
      assert q == [q[0]] + q[1..];
    }
    SamePermutation(SortList(q), q);
  }

  lemma NothingAscends()
    ensures WeaklyAscending([])
  {
  }

  function TextKeys(q: seq<string>): (r: seq<Key>)
    ensures |r| == |q|
    ensures forall i :: 0 <= i < |q| ==> r[i] == Key(0, q[i])
  {
    seq(|q|, i requires 0 <= i < |q| => Key(0, q[i]))
  }

  function TextSet(s: set<string>): (r: set<Key>)
    ensures forall k :: k in r <==> k.at == 0 && k.id in s
  {
    var r := set id | id in s :: Key(0, id);
    assert forall k: Key :: k.at == 0 ==> k == Key(0, k.id);
    r
  }

  lemma TextKeysElements(q: seq<string>, s: set<string>)
    ensures (forall k :: k in TextKeys(q) <==> k in TextSet(s)) <==> Elements(q) == s
  {
    var keys := TextKeys(q);
    assert forall i :: 0 <= i < |q| ==> keys[i].id == q[i] && keys[i] in keys;
    if forall k :: k in keys <==> k in TextSet(s) {
      forall x ensures x in q <==> x in s {
        assert Key(0, x) in TextSet(s) <==> x in s;
      }
    }
  }

  lemma StrictlyAscendingText(q: seq<string>)
    requires WeaklyAscending(q)
    ensures Ascending(TextKeys(q)) <==> Distinct(q)
  {
    var keys := TextKeys(q);
    forall i, j | 0 <= i < j < |q|
      ensures Before(keys[i], keys[j]) <==> q[i] != q[j]
    {
      TextLessTotal(q[i], q[j]);
    }
  }

  /**
   * The replay test of a maintenance creation compares `array_agg(id order by id)` with a sorted
   * copy of the requested list; it succeeds exactly for a repetition-free list of the same ids.
   */
  lemma SortedListIsSortedSet(q: seq<string>, s: set<string>)
    ensures TextKeys(SortList(q)) == Sort(TextSet(s)) <==> Distinct(q) && Elements(q) == s
  {
    SortListFacts(q);
    var sorted := SortList(q);
    StrictlyAscendingText(sorted);
    TextKeysElements(sorted, s);
    DistinctCount(q);
    DistinctCount(sorted);
    if Distinct(q) && Elements(q) == s {
      SortUnique(TextKeys(sorted), TextSet(s));
    }
  }
}
