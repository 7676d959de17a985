/**
 * The canonical form of a JSON value and the fingerprint of an execution request. Object keys are
 * sorted with a comparator that may tie distinct keys, as `localeCompare` may.
 */
module CanonicalJson {
  import opened Basics

  /** Parsed JSON. Numbers are kept as the text that stands for them; objects keep property order. */
  datatype Json =
    | Null
    | Bool(flag: bool)
    | Number(digits: string)
    | Text(text: string)
    | Array(items: seq<Json>)
    | Object(entries: seq<Entry>)

  datatype Entry = Entry(key: string, value: Json)

  /** Keys are distinct, as in every JavaScript object. */
  ghost predicate Proper(v: Json) {
    match v
    case Array(items) => forall i :: 0 <= i < |items| ==> Proper(items[i])
    case Object(entries) =>
      DistinctKeys(entries) && forall i :: 0 <= i < |entries| ==> Proper(entries[i].value)
    case _ => true
  }

  ghost predicate DistinctKeys(q: seq<Entry>) {
    forall i, j :: 0 <= i < j < |q| ==> q[i].key != q[j].key
  }

  /** The same value, except perhaps for the order of keys in objects of any depth. */
  ghost predicate SameUpToOrder(a: Json, b: Json)
    decreases a
  {
    match a
    case Array(items) =>
      b.Array? && |items| == |b.items| && forall i :: 0 <= i < |items| ==> SameUpToOrder(items[i], b.items[i])
    case Object(entries) =>
      b.Object? && |entries| == |b.entries| &&
      forall i :: 0 <= i < |entries| ==> FoundIn(entries[i], b.entries)
    case _ => a == b
  }

  /** Some entry has this one's key and, up to order, its value. */
  ghost predicate FoundIn(e: Entry, q: seq<Entry>)
    decreases e
  {
    exists j :: 0 <= j < |q| && q[j].key == e.key && SameUpToOrder(e.value, q[j].value)
  }

  // ---- comparators ----

  type Comparator = (string, string) -> bool

  ghost predicate Preorder(le: Comparator) {
    (forall x, y :: le(x, y) || le(y, x)) &&
    forall x, y, z | le(x, y) && le(y, z) :: le(x, z)
  }

  /** Array-index keys, which JavaScript objects always enumerate first and in numeric order. */
  predicate IsIndex(key: string) {
    0 < |key| <= 10 && (forall i :: 0 <= i < |key| ==> '0' <= key[i] <= '9') && (key[0] == '0' ==> |key| == 1) &&
    Numeric(key) <= 4294967294
  }

  function Numeric(key: string): nat
    requires forall i :: 0 <= i < |key| ==> '0' <= key[i] <= '9'
  {
    if key == [] then 0 else Numeric(key[..|key| - 1]) * 10 + (key[|key| - 1] as int - '0' as int)
  }

  predicate IndexLe(x: string, y: string) {
    if IsIndex(x) && IsIndex(y) then Numeric(x) <= Numeric(y) else IsIndex(x) || !IsIndex(y)
  }

  /** No two keys that a sort has to order compare as equal. */
  ghost predicate Separates(le: Comparator) {
    forall x, y | !IsIndex(x) && !IsIndex(y) && le(x, y) && le(y, x) :: x == y
  }

  // ---- the stable sort of entries ----

  function Insert(e: Entry, q: seq<Entry>, le: Comparator): (r: seq<Entry>)
  {
    if q == [] || le(e.key, q[0].key) then [e] + q else [q[0]] + Insert(e, q[1..], le)
  }

  function StableSort(q: seq<Entry>, le: Comparator): seq<Entry> {
    if q == [] then [] else Insert(q[0], StableSort(q[1..], le), le)
  }

  ghost predicate Sorted(q: seq<Entry>, le: Comparator) {
    forall i, j :: 0 <= i < j < |q| ==> le(q[i].key, q[j].key)
  }

  function Select(q: seq<Entry>, index: bool): (r: seq<Entry>)
    ensures forall e :: e in r <==> e in q && IsIndex(e.key) == index
  {
    if q == [] then []
    else
      assert q == [q[0]] + q[1..];
      if IsIndex(q[0].key) == index then [q[0]] + Select(q[1..], index) else Select(q[1..], index)
  }

  /** `Object.fromEntries`: index keys in numeric order, then the others in the order given. */
  function FromEntries(q: seq<Entry>): seq<Entry> {
    StableSort(Select(q, true), IndexLe) + Select(q, false)
  }

  function Canonical(v: Json, le: Comparator): Json
    decreases v
  {
    match v
    case Array(items) => Array(seq(|items|, i requires 0 <= i < |items| => Canonical(items[i], le)))
    case Object(entries) =>
      Object(FromEntries(StableSort(
        seq(|entries|, i requires 0 <= i < |entries| => Entry(entries[i].key, Canonical(entries[i].value, le))), le)))
    case _ => v
  }

  /** The members of an object before they are sorted. */
  function CanonicalMembers(entries: seq<Entry>, le: Comparator): (r: seq<Entry>)
    ensures |r| == |entries|
    ensures forall i :: 0 <= i < |entries| ==> r[i] == Entry(entries[i].key, Canonical(entries[i].value, le))
    decreases entries
  {
    seq(|entries|, i requires 0 <= i < |entries| => Entry(entries[i].key, Canonical(entries[i].value, le)))
  }

  lemma CanonicalObject(entries: seq<Entry>, le: Comparator)
    ensures Canonical(Object(entries), le) == Object(FromEntries(StableSort(CanonicalMembers(entries, le), le)))
  {
    assert seq(|entries|, i requires 0 <= i < |entries| => Entry(entries[i].key, Canonical(entries[i].value, le))) ==
           CanonicalMembers(entries, le);
  }

  // ---- sorting permutes ----

  lemma {:induction false} InsertPermutes(e: Entry, q: seq<Entry>, le: Comparator)
    ensures multiset(Insert(e, q, le)) == multiset(q) + multiset{e}
  {
    if q != [] && !le(e.key, q[0].key) {
      InsertPermutes(e, q[1..], le);
      assert q == [q[0]] + q[1..];
    }
  }

  lemma {:induction false} SortPermutes(q: seq<Entry>, le: Comparator)
    ensures multiset(StableSort(q, le)) == multiset(q)
  {
    if q != [] {
      SortPermutes(q[1..], le);
      InsertPermutes(q[0], StableSort(q[1..], le), le);
      assert q == [q[0]] + q[1..];
    }
  }

  lemma {:induction false} SelectPartitions(q: seq<Entry>)
    ensures multiset(Select(q, true)) + multiset(Select(q, false)) == multiset(q)
  {
    if q != [] {
      SelectPartitions(q[1..]);
      assert q == [q[0]] + q[1..];
    }
  }

  lemma FromEntriesPermutes(q: seq<Entry>)
    ensures multiset(FromEntries(q)) == multiset(q)
  {
    SortPermutes(Select(q, true), IndexLe);
    SelectPartitions(q);
  }

  lemma KeysOfPermutation(p: seq<Entry>, q: seq<Entry>)
    requires multiset(p) == multiset(q) && DistinctKeys(p)
    ensures DistinctKeys(q)
  {
    forall i, j | 0 <= i < j < |q| ensures q[i].key != q[j].key {
      assert q[i] in multiset(q) && q[j] in multiset(q);
      if q[i] == q[j] {
        TwiceIn(q, i, j);
        OnceIn(p, q[i]);
        assert false;
      }
      var k :| 0 <= k < |p| && p[k] == q[i];
      var l :| 0 <= l < |p| && p[l] == q[j];
    }
  }

  lemma {:induction false} OnceIn(p: seq<Entry>, e: Entry)
    requires DistinctKeys(p)
    ensures multiset(p)[e] <= 1
  {
    if p != [] {
      assert p == [p[0]] + p[1..];
      OnceIn(p[1..], e);
      if p[0] == e {
        assert e !in p[1..] && e !in multiset(p[1..]);
      }
    }
  }

  // ---- sorting sorts ----

  lemma InsertedFrom(e: Entry, q: seq<Entry>, x: Entry, le: Comparator)
    requires x in Insert(e, q, le)
    ensures x == e || x in q
  {
    InsertPermutes(e, q, le);
    assert x in multiset(Insert(e, q, le));
  }

  lemma {:induction false} InsertSorts(e: Entry, q: seq<Entry>, le: Comparator)
    requires Preorder(le) && Sorted(q, le)
    ensures Sorted(Insert(e, q, le), le)
  {
    if q != [] && !le(e.key, q[0].key) {
      InsertSorts(e, q[1..], le);
      var tail := Insert(e, q[1..], le);
      forall j | 0 <= j < |tail| ensures le(q[0].key, tail[j].key) {
        InsertedFrom(e, q[1..], tail[j], le);
      }
    } else {
      forall j | 0 <= j < |q| ensures le(e.key, q[j].key) {
        assert j > 0 ==> le(q[0].key, q[j].key);
      }
    }
  }

  lemma {:induction false} SortSorts(q: seq<Entry>, le: Comparator)
    requires Preorder(le)
    ensures Sorted(StableSort(q, le), le)
  {
    if q != [] {
      SortSorts(q[1..], le);
      InsertSorts(q[0], StableSort(q[1..], le), le);
    }
  }

  lemma {:induction false} SortedStays(q: seq<Entry>, le: Comparator)
    requires Sorted(q, le)
    ensures StableSort(q, le) == q
  {
    if q != [] {
      SortedStays(q[1..], le);
      assert q == [q[0]] + q[1..];
      assert |q| > 1 ==> le(q[0].key, q[1].key);
    }
  }

  /** Entries that the comparator ties are the same entry. */
  ghost predicate Tieless(q: seq<Entry>, le: Comparator) {
    forall x, y | x in q && y in q && le(x.key, y.key) && le(y.key, x.key) :: x == y
  }

  lemma FirstOnce(p: seq<Entry>, q: seq<Entry>, le: Comparator)
    requires Preorder(le) && Sorted(p, le) && Sorted(q, le) && Tieless(p, le) && p != [] && q != []
    requires forall e :: e in p <==> e in q
    ensures p[0] == q[0]
  {
    assert q[0] in p && p[0] in q;
    var i :| 0 <= i < |p| && p[i] == q[0];
    var j :| 0 <= j < |q| && q[j] == p[0];
    assert i > 0 ==> le(p[0].key, p[i].key);
    assert j > 0 ==> le(q[0].key, q[j].key);
    assert le(p[0].key, p[0].key);
  }

  /** Entries that the comparator tells apart have only one sorted arrangement. */
  lemma {:induction false} SortedOnce(p: seq<Entry>, q: seq<Entry>, le: Comparator)
    requires Preorder(le) && multiset(p) == multiset(q) && Sorted(p, le) && Sorted(q, le) && Tieless(p, le)
    ensures p == q
  {
    hide Preorder;
    SamePermutation(p, q);
    if p != [] {
      FirstOnce(p, q, le);
      SameTails(p, q);
      SortedTail(p, le);
      SortedTail(q, le);
      hide Sorted, Tieless;
      SortedOnce(p[1..], q[1..], le);
      assert p == [p[0]] + p[1..] && q == [q[0]] + q[1..];
    }
  }

  lemma SameTails(p: seq<Entry>, q: seq<Entry>)
    requires p != [] && q != [] && p[0] == q[0] && multiset(p) == multiset(q)
    ensures multiset(p[1..]) == multiset(q[1..])
  {
    assert p == [p[0]] + p[1..] && q == [q[0]] + q[1..];
    assert multiset(p[1..]) == multiset(p) - multiset{p[0]};
    assert multiset(q[1..]) == multiset(q) - multiset{q[0]};
  }

  lemma SortedTail(p: seq<Entry>, le: Comparator)
    requires p != [] && Sorted(p, le)
    ensures Sorted(p[1..], le) && (Tieless(p, le) ==> Tieless(p[1..], le))
  {
  }

  // ---- selecting commutes with sorting ----

  lemma {:induction false} SelectSorted(q: seq<Entry>, le: Comparator, index: bool)
    requires Sorted(q, le)
    ensures Sorted(Select(q, index), le)
  {
    if q != [] {
      SelectSorted(q[1..], le, index);
      var rest := Select(q[1..], index);
      forall j | 0 <= j < |rest| ensures le(q[0].key, rest[j].key) {
        assert rest[j] in q[1..];
      }
    }
  }

  lemma {:induction false} SelectInsert(e: Entry, q: seq<Entry>, le: Comparator, index: bool)
    requires Preorder(le) && Sorted(q, le)
    ensures Select(Insert(e, q, le), index) ==
            if IsIndex(e.key) == index then Insert(e, Select(q, index), le) else Select(q, index)
  {
    hide IsIndex;
    if q == [] || le(e.key, q[0].key) {
      assert ([e] + q)[1..] == q;
      var kept := Select(q, index);
      if kept != [] {
        assert kept[0] in q;
        var i :| 0 <= i < |q| && q[i] == kept[0];
        assert le(q[0].key, q[i].key) by {
          assert le(q[0].key, q[0].key);
        }
      }
    } else {
      assert ([q[0]] + Insert(e, q[1..], le))[1..] == Insert(e, q[1..], le);
      SelectInsert(e, q[1..], le, index);
    }
  }

  lemma {:induction false} SelectSort(q: seq<Entry>, le: Comparator, index: bool)
    requires Preorder(le)
    ensures Select(StableSort(q, le), index) == StableSort(Select(q, index), le)
  {
    hide IsIndex, Preorder;
    if q != [] {
      SelectSort(q[1..], le, index);
      SortSorts(q[1..], le);
      SelectInsert(q[0], StableSort(q[1..], le), le, index);
      if IsIndex(q[0].key) == index {
        assert ([q[0]] + Select(q[1..], index))[1..] == Select(q[1..], index);
      }
    }
  }

  lemma {:induction false} SelectCount(q: seq<Entry>, index: bool, e: Entry)
    ensures multiset(Select(q, index))[e] == if IsIndex(e.key) == index then multiset(q)[e] else 0
  {
    hide IsIndex;
    if q != [] {
      assert q == [q[0]] + q[1..];
      SelectCount(q[1..], index, e);
    }
  }

  lemma SelectPermutes(p: seq<Entry>, q: seq<Entry>, index: bool)
    requires multiset(p) == multiset(q)
    ensures multiset(Select(p, index)) == multiset(Select(q, index))
  {
    hide IsIndex;
    forall e ensures multiset(Select(p, index))[e] == multiset(Select(q, index))[e] {
      SelectCount(p, index, e);
      SelectCount(q, index, e);
    }
  }

  lemma {:induction false} SelectAll(q: seq<Entry>, index: bool)
    requires forall e :: e in q ==> IsIndex(e.key) == index
    ensures Select(q, index) == q && Select(q, !index) == []
  {
    hide IsIndex;
    if q != [] {
      SelectAll(q[1..], index);
      assert q == [q[0]] + q[1..];
    }
  }

  lemma {:induction false} SelectConcat(p: seq<Entry>, q: seq<Entry>, index: bool)
    ensures Select(p + q, index) == Select(p, index) + Select(q, index)
  {
    hide IsIndex;
    if p == [] {
      assert p + q == q;
    } else {
      assert (p + q)[1..] == p[1..] + q;
      SelectConcat(p[1..], q, index);
    }
  }

  // ---- numeric keys ----

  lemma {:induction false} NumericPositive(key: string)
    requires key != [] && (forall i :: 0 <= i < |key| ==> '0' <= key[i] <= '9') && key[0] != '0'
    ensures Numeric(key) > 0
  {
    if |key| > 1 {
      NumericPositive(key[..|key| - 1]);
    }
  }

  predicate AreDigits(key: string) {
    forall i :: 0 <= i < |key| ==> '0' <= key[i] <= '9'
  }

  lemma NumericFront(key: string)
    requires AreDigits(key) && key != []
    ensures AreDigits(key[..|key| - 1]) && '0' <= key[|key| - 1] <= '9'
    ensures Numeric(key) / 10 == Numeric(key[..|key| - 1])
    ensures Numeric(key) % 10 == key[|key| - 1] as int - '0' as int
  {
  }

  lemma {:induction false} NumericInjective(x: string, y: string)
    requires AreDigits(x) && AreDigits(y) && Numeric(x) == Numeric(y)
    requires x != [] && x[0] == '0' ==> |x| == 1
    requires y != [] && y[0] == '0' ==> |y| == 1
    requires (x == []) == (y == []) || (x != [] && x[0] != '0') || (y != [] && y[0] != '0')
    ensures x == y
  {
    if x == [] || y == [] {
      if x != [] { NumericPositive(x); }
      if y != [] { NumericPositive(y); }
    } else {
      NumericFront(x);
      NumericFront(y);
      hide Numeric, AreDigits;
      NumericInjective(x[..|x| - 1], y[..|y| - 1]);
      assert x == x[..|x| - 1] + [x[|x| - 1]] && y == y[..|y| - 1] + [y[|y| - 1]];
    }
  }

  lemma IndexLePreorder()
    ensures Preorder(IndexLe)
  {
    hide IsIndex, Numeric;
  }

  lemma IndexLeSeparates(x: string, y: string)
    requires IsIndex(x) && IsIndex(y) && IndexLe(x, y) && IndexLe(y, x)
    ensures x == y
  {
    NumericInjective(x, y);
  }

  // ---- the arrangement of an object's members ----

  function Arranged(q: seq<Entry>, le: Comparator): seq<Entry> {
    FromEntries(StableSort(q, le))
  }

  lemma ArrangedPermutes(q: seq<Entry>, le: Comparator)
    ensures multiset(Arranged(q, le)) == multiset(q)
  {
    SortPermutes(q, le);
    FromEntriesPermutes(StableSort(q, le));
  }

  lemma IndexMembersTieless(q: seq<Entry>)
    requires DistinctKeys(q) && forall e :: e in q ==> IsIndex(e.key)
    ensures Tieless(q, IndexLe)
  {
    forall x, y | x in q && y in q && IndexLe(x.key, y.key) && IndexLe(y.key, x.key) ensures x == y {
      IndexLeSeparates(x.key, y.key);
      SameKeySameEntry(q, x, y);
    }
  }

  lemma SameKeySameEntry(q: seq<Entry>, x: Entry, y: Entry)
    requires DistinctKeys(q) && x in q && y in q && x.key == y.key
    ensures x == y
  {
  }

  lemma {:induction false} SelectDistinct(q: seq<Entry>, index: bool)
    requires DistinctKeys(q)
    ensures DistinctKeys(Select(q, index))
  {
    hide IsIndex;
    if q != [] {
      SelectDistinct(q[1..], index);
      var rest := Select(q[1..], index);
      forall j | 0 <= j < |rest| ensures rest[j].key != q[0].key {
        assert rest[j] in q[1..];
      }
    }
  }

  /** Members in any order are arranged alike, when the comparator separates them. */
  lemma ArrangedOnce(p: seq<Entry>, q: seq<Entry>, le: Comparator)
    requires Preorder(le) && Separates(le) && DistinctKeys(p) && multiset(p) == multiset(q)
    ensures Arranged(p, le) == Arranged(q, le)
  {
    hide Preorder, Separates, IsIndex;
    var s, t := StableSort(p, le), StableSort(q, le);
    SortPermutes(p, le);
    SortPermutes(q, le);
    KeysOfPermutation(p, s);
    IndexPartOnce(s, t);
    SortSorts(p, le);
    SortSorts(q, le);
    SelectSorted(s, le, false);
    SelectSorted(t, le, false);
    SelectPermutes(s, t, false);
    OthersTieless(s, le);
    SortedOnce(Select(s, false), Select(t, false), le);
  }

  lemma IndexPartOnce(s: seq<Entry>, t: seq<Entry>)
    requires DistinctKeys(s) && multiset(s) == multiset(t)
    ensures StableSort(Select(s, true), IndexLe) == StableSort(Select(t, true), IndexLe)
  {
    hide Preorder;
    var p, q := Select(s, true), Select(t, true);
    IndexLePreorder();
    SelectPermutes(s, t, true);
    SelectDistinct(s, true);
    SortPermutes(p, IndexLe);
    SortPermutes(q, IndexLe);
    SortSorts(p, IndexLe);
    SortSorts(q, IndexLe);
    KeysOfPermutation(p, StableSort(p, IndexLe));
    SamePermutation(p, StableSort(p, IndexLe));
    IndexMembersTieless(StableSort(p, IndexLe));
    SortedOnce(StableSort(p, IndexLe), StableSort(q, IndexLe), IndexLe);
  }

  lemma OthersTieless(s: seq<Entry>, le: Comparator)
    requires DistinctKeys(s) && Separates(le)
    ensures Tieless(Select(s, false), le)
  {
    hide IsIndex;
    forall x, y | x in Select(s, false) && y in Select(s, false) && le(x.key, y.key) && le(y.key, x.key) ensures x == y {
      SameKeySameEntry(s, x, y);
    }
  }

  /** Arranging twice changes nothing more, whatever the comparator ties. */
  lemma ArrangedTwice(p: seq<Entry>, le: Comparator)
    requires Preorder(le) && DistinctKeys(p)
    ensures Arranged(Arranged(p, le), le) == Arranged(p, le)
  {
    hide Preorder, IsIndex;
    var s := StableSort(p, le);
    var i, n := StableSort(Select(s, true), IndexLe), Select(s, false);
    SortPermutes(p, le);
    KeysOfPermutation(p, s);
    SortSorts(p, le);
    SelectSorted(s, le, false);
    SortedStays(n, le);
    SortPermutes(Select(s, true), IndexLe);
    SamePermutation(Select(s, true), i);
    SelectAll(i, true);
    SelectAll(n, false);
    SelectConcat(i, n, true);
    SelectConcat(i, n, false);
    SelectSort(i + n, le, true);
    SelectSort(i + n, le, false);
    assert i + [] == i && [] + n == n;
    SelectDistinct(s, true);
    KeysOfPermutation(Select(s, true), i);
    ResortedIndex(i, le);
    IndexLePreorder();
    SortSorts(Select(s, true), IndexLe);
    SortedStays(i, IndexLe);
  }

  lemma ResortedIndex(i: seq<Entry>, le: Comparator)
    requires DistinctKeys(i) && forall e :: e in i ==> IsIndex(e.key)
    ensures StableSort(StableSort(i, le), IndexLe) == StableSort(i, IndexLe)
  {
    hide IsIndex;
    SortPermutes(i, le);
    SamePermutation(i, StableSort(i, le));
    SelectAll(i, true);
    SelectAll(StableSort(i, le), true);
    IndexPartOnce(i, StableSort(i, le));
  }

  // ---- canonical forms ----

  lemma CanonicalArranges(entries: seq<Entry>, le: Comparator)
    ensures Canonical(Object(entries), le) == Object(Arranged(CanonicalMembers(entries, le), le))
  {
    CanonicalObject(entries, le);
  }

  /** Equal canonical forms come only from values that differ in nothing but key order. */
  lemma {:induction false} CanonicalReflects(a: Json, b: Json, le: Comparator)
    requires Canonical(a, le) == Canonical(b, le)
    ensures SameUpToOrder(a, b)
    decreases a
  {
    match a
    case Array(items) =>
      var x, y := Canonical(a, le), Canonical(b, le);
      assert b.Array?;
      forall i | 0 <= i < |items| ensures SameUpToOrder(items[i], b.items[i]) {
        assert x.items[i] == Canonical(items[i], le) && y.items[i] == Canonical(b.items[i], le);
        CanonicalReflects(items[i], b.items[i], le);
      }
    case Object(entries) =>
      assert b.Object?;
      var p, q := CanonicalMembers(entries, le), CanonicalMembers(b.entries, le);
      MembersReflect(entries, b.entries, le);
      forall i | 0 <= i < |entries| ensures FoundIn(entries[i], b.entries) {
        assert p[i] in q;
        var j :| 0 <= j < |q| && q[j] == p[i];
        CanonicalReflects(entries[i].value, b.entries[j].value, le);
        assert b.entries[j].key == entries[i].key && SameUpToOrder(entries[i].value, b.entries[j].value);
      }
    case _ =>
  }

  lemma MembersReflect(a: seq<Entry>, b: seq<Entry>, le: Comparator)
    requires Canonical(Object(a), le) == Canonical(Object(b), le)
    ensures |a| == |b|
    ensures forall e :: e in CanonicalMembers(a, le) ==> e in CanonicalMembers(b, le)
  {
    CanonicalArranges(a, le);
    CanonicalArranges(b, le);
    hide Canonical;
    var p, q := CanonicalMembers(a, le), CanonicalMembers(b, le);
    ArrangedPermutes(p, le);
    ArrangedPermutes(q, le);
    SamePermutation(p, q);
  }

  /** With a comparator that separates keys, key order is all that canonical forms forget. */
  lemma {:induction false} CanonicalForgets(a: Json, b: Json, le: Comparator)
    requires Preorder(le) && Separates(le) && Proper(a) && Proper(b) && SameUpToOrder(a, b)
    ensures Canonical(a, le) == Canonical(b, le)
    decreases a
  {
    hide Preorder, Separates;
    match a
    case Array(items) =>
      forall i | 0 <= i < |items| ensures Canonical(items[i], le) == Canonical(b.items[i], le) {
        CanonicalForgets(items[i], b.items[i], le);
      }
      SameItems(items, b.items, le);
    case Object(entries) =>
      var p, q := CanonicalMembers(entries, le), CanonicalMembers(b.entries, le);
      forall i | 0 <= i < |p| ensures p[i] in q {
        assert FoundIn(entries[i], b.entries);
        var j :| 0 <= j < |b.entries| && b.entries[j].key == entries[i].key &&
                 SameUpToOrder(entries[i].value, b.entries[j].value);
        CanonicalForgets(entries[i].value, b.entries[j].value, le);
        assert q[j] == p[i];
      }
      SameMembers(p, q);
      ArrangedOnce(p, q, le);
      CanonicalArranges(entries, le);
      CanonicalArranges(b.entries, le);
    case _ =>
  }

  lemma SameItems(a: seq<Json>, b: seq<Json>, le: Comparator)
    requires |a| == |b| && forall i :: 0 <= i < |a| ==> Canonical(a[i], le) == Canonical(b[i], le)
    ensures Canonical(Array(a), le) == Canonical(Array(b), le)
  {
    assert forall i :: 0 <= i < |a| ==> Canonical(Array(a), le).items[i] == Canonical(Array(b), le).items[i];
  }

  function Removed(q: seq<Entry>, j: nat): (r: seq<Entry>)
    requires j < |q|
    ensures |r| == |q| - 1
  {
    q[..j] + q[j + 1..]
  }

  lemma RemovedCount(q: seq<Entry>, j: nat)
    requires j < |q|
    ensures multiset(q) == multiset(Removed(q, j)) + multiset{q[j]}
  {
    assert q == q[..j] + [q[j]] + q[j + 1..];
  }

  lemma StillIn(q: seq<Entry>, j: nat, e: Entry)
    requires j < |q| && e in q && e != q[j]
    ensures e in Removed(q, j)
  {
    var k :| 0 <= k < |q| && q[k] == e;
    assert Removed(q, j)[if k < j then k else k - 1] == e;
  }

  ghost predicate Within(p: seq<Entry>, q: seq<Entry>) {
    forall i :: 0 <= i < |p| ==> p[i] in q
  }

  lemma RemovedWithin(p: seq<Entry>, q: seq<Entry>, j: nat)
    requires p != [] && j < |q| && q[j] == p[0] && DistinctKeys(p) && Within(p, q)
    ensures DistinctKeys(Removed(p, 0)) && Within(Removed(p, 0), Removed(q, j))
  {
    forall i | 0 <= i < |p| - 1 ensures Removed(p, 0)[i] in Removed(q, j) {
      StillIn(q, j, p[i + 1]);
    }
  }

  /** Sequences of the same length with distinct keys, one within the other, are permutations. */
  lemma {:induction false} SameMembers(p: seq<Entry>, q: seq<Entry>)
    requires |p| == |q| && DistinctKeys(p) && Within(p, q)
    ensures multiset(p) == multiset(q)
    decreases |p|
  {
    if p == [] {
      assert q == [];
    } else {
      assert p[0] in q;
      var j :| 0 <= j < |q| && q[j] == p[0];
      RemovedWithin(p, q, j);
      RemovedCount(p, 0);
      RemovedCount(q, j);
      hide DistinctKeys, Within, Removed;
      SameMembers(Removed(p, 0), Removed(q, j));
    }
  }

  /**
   * Two parsed values of any depth have the same canonical form exactly when they differ only in
   * key order, provided the comparator ties no two keys; with one that does, some two such values differ.
   */
  lemma CanonicalFormDecides(le: Comparator)
    requires Preorder(le)
    ensures (forall a, b | Proper(a) && Proper(b) :: Canonical(a, le) == Canonical(b, le) <==> SameUpToOrder(a, b)) <==>
            Separates(le)
  {
    hide Canonical, SameUpToOrder, Proper;
    if Separates(le) {
      forall a, b | Proper(a) && Proper(b) ensures Canonical(a, le) == Canonical(b, le) <==> SameUpToOrder(a, b) {
        if Canonical(a, le) == Canonical(b, le) {
          CanonicalReflects(a, b, le);
        }
        if SameUpToOrder(a, b) {
          CanonicalForgets(a, b, le);
        }
      }
    } else {
      var x, y :| !IsIndex(x) && !IsIndex(y) && le(x, y) && le(y, x) && x != y;
      TiedKeysDiffer(x, y, le);
    }
  }

  function TwoKeys(x: string, y: string): Json {
    Object([Entry(x, Null), Entry(y, Null)])
  }

  /** Keys the comparator ties stay in the order they came. */
  lemma TiedKeysDiffer(x: string, y: string, le: Comparator)
    requires !IsIndex(x) && !IsIndex(y) && le(x, y) && le(y, x) && x != y
    ensures Proper(TwoKeys(x, y)) && Proper(TwoKeys(y, x)) && SameUpToOrder(TwoKeys(x, y), TwoKeys(y, x))
    ensures Canonical(TwoKeys(x, y), le) != Canonical(TwoKeys(y, x), le)
  {
    hide IsIndex, Canonical, SameUpToOrder;
    TiedPair(x, y, le);
    TiedPair(y, x, le);
    SwappedPair(TwoKeys(x, y), TwoKeys(y, x), x, y);
    assert TwoKeys(x, y).entries[0] != TwoKeys(y, x).entries[0];
  }

  lemma NullFound(key: string, q: seq<Entry>, j: nat)
    requires j < |q| && q[j] == Entry(key, Null)
    ensures FoundIn(Entry(key, Null), q)
  {
    assert SameUpToOrder(Null, Null);
    assert q[j].key == key && SameUpToOrder(Null, q[j].value);
  }

  lemma SwappedPair(a: Json, b: Json, x: string, y: string)
    requires a == TwoKeys(x, y) && b == TwoKeys(y, x)
    ensures SameUpToOrder(a, b)
  {
    hide FoundIn;
    NullFound(x, b.entries, 1);
    NullFound(y, b.entries, 0);
    assert a.entries[0] == Entry(x, Null) && a.entries[1] == Entry(y, Null);
  }

  lemma TiedPair(x: string, y: string, le: Comparator)
    requires !IsIndex(x) && !IsIndex(y) && le(x, y)
    ensures Canonical(TwoKeys(x, y), le) == TwoKeys(x, y)
  {
    hide IsIndex;
    var q := [Entry(x, Null), Entry(y, Null)];
    CanonicalArranges(q, le);
    NullMembers(q, le);
    hide Canonical;
    SortedPair(q[0], q[1], le);
    NoIndexes(q);
  }

  lemma NullMembers(q: seq<Entry>, le: Comparator)
    requires forall i :: 0 <= i < |q| ==> q[i].value == Null
    ensures CanonicalMembers(q, le) == q
  {
    assert Canonical(Null, le) == Null;
  }

  lemma NoIndexes(q: seq<Entry>)
    requires forall e :: e in q ==> !IsIndex(e.key)
    ensures FromEntries(q) == q
  {
    hide IsIndex;
    SelectAll(q, false);
    assert Select(q, true) == [] && Select(q, false) == q;
    assert StableSort([], IndexLe) == [] && [] + q == q;
  }

  lemma SortedPair(x: Entry, y: Entry, le: Comparator)
    requires le(x.key, y.key)
    ensures StableSort([x, y], le) == [x, y]
  {
    assert [x, y][1..] == [y] && [y][1..] == [];
    assert StableSort([y], le) == Insert(y, StableSort([], le), le) == [y];
  }

  /** Making a canonical form canonical again changes nothing, whatever the comparator ties. */
  lemma {:induction false} CanonicalIsIdempotent(v: Json, le: Comparator)
    requires Preorder(le) && Proper(v)
    ensures Canonical(Canonical(v, le), le) == Canonical(v, le)
    decreases v
  {
    hide Preorder;
    match v
    case Array(items) =>
      var c := Canonical(v, le);
      forall i | 0 <= i < |items| ensures Canonical(c, le).items[i] == c.items[i] {
        CanonicalIsIdempotent(items[i], le);
      }
    case Object(entries) =>
      var p := CanonicalMembers(entries, le);
      forall i | 0 <= i < |p| ensures Canonical(p[i].value, le) == p[i].value {
        CanonicalIsIdempotent(entries[i].value, le);
      }
      CanonicalArranges(entries, le);
      SettledMembers(p, le);
      ArrangedTwice(p, le);
      CanonicalArranges(Arranged(p, le), le);
    case _ =>
  }

  lemma SettledMembers(p: seq<Entry>, le: Comparator)
    requires forall i :: 0 <= i < |p| ==> Canonical(p[i].value, le) == p[i].value
    ensures CanonicalMembers(Arranged(p, le), le) == Arranged(p, le)
  {
    hide Canonical, Arranged;
    var q := Arranged(p, le);
    ArrangedPermutes(p, le);
    SamePermutation(p, q);
    forall i | 0 <= i < |q| ensures Canonical(q[i].value, le) == q[i].value {
      assert q[i] in p;
    }
  }

  // ---- the fingerprint of a request ----

  datatype Request = Request(
    workflow: string, runId: string, input: Json, runtime: Option<Json>, timeoutSeconds: nat)

  function Identity(r: Request): Json {
    Object(
      [Entry("workflow", Text(r.workflow)), Entry("run_id", Text(r.runId)), Entry("input", r.input)] +
      match r.runtime
      case None => []
      case Some(runtime) => [Entry("runtime", runtime)])
  }

  /** The hash of the identity's canonical text; hash and text are taken to be injective. */
  function Fingerprint(r: Request, le: Comparator): Json {
    Canonical(Identity(r), le)
  }

  ghost predicate ProperRequest(r: Request) {
    Proper(r.input) && (r.runtime.Some? ==> Proper(r.runtime.value))
  }

  /** The same logical request: everything but the timeout, up to key order. */
  ghost predicate SameRequest(a: Request, b: Request) {
    a.workflow == b.workflow && a.runId == b.runId && SameUpToOrder(a.input, b.input) &&
    match (a.runtime, b.runtime)
    case (None, None) => true
    case (Some(x), Some(y)) => SameUpToOrder(x, y)
    case _ => false
  }

  lemma IdentityFields(r: Request)
    ensures var q := Identity(r).entries;
            |q| == (if r.runtime.None? then 3 else 4) &&
            q[0] == Entry("workflow", Text(r.workflow)) && q[1] == Entry("run_id", Text(r.runId)) &&
            q[2] == Entry("input", r.input) && (r.runtime.Some? ==> q[3] == Entry("runtime", r.runtime.value))
    ensures DistinctKeys(Identity(r).entries)
  {
  }

  lemma IdentitiesAgree(a: Request, b: Request)
    ensures SameUpToOrder(Identity(a), Identity(b)) <==> SameRequest(a, b)
  {
    IdentityFields(a);
    IdentityFields(b);
    hide Identity, SameUpToOrder, SameRequest;
    if SameUpToOrder(Identity(a), Identity(b)) {
      SameIdentity(a, b);
    }
    if SameRequest(a, b) {
      SameFields(a, b);
    }
  }

  lemma SameIdentity(a: Request, b: Request)
    requires SameUpToOrder(Identity(a), Identity(b))
    ensures SameRequest(a, b)
  {
    IdentityFields(a);
    IdentityFields(b);
    var p, q := Identity(a).entries, Identity(b).entries;
    assert Identity(a) == Object(p) && Identity(b) == Object(q);
    hide Identity;
    FieldsAgree(p, q, 0);
    FieldsAgree(p, q, 1);
    FieldsAgree(p, q, 2);
    if a.runtime.Some? {
      FieldsAgree(p, q, 3);
    }
  }

  lemma FieldsAgree(p: seq<Entry>, q: seq<Entry>, i: nat)
    requires SameUpToOrder(Object(p), Object(q)) && |p| == |q| && i < |p|
    requires forall j :: 0 <= j < |q| && j != i ==> q[j].key != p[i].key
    ensures SameUpToOrder(p[i].value, q[i].value)
  {
    assert FoundIn(p[i], q);
    var j :| 0 <= j < |q| && q[j].key == p[i].key && SameUpToOrder(p[i].value, q[j].value);
  }

  lemma SameFields(a: Request, b: Request)
    requires SameRequest(a, b)
    ensures SameUpToOrder(Identity(a), Identity(b))
  {
    IdentityFields(a);
    IdentityFields(b);
    var p, q := Identity(a).entries, Identity(b).entries;
    assert Identity(a) == Object(p) && Identity(b) == Object(q);
    hide Identity;
    forall i | 0 <= i < |p| ensures FoundIn(p[i], q) {
      assert q[i].key == p[i].key && SameUpToOrder(p[i].value, q[i].value);
    }
  }

  /** Equal fingerprints mean the same logical request; the converse needs separated keys. The timeout never matters. */
  lemma FingerprintDecides(a: Request, b: Request, le: Comparator)
    requires Preorder(le) && ProperRequest(a) && ProperRequest(b)
    ensures Fingerprint(a, le) == Fingerprint(b, le) ==> SameRequest(a, b)
    ensures Separates(le) ==> (Fingerprint(a, le) == Fingerprint(b, le) <==> SameRequest(a, b))
    ensures a.(timeoutSeconds := b.timeoutSeconds) == b ==> Fingerprint(a, le) == Fingerprint(b, le)
  {
    assert a.(timeoutSeconds := b.timeoutSeconds) == b ==> Identity(a) == Identity(b);
    IdentitiesAgree(a, b);
    IdentityIsProper(a);
    IdentityIsProper(b);
    hide Preorder, Separates, Canonical, Identity, SameUpToOrder, Proper, SameRequest;
    if Fingerprint(a, le) == Fingerprint(b, le) {
      CanonicalReflects(Identity(a), Identity(b), le);
    }
    if SameRequest(a, b) && Separates(le) {
      CanonicalForgets(Identity(a), Identity(b), le);
    }
  }

  lemma IdentityIsProper(r: Request)
    requires ProperRequest(r)
    ensures Proper(Identity(r))
  {
    IdentityFields(r);
  }
}
