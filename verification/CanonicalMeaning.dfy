/** What the canonical form of a JSON value looks like: which keys come first, and in what order. */
module CanonicalMeaning {
  import opened Basics
  import opened CanonicalJson

  // ---- array-index keys ----

  function Digit(d: nat): char
    requires d < 10
  {
    "0123456789"[d]
  }

  function DecimalText(n: nat): string {
    if n < 10 then [Digit(n)] else DecimalText(n / 10) + [Digit(n % 10)]
  }

  lemma DigitIs(d: nat)
    requires d < 10
    ensures '0' <= Digit(d) <= '9' && Digit(d) as int - '0' as int == d
  {
  }

  lemma {:induction false} DecimalTextIs(n: nat)
    ensures DecimalText(n) != [] && forall i :: 0 <= i < |DecimalText(n)| ==> '0' <= DecimalText(n)[i] <= '9'
    ensures Numeric(DecimalText(n)) == n
    ensures DecimalText(n)[0] == '0' ==> n == 0
  {
    if n < 10 {
      DigitIs(n);
      assert Numeric([]) == 0 && [Digit(n)][..0] == [];
    } else {
      DecimalTextIs(n / 10);
      DigitIs(n % 10);
      var s := DecimalText(n);
      assert s[..|s| - 1] == DecimalText(n / 10);
    }
  }

  lemma {:induction false} DecimalTextIsShort(n: nat, bound: nat, digits: nat)
    requires n < bound && digits >= 1 && bound == TenTo(digits)
    ensures |DecimalText(n)| <= digits
    decreases digits
  {
    if n >= 10 {
      DecimalTextIsShort(n / 10, TenTo(digits - 1), digits - 1);
    }
  }

  function TenTo(digits: nat): nat {
    if digits == 0 then 1 else 10 * TenTo(digits - 1)
  }

  /** A key without leading zeros is the decimal text of its number. */
  lemma {:induction false} NumericIs(key: string)
    requires key != [] && (forall i :: 0 <= i < |key| ==> '0' <= key[i] <= '9') && (key[0] == '0' ==> |key| == 1)
    ensures DecimalText(Numeric(key)) == key
  {
    var n := |key| - 1;
    var front, last := key[..n], key[n] as int - '0' as int;
    assert key == front + [key[n]];
    DigitIs(last);
    assert Digit(last) == key[n];
    if n == 0 {
      assert Numeric(front) == 0;
    } else {
      assert front[0] == key[0];
      NumericIs(front);
      NumericPositive(front);
      assert Numeric(key) / 10 == Numeric(front) && Numeric(key) % 10 == last;
    }
  }

  /** The keys that come first are the decimal texts of the numbers below 2^32 - 1. */
  lemma IndexMeans(key: string)
    ensures IsIndex(key) <==> exists n: nat :: n < 4294967295 && key == DecimalText(n)
  {
    if IsIndex(key) {
      NumericIs(key);
    }
    if n: nat :| n < 4294967295 && key == DecimalText(n) {
      DecimalTextIs(n);
      assert TenTo(5) == 100000;
      assert TenTo(10) == 10000000000;
      DecimalTextIsShort(n, 10000000000, 10);
      ZeroIsShort(n);
    }
  }

  lemma ZeroIsShort(n: nat)
    ensures DecimalText(n)[0] == '0' ==> |DecimalText(n)| == 1
  {
    DecimalTextIs(n);
  }

  // ---- the form of a value ----

  /** Index keys come first, by number; the others follow in the comparator's order. */
  ghost predicate InOrder(q: seq<Entry>, le: Comparator) {
    (forall i, j :: 0 <= i < j < |q| && IsIndex(q[j].key) ==> IsIndex(q[i].key) && Numeric(q[i].key) <= Numeric(q[j].key)) &&
    forall i, j :: 0 <= i < j < |q| && !IsIndex(q[i].key) ==> le(q[i].key, q[j].key)
  }

  /** One level of the form: members are the same, in order; items stay in place; the rest is untouched. */
  ghost predicate FormOf(v: Json, form: Json, le: Comparator) {
    match v
    case Array(items) =>
      form.Array? && |form.items| == |items| && forall i :: 0 <= i < |items| ==> form.items[i] == Canonical(items[i], le)
    case Object(entries) =>
      form.Object? && InOrder(form.entries, le) && |form.entries| == |entries| &&
      (forall i :: 0 <= i < |entries| ==> Entry(entries[i].key, Canonical(entries[i].value, le)) in form.entries)
    case _ => form == v
  }

  /** The canonical form has, at every level, the same members in one order, and everything else as it was. */
  lemma CanonicalMeans(v: Json, le: Comparator)
    requires Preorder(le)
    ensures FormOf(v, Canonical(v, le), le)
  {
    if v.Object? {
      CanonicalObject(v.entries, le);
      var members := CanonicalMembers(v.entries, le);
      MembersStay(members, le);
      FormInOrder(members, le);
      hide FromEntries, StableSort, InOrder, Preorder;
      forall i | 0 <= i < |v.entries|
        ensures Entry(v.entries[i].key, Canonical(v.entries[i].value, le)) in Canonical(v, le).entries
      {
        assert members[i] in members;
      }
    }
  }

  lemma MembersStay(members: seq<Entry>, le: Comparator)
    ensures |FromEntries(StableSort(members, le))| == |members|
    ensures forall e :: e in FromEntries(StableSort(members, le)) <==> e in members
  {
    SortPermutes(members, le);
    FromEntriesPermutes(StableSort(members, le));
    hide FromEntries, StableSort;
    SamePermutation(FromEntries(StableSort(members, le)), members);
  }

  lemma FormInOrder(members: seq<Entry>, le: Comparator)
    requires Preorder(le)
    ensures InOrder(FromEntries(StableSort(members, le)), le)
  {
    var sorted := StableSort(members, le);
    SortSorts(members, le);
    SelectSorted(sorted, le, false);
    IndexLePreorder();
    SortSorts(Select(sorted, true), IndexLe);
    SortPermutes(Select(sorted, true), IndexLe);
    hide StableSort, Preorder, IsIndex, Sorted, InOrder;
    var a, b := StableSort(Select(sorted, true), IndexLe), Select(sorted, false);
    SamePermutation(a, Select(sorted, true));
    ConcatInOrder(a, b, le);
  }

  lemma ConcatInOrder(a: seq<Entry>, b: seq<Entry>, le: Comparator)
    requires Sorted(a, IndexLe) && Sorted(b, le)
    requires (forall e :: e in a ==> IsIndex(e.key)) && forall e :: e in b ==> !IsIndex(e.key)
    ensures InOrder(a + b, le)
  {
    hide Numeric;
    var q := a + b;
    assert forall i :: 0 <= i < |a| ==> q[i] == a[i] && a[i] in a;
    assert forall i :: |a| <= i < |q| ==> q[i] == b[i - |a|] && b[i - |a|] in b;
    forall i, j | 0 <= i < j < |q| && IsIndex(q[j].key)
      ensures IsIndex(q[i].key) && Numeric(q[i].key) <= Numeric(q[j].key)
    {
      assert IndexLe(a[i].key, a[j].key);
    }
    forall i, j | 0 <= i < j < |q| && !IsIndex(q[i].key) ensures le(q[i].key, q[j].key) {
      assert le(b[i - |a|].key, b[j - |a|].key);
    }
  }
}
