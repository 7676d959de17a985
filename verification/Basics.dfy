/** What every component of the project uses: optional values, minima, permutations of a sequence. */
module Basics {

  datatype Option<+T> = None | Some(value: T)

  function Min(a: nat, b: nat): nat {
    if a < b then a else b
  }

  lemma SamePermutation<T>(p: seq<T>, q: seq<T>)
    requires multiset(p) == multiset(q)
    ensures |p| == |q|
    ensures forall x :: x in p <==> x in q
  {
    assert |p| == |multiset(p)| == |multiset(q)| == |q|;
    forall x ensures x in p <==> x in q {
      assert x in p <==> x in multiset(p);
      assert x in q <==> x in multiset(q);
    }
  }

  lemma TwiceIn<T>(q: seq<T>, i: nat, j: nat)
    requires i < j < |q| && q[i] == q[j]
    ensures multiset(q)[q[i]] >= 2
  {
    assert q == q[..i] + [q[i]] + q[i + 1..j] + [q[j]] + q[j + 1..];
  }
}
