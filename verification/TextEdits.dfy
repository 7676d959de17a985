/** Splicing a set of edits into a source text, last edit first. */
module TextEdits {
  import opened Basics

  /** Replace `source[start..end]` by `text`. */
  datatype Edit = Edit(start: nat, end: nat, text: string)

  // ---- the splice ----

  /** `source.slice(from, to)`: positions past the end mean the end. */
  function Slice(source: string, from: nat, to: nat): string {
    var a := if from <= |source| then from else |source|;
    var b := if to <= |source| then to else |source|;
    if a <= b then source[a..b] else ""
  }

  function SpliceOne(source: string, e: Edit): string {
    Slice(source, 0, e.start) + e.text + Slice(source, e.end, |source|)
  }

  function Splice(source: string, edits: seq<Edit>): string
    decreases |edits|
  {
    if edits == [] then source else Splice(SpliceOne(source, edits[0]), edits[1..])
  }

  function Insert(e: Edit, edits: seq<Edit>): seq<Edit> {
    if edits == [] || e.start >= edits[0].start then [e] + edits else [edits[0]] + Insert(e, edits[1..])
  }

  /** The stable sort by descending start. */
  function LastFirst(edits: seq<Edit>): seq<Edit> {
    if edits == [] then [] else Insert(edits[0], LastFirst(edits[1..]))
  }

  /** The edits one by one, each on the text the one before it left. */
  method ApplyEdits(source: string, edits: seq<Edit>) returns (result: string)
    ensures result == Splice(source, LastFirst(edits))
    ensures Applicable(source, edits) ==> result == Simultaneous(source, edits)
  {
    result := source;
    var sorted := LastFirst(edits);
    for i := 0 to |sorted|
      invariant Splice(result, sorted[i..]) == Splice(source, sorted)
    {
      assert sorted[i..][0] == sorted[i] && sorted[i..][1..] == sorted[i + 1..];
      result := Slice(result, 0, sorted[i].start) + sorted[i].text + Slice(result, sorted[i].end, |result|);
    }
    assert sorted[|sorted|..] == [];
    if Applicable(source, edits) {
      SpliceIsSimultaneous(source, edits);
    }
  }

  // ---- all edits at once ----

  predicate InRange(source: string, edits: seq<Edit>) {
    forall i :: 0 <= i < |edits| ==> edits[i].start <= edits[i].end <= |source|
  }

  predicate Apart(e: Edit, f: Edit) {
    e.end <= f.start || f.end <= e.start
  }

  /** No two edits overlap, and no two start at the same place. */
  predicate Separate(edits: seq<Edit>) {
    forall i, j :: 0 <= i < j < |edits| ==> Apart(edits[i], edits[j]) && edits[i].start != edits[j].start
  }

  predicate Applicable(source: string, edits: seq<Edit>) {
    InRange(source, edits) && Separate(edits)
  }

  /** The text that replaces the range starting at a position. */
  function InsertedAt(edits: seq<Edit>, at: nat): string {
    if edits == [] then "" else if edits[0].start == at then edits[0].text else InsertedAt(edits[1..], at)
  }

  predicate Covered(edits: seq<Edit>, at: nat) {
    exists i :: 0 <= i < |edits| && edits[i].start <= at < edits[i].end
  }

  /** A position's contribution: the text inserted there, then its own character unless an edit replaces it. */
  function Piece(source: string, edits: seq<Edit>, at: nat): string {
    InsertedAt(edits, at) + if at < |source| && !Covered(edits, at) then [source[at]] else ""
  }

  function Pieces(source: string, edits: seq<Edit>, count: nat): string {
    if count == 0 then "" else Pieces(source, edits, count - 1) + Piece(source, edits, count - 1)
  }

  /** Every position of the original text makes its contribution, in order. */
  function Simultaneous(source: string, edits: seq<Edit>): string {
    Pieces(source, edits, |source| + 1)
  }

  // ---- the result does not depend on the order of collection ----

  lemma {:induction false} InsertedOnce(edits: seq<Edit>, i: nat, at: nat)
    requires Separate(edits) && i < |edits| && edits[i].start == at
    ensures InsertedAt(edits, at) == edits[i].text
  {
    if i > 0 {
      assert edits[0].start != at;
      InsertedOnce(edits[1..], i - 1, at);
    }
  }

  lemma {:induction false} InsertedNowhere(edits: seq<Edit>, at: nat)
    requires forall i :: 0 <= i < |edits| ==> edits[i].start != at
    ensures InsertedAt(edits, at) == ""
  {
    if edits != [] {
      InsertedNowhere(edits[1..], at);
    }
  }

  lemma SamePieces(source: string, p: seq<Edit>, q: seq<Edit>, at: nat)
    requires Separate(p) && Separate(q) && forall e :: e in p <==> e in q
    ensures Piece(source, p, at) == Piece(source, q, at)
  {
    if i :| 0 <= i < |p| && p[i].start == at {
      assert p[i] in q;
      var j :| 0 <= j < |q| && q[j] == p[i];
      InsertedOnce(p, i, at);
      InsertedOnce(q, j, at);
    } else {
      forall j | 0 <= j < |q| ensures q[j].start != at {
        assert q[j] in p;
      }
      InsertedNowhere(p, at);
      InsertedNowhere(q, at);
    }
    SameCover(p, q, at);
    SameCover(q, p, at);
  }

  lemma SameCover(p: seq<Edit>, q: seq<Edit>, at: nat)
    requires forall e :: e in p ==> e in q
    ensures Covered(p, at) ==> Covered(q, at)
  {
    if Covered(p, at) {
      var i :| 0 <= i < |p| && p[i].start <= at < p[i].end;
      assert p[i] in q;
    }
  }

  lemma {:induction false} SimultaneousIgnoresOrder(source: string, p: seq<Edit>, q: seq<Edit>, count: nat)
    requires Separate(p) && Separate(q) && forall e :: e in p <==> e in q
    ensures Pieces(source, p, count) == Pieces(source, q, count)
  {
    hide Separate, Piece;
    if count > 0 {
      SimultaneousIgnoresOrder(source, p, q, count - 1);
      SamePieces(source, p, q, count - 1);
    }
  }

  // ---- sorting ----

  ghost predicate Falling(edits: seq<Edit>) {
    forall i, j :: 0 <= i < j < |edits| ==> edits[i].start >= edits[j].start
  }

  lemma {:induction false} InsertCounts(e: Edit, edits: seq<Edit>)
    ensures multiset(Insert(e, edits)) == multiset(edits) + multiset{e}
  {
    if edits != [] && e.start < edits[0].start {
      InsertCounts(e, edits[1..]);
      assert multiset(edits) == multiset{edits[0]} + multiset(edits[1..]) by { assert edits == [edits[0]] + edits[1..]; }
    }
  }

  lemma InsertedFrom(e: Edit, edits: seq<Edit>, f: Edit)
    requires f in Insert(e, edits)
    ensures f == e || f in edits
  {
    InsertCounts(e, edits);
    assert f in multiset(Insert(e, edits));
  }

  lemma {:induction false} InsertFalls(e: Edit, edits: seq<Edit>)
    requires Falling(edits)
    ensures Falling(Insert(e, edits))
  {
    if edits != [] && e.start < edits[0].start {
      InsertFalls(e, edits[1..]);
      var rest := Insert(e, edits[1..]);
      forall j | 0 <= j < |rest| ensures edits[0].start >= rest[j].start {
        InsertedFrom(e, edits[1..], rest[j]);
      }
    }
  }

  lemma {:induction false} LastFirstFacts(edits: seq<Edit>)
    ensures Falling(LastFirst(edits)) && multiset(LastFirst(edits)) == multiset(edits)
  {
    if edits != [] {
      LastFirstFacts(edits[1..]);
      InsertFalls(edits[0], LastFirst(edits[1..]));
      InsertCounts(edits[0], LastFirst(edits[1..]));
      assert edits == [edits[0]] + edits[1..];
    }
  }

  lemma {:induction false} NoTwins(edits: seq<Edit>, e: Edit)
    requires Separate(edits)
    ensures multiset(edits)[e] <= 1
  {
    if edits != [] {
      assert edits == [edits[0]] + edits[1..];
      NoTwins(edits[1..], e);
      if edits[0] == e {
        assert e !in edits[1..] && e !in multiset(edits[1..]);
      }
    }
  }

  /** Any arrangement of separate edits is separate. */
  lemma SeparateArrangement(p: seq<Edit>, q: seq<Edit>)
    requires multiset(p) == multiset(q) && Separate(p)
    ensures Separate(q) && forall e :: e in p <==> e in q
  {
    forall e ensures e in p <==> e in q {
      assert e in p <==> e in multiset(p);
      assert e in q <==> e in multiset(q);
    }
    forall i, j | 0 <= i < j < |q| ensures Apart(q[i], q[j]) && q[i].start != q[j].start {
      if q[i] == q[j] {
        TwiceIn(q, i, j);
        NoTwins(p, q[i]);
        assert false;
      }
      assert q[i] in p && q[j] in p;
      var k :| 0 <= k < |p| && p[k] == q[i];
      var l :| 0 <= l < |p| && p[l] == q[j];
      assert k != l;
    }
  }

  // ---- splicing from the back ----

  /** All edits end at or before a position. */
  predicate EndBy(edits: seq<Edit>, at: nat) {
    forall i :: 0 <= i < |edits| ==> edits[i].end <= at
  }

  /** One edit, on a text and on the text with something behind it. */
  lemma SpliceOneParts(front: string, back: string, e: Edit)
    requires e.start <= e.end <= |front|
    ensures SpliceOne(front, e) == front[..e.start] + (e.text + front[e.end..])
    ensures SpliceOne(front + back, e) == front[..e.start] + (e.text + front[e.end..] + back)
  {
    assert (front + back)[..e.start] == front[..e.start];
    assert (front + back)[e.end..] == front[e.end..] + back;
  }

  /** Splicing in front of a position leaves the text behind it alone. */
  lemma {:induction false} SpliceInFront(front: string, back: string, edits: seq<Edit>)
    requires InRange(front, edits) && Separate(edits) && Falling(edits)
    ensures Splice(front + back, edits) == Splice(front, edits) + back
    decreases |edits|
  {
    if edits != [] {
      var e, rest := edits[0], edits[1..];
      var kept, tail := front[..e.start], e.text + front[e.end..];
      RestInFront(edits);
      assert InRange(kept, rest);
      SpliceOneParts(front, back, e);
      assert Splice(front, edits) == Splice(kept + tail, rest);
      assert Splice(front + back, edits) == Splice(kept + (tail + back), rest);
      hide InRange, Separate, Falling, SpliceOne, Splice;
      SpliceInFront(kept, tail + back, rest);
      SpliceInFront(kept, tail, rest);
      Associates(Splice(kept, rest), tail, back);
    }
  }

  lemma Associates(a: string, b: string, c: string)
    ensures a + (b + c) == (a + b) + c
  {
  }

  /** With falling starts, everything after the first edit lies in front of it. */
  lemma RestInFront(edits: seq<Edit>)
    requires edits != [] && Separate(edits) && Falling(edits) && forall i :: 0 <= i < |edits| ==> edits[i].start <= edits[i].end
    ensures EndBy(edits[1..], edits[0].start) && Separate(edits[1..]) && Falling(edits[1..])
    ensures forall i :: 0 <= i < |edits[1..]| ==> edits[1..][i].start < edits[0].start
  {
    forall i | 0 <= i < |edits[1..]|
      ensures edits[1..][i].end <= edits[0].start && edits[1..][i].start < edits[0].start
    {
      assert Apart(edits[0], edits[i + 1]) && edits[0].start != edits[i + 1].start;
    }
  }

  /** Up to the first edit's start, the other edits make all the contributions. */
  lemma {:induction false} PiecesInFront(source: string, edits: seq<Edit>, count: nat)
    requires edits != [] && InRange(source, edits) && Separate(edits) && Falling(edits) && count <= edits[0].start
    ensures Pieces(source, edits, count) == Pieces(source[..edits[0].start], edits[1..], count)
  {
    if count > 0 {
      var at := count - 1;
      PiecesInFront(source, edits, at);
      assert InsertedAt(edits, at) == InsertedAt(edits[1..], at);
      assert Covered(edits, at) <==> Covered(edits[1..], at) by {
        if Covered(edits, at) {
          var i :| 0 <= i < |edits| && edits[i].start <= at < edits[i].end;
          assert edits[1..][i - 1] == edits[i];
        }
        if Covered(edits[1..], at) {
          var i :| 0 <= i < |edits[1..]| && edits[1..][i].start <= at < edits[1..][i].end;
          assert edits[i + 1] == edits[1..][i];
        }
      }
    }
  }

  /** From the first edit's start on: its text, then what it does not replace. */
  lemma {:induction false} PiecesBehind(source: string, edits: seq<Edit>, count: nat)
    requires edits != [] && InRange(source, edits) && Separate(edits) && Falling(edits)
    requires edits[0].start < count <= |source| + 1
    ensures Pieces(source, edits, count) ==
            Pieces(source, edits, edits[0].start) + edits[0].text +
            Slice(source, edits[0].end, count)
  {
    var e, at := edits[0], count - 1;
    FirstCovers(edits, at);
    if at == e.start {
      InsertedOnce(edits, 0, at);
      hide Separate, Falling;
      assert Pieces(source, edits, count) == Pieces(source, edits, at) + Piece(source, edits, at);
      SliceNext(source, e.end, at);
      assert Slice(source, e.end, at) == "";
    } else {
      PiecesBehind(source, edits, at);
      hide Separate, Falling;
      assert Pieces(source, edits, count) == Pieces(source, edits, at) + Piece(source, edits, at);
      SliceNext(source, e.end, at);
    }
  }

  lemma SliceNext(source: string, from: nat, at: nat)
    requires at <= |source| && from <= |source|
    ensures Slice(source, from, at + 1) == Slice(source, from, at) + if from <= at < |source| then [source[at]] else ""
  {
  }

  /** From its start on, the first edit alone decides what is inserted and what is replaced. */
  lemma FirstCovers(edits: seq<Edit>, at: nat)
    requires edits != [] && Separate(edits) && Falling(edits) && at >= edits[0].start
    requires forall i :: 0 <= i < |edits| ==> edits[i].start <= edits[i].end
    ensures Covered(edits, at) <==> at < edits[0].end
    ensures at > edits[0].start ==> InsertedAt(edits, at) == ""
  {
    RestInFront(edits);
    assert forall i :: 0 < i < |edits| ==> edits[i] == edits[1..][i - 1];
    if at > edits[0].start {
      InsertedNowhere(edits, at);
    }
  }

  /** Behind the other edits' starts nothing is left to insert. */
  lemma NothingAtTheEnd(front: string, edits: seq<Edit>)
    requires forall i :: 0 <= i < |edits| ==> edits[i].start < |front|
    ensures Simultaneous(front, edits) == Pieces(front, edits, |front|)
  {
    InsertedNowhere(edits, |front|);
    assert Piece(front, edits, |front|) == "";
  }

  /** The first edit's contribution comes after that of all the others. */
  lemma SimultaneousLast(source: string, edits: seq<Edit>)
    requires edits != [] && InRange(source, edits) && Separate(edits) && Falling(edits)
    ensures Simultaneous(source, edits) ==
            Simultaneous(source[..edits[0].start], edits[1..]) + (edits[0].text + source[edits[0].end..])
  {
    hide Separate, Falling, Piece;
    var e := edits[0];
    assert e == edits[0] && e.start <= e.end <= |source|;
    RestInFront(edits);
    hide InRange;
    PiecesInFront(source, edits, e.start);
    PiecesBehind(source, edits, |source| + 1);
    NothingAtTheEnd(source[..e.start], edits[1..]);
    hide Pieces;
    assert Slice(source, e.end, |source| + 1) == source[e.end..];
  }

  lemma {:induction false} BackwardSplice(source: string, edits: seq<Edit>)
    requires InRange(source, edits) && Separate(edits) && Falling(edits)
    ensures Splice(source, edits) == Simultaneous(source, edits)
    decreases |edits|
  {
    hide Separate, Falling, Simultaneous;
    if edits == [] {
      NoEdits(source);
    } else {
      var e, rest := edits[0], edits[1..];
      var front, back := source[..e.start], e.text + source[e.end..];
      RestInFront(edits);
      assert InRange(front, rest);
      SpliceOneParts(source, [], e);
      hide InRange, SpliceOne;
      SpliceInFront(front, back, rest);
      BackwardSplice(front, rest);
      SimultaneousLast(source, edits);
    }
  }

  lemma NoEdits(source: string)
    ensures Simultaneous(source, []) == source
  {
    Untouched(source, |source| + 1);
  }

  lemma {:induction false} Untouched(source: string, count: nat)
    requires count <= |source| + 1
    ensures Pieces(source, [], count) == Slice(source, 0, count)
  {
    if count > 0 {
      Untouched(source, count - 1);
    }
  }

  /**
   * Splicing disjoint edits with distinct starts, last one first, is the simultaneous substitution
   * of all of them in the original text, whatever order they were collected in.
   */
  lemma SpliceIsSimultaneous(source: string, edits: seq<Edit>)
    requires InRange(source, edits) && Separate(edits)
    ensures Splice(source, LastFirst(edits)) == Simultaneous(source, edits)
  {
    var sorted := LastFirst(edits);
    LastFirstFacts(edits);
    SeparateArrangement(edits, sorted);
    forall i | 0 <= i < |sorted| ensures sorted[i].start <= sorted[i].end <= |source| {
      assert sorted[i] in edits;
    }
    hide Separate, Falling;
    BackwardSplice(source, sorted);
    SimultaneousIgnoresOrder(source, sorted, edits, |source| + 1);
  }

  // ---- edits that start together ----

  predicate AllApart(edits: seq<Edit>) {
    forall i, j :: 0 <= i < j < |edits| ==> Apart(edits[i], edits[j])
  }

  predicate NoneEmpty(edits: seq<Edit>) {
    forall i :: 0 <= i < |edits| ==> edits[i].start < edits[i].end
  }

  /**
   * Disjoint ranges of nodes and comments, none of them empty, never start together: whatever is
   * collected of them is substituted simultaneously.
   */
  lemma NonemptyEditsSplice(source: string, edits: seq<Edit>)
    requires InRange(source, edits) && AllApart(edits) && NoneEmpty(edits)
    ensures Splice(source, LastFirst(edits)) == Simultaneous(source, edits)
  {
    assert Separate(edits);
    SpliceIsSimultaneous(source, edits);
  }

  /** The ranges alone. */
  function Ranges(edits: seq<Edit>): (ranges: seq<Edit>)
    ensures |ranges| == |edits|
    ensures forall i :: 0 <= i < |edits| ==> ranges[i] == edits[i].(text := "")
  {
    seq(|edits|, i requires 0 <= i < |edits| => edits[i].(text := ""))
  }

  /** Whatever texts these ranges get and in whatever order they are collected, the result is the same. */
  ghost predicate OrderNeverShows(source: string, ranges: seq<Edit>) {
    forall p, q :: multiset(Ranges(p)) == multiset(Ranges(ranges)) && multiset(p) == multiset(q) ==>
      Splice(source, LastFirst(p)) == Splice(source, LastFirst(q))
  }

  /**
   * For any disjoint ranges the order of collection never shows exactly when they all start at
   * different places; of two that start together, one is empty and the order decides which text is first.
   */
  lemma OrderShowsAtSharedStarts(source: string, ranges: seq<Edit>)
    requires InRange(source, ranges) && AllApart(ranges)
    ensures OrderNeverShows(source, ranges) <==> Separate(ranges)
  {
    hide InRange, Separate;
    if Separate(ranges) {
      forall p, q | multiset(Ranges(p)) == multiset(Ranges(ranges)) && multiset(p) == multiset(q)
        ensures Splice(source, LastFirst(p)) == Splice(source, LastFirst(q))
      {
        OrderIsHidden(source, ranges, p, q);
      }
    } else {
      TieShows(source, ranges);
    }
  }

  lemma OrderIsHidden(source: string, ranges: seq<Edit>, p: seq<Edit>, q: seq<Edit>)
    requires InRange(source, ranges) && Separate(ranges)
    requires multiset(Ranges(p)) == multiset(Ranges(ranges)) && multiset(p) == multiset(q)
    ensures Splice(source, LastFirst(p)) == Splice(source, LastFirst(q))
  {
    assert Separate(Ranges(ranges));
    SeparateArrangement(Ranges(ranges), Ranges(p));
    forall i | 0 <= i < |p| ensures p[i].start <= p[i].end <= |source| {
      assert Ranges(p)[i] in Ranges(ranges);
    }
    assert Separate(p) by {
      assert forall i, j :: 0 <= i < j < |p| ==> Apart(Ranges(p)[i], Ranges(p)[j]) && Ranges(p)[i].start != Ranges(p)[j].start;
    }
    SeparateArrangement(p, q);
    forall i | 0 <= i < |q| ensures q[i].start <= q[i].end <= |source| {
      assert q[i] in p;
    }
    SpliceIsSimultaneous(source, p);
    SpliceIsSimultaneous(source, q);
    SimultaneousIgnoresOrder(source, p, q, |source| + 1);
  }

  /** The ranges with texts for two neighbours, in this order or the other. */
  function Tied(sorted: seq<Edit>, k: nat, swapped: bool): seq<Edit>
    requires k + 1 < |sorted|
  {
    var x, y := sorted[k].(text := "a"), sorted[k + 1].(text := "b");
    sorted[..k] + (if swapped then [y, x] else [x, y]) + sorted[k + 2..]
  }

  /** Ranges that start together can be given texts and two orders of which the results differ. */
  lemma TieShows(source: string, ranges: seq<Edit>)
    requires InRange(source, ranges) && AllApart(ranges) && !Separate(ranges)
    ensures !OrderNeverShows(source, ranges)
  {
    hide InRange, Separate, AllApart, Falling, LastFirst, Splice, Tied;
    var sorted := LastFirst(Ranges(ranges));
    SortedRanges(source, ranges);
    var k := LastTie(sorted);
    TiedIsSorted(sorted, k);
    TiedDiffer(source, sorted, k);
    FallingIsSorted(Tied(sorted, k, false));
    FallingIsSorted(Tied(sorted, k, true));
  }

  lemma TiedIsSorted(sorted: seq<Edit>, k: nat)
    requires k + 1 < |sorted| && Falling(sorted) && Ranges(sorted) == sorted && sorted[k].start == sorted[k + 1].start
    ensures Falling(Tied(sorted, k, false)) && Falling(Tied(sorted, k, true))
    ensures multiset(Tied(sorted, k, false)) == multiset(Tied(sorted, k, true))
    ensures Ranges(Tied(sorted, k, false)) == sorted
  {
    TiedAt(sorted, k, false);
    TiedAt(sorted, k, true);
    SwappedPair(sorted[..k], sorted[k].(text := "a"), sorted[k + 1].(text := "b"), sorted[k + 2..]);
    hide Ranges, Tied;
    var p, q := Tied(sorted, k, false), Tied(sorted, k, true);
    assert forall i :: 0 <= i < |sorted| ==> p[i].start == q[i].start == sorted[i].start;
  }

  lemma TiedAt(sorted: seq<Edit>, k: nat, swapped: bool)
    requires k + 1 < |sorted| && Ranges(sorted) == sorted && sorted[k].start == sorted[k + 1].start
    ensures var p := Tied(sorted, k, swapped);
            |p| == |sorted| && (forall i :: 0 <= i < |p| ==> p[i].start == sorted[i].start) &&
            (!swapped ==> Ranges(p) == sorted)
  {
    forall i | 0 <= i < |sorted| ensures !swapped ==> Ranges(Tied(sorted, k, swapped))[i] == sorted[i] {
      assert Ranges(sorted)[i] == sorted[i];
    }
  }

  lemma SwappedPair(above: seq<Edit>, x: Edit, y: Edit, below: seq<Edit>)
    ensures multiset(above + [x, y] + below) == multiset(above + [y, x] + below)
  {
  }

  lemma TiedDiffer(source: string, sorted: seq<Edit>, k: nat)
    requires InRange(source, sorted) && Falling(sorted) && AllApart(sorted)
    requires k + 1 < |sorted| && sorted[k].start == sorted[k + 1].start && Separate(sorted[k + 1..])
    ensures Splice(source, Tied(sorted, k, false)) != Splice(source, Tied(sorted, k, true))
  {
    BelowTie(source, sorted, k);
    var above, x, y, below := sorted[..k], sorted[k].(text := "a"), sorted[k + 1].(text := "b"), sorted[k + 2..];
    assert forall i :: 0 <= i < |above| ==> above[i] == sorted[i];
    assert x.start <= x.end && y.start <= y.end;
    hide Separate, AllApart, Splice;
    LastOfTie(source, above, x, y, below);
    LastOfTie(source, above, y, x, below);
  }

  lemma SortedRanges(source: string, ranges: seq<Edit>)
    requires InRange(source, ranges) && AllApart(ranges) && !Separate(ranges)
    ensures var sorted := LastFirst(Ranges(ranges));
            multiset(sorted) == multiset(Ranges(ranges)) && Falling(sorted) && AllApart(sorted) && !Separate(sorted) &&
            InRange(source, sorted) && Ranges(sorted) == sorted
  {
    var blank := Ranges(ranges);
    var sorted := LastFirst(blank);
    LastFirstFacts(blank);
    LastFirstApart(blank);
    SamePermutation(sorted, blank);
    forall i | 0 <= i < |sorted| ensures sorted[i].start <= sorted[i].end <= |source| && sorted[i].text == "" {
      assert sorted[i] in blank;
    }
    if Separate(sorted) {
      SeparateArrangement(sorted, blank);
      assert false;
    }
  }

  lemma {:induction false} InsertApart(e: Edit, edits: seq<Edit>)
    requires AllApart(edits) && forall f :: f in edits ==> Apart(e, f)
    ensures AllApart(Insert(e, edits))
  {
    if edits != [] && e.start < edits[0].start {
      InsertApart(e, edits[1..]);
      var rest := Insert(e, edits[1..]);
      assert edits[0] in edits;
      forall j | 0 <= j < |rest| ensures Apart(edits[0], rest[j]) {
        InsertedFrom(e, edits[1..], rest[j]);
      }
    }
  }

  lemma {:induction false} LastFirstApart(edits: seq<Edit>)
    requires AllApart(edits)
    ensures AllApart(LastFirst(edits))
  {
    if edits != [] {
      LastFirstApart(edits[1..]);
      LastFirstFacts(edits[1..]);
      SamePermutation(LastFirst(edits[1..]), edits[1..]);
      InsertApart(edits[0], LastFirst(edits[1..]));
    }
  }

  lemma {:induction false} FallingIsSorted(edits: seq<Edit>)
    requires Falling(edits)
    ensures LastFirst(edits) == edits
  {
    if edits != [] {
      FallingIsSorted(edits[1..]);
    }
  }

  /** The last two neighbours that start together. */
  lemma {:induction false} LastTie(sorted: seq<Edit>) returns (k: nat)
    requires Falling(sorted) && AllApart(sorted) && !Separate(sorted)
    ensures k + 1 < |sorted| && sorted[k].start == sorted[k + 1].start && Separate(sorted[k + 1..])
    decreases |sorted|
  {
    if Separate(sorted[1..]) {
      k := 0;
      FirstTies(sorted);
    } else {
      assert Falling(sorted[1..]) && AllApart(sorted[1..]);
      hide Separate, Falling, AllApart;
      var later := LastTie(sorted[1..]);
      k := later + 1;
      assert sorted[1..][later + 1..] == sorted[k + 1..];
    }
  }

  lemma FirstTies(sorted: seq<Edit>)
    requires sorted != [] && Falling(sorted) && AllApart(sorted) && !Separate(sorted) && Separate(sorted[1..])
    ensures |sorted| > 1 && sorted[0].start == sorted[1].start
  {
    assert forall i :: 0 < i < |sorted| ==> sorted[i] == sorted[1..][i - 1];
    var i, j :| 0 <= i < j < |sorted| && sorted[i].start == sorted[j].start;
    assert i == 0;
  }

  /** The edits behind the last tie lie in front of it in the text. */
  lemma BelowTie(source: string, sorted: seq<Edit>, k: nat)
    requires InRange(source, sorted) && Falling(sorted) && AllApart(sorted) && k + 1 < |sorted|
    requires Separate(sorted[k + 1..])
    ensures sorted[k + 1].start <= |source| && InRange(source[..sorted[k + 1].start], sorted[k + 2..])
    ensures Separate(sorted[k + 2..]) && Falling(sorted[k + 2..])
  {
    var tail := sorted[k + 1..];
    assert tail[1..] == sorted[k + 2..] && Falling(tail);
    assert forall i :: 0 <= i < |tail| ==> tail[i] == sorted[k + 1 + i];
    RestInFront(tail);
  }

  /** Edits behind a position leave the text in front of it alone. */
  lemma {:induction false} FrontStays(source: string, edits: seq<Edit>, at: nat)
    requires at <= |source| && forall i :: 0 <= i < |edits| ==> at <= edits[i].start <= edits[i].end
    ensures at <= |Splice(source, edits)| && Splice(source, edits)[..at] == source[..at]
    decreases |edits|
  {
    if edits != [] {
      FrontStays(SpliceOne(source, edits[0]), edits[1..], at);
    }
  }

  lemma {:induction false} SpliceConcat(source: string, a: seq<Edit>, b: seq<Edit>)
    ensures Splice(source, a + b) == Splice(Splice(source, a), b)
    decreases |a|
  {
    if a == [] {
      assert a + b == b;
    } else {
      assert (a + b)[1..] == a[1..] + b;
      SpliceConcat(SpliceOne(source, a[0]), a[1..], b);
    }
  }

  /** Of the edits that start at one place, the text of the one applied last comes first. */
  lemma LastOfTie(source: string, above: seq<Edit>, x: Edit, y: Edit, below: seq<Edit>)
    requires x.start == y.start <= |source| && x.start <= x.end && y.start <= y.end && |y.text| == 1
    requires forall i :: 0 <= i < |above| ==> y.start <= above[i].start <= above[i].end
    requires InRange(source[..y.start], below) && Separate(below) && Falling(below)
    ensures var all := Splice(source, above + [x, y] + below);
            var front := Splice(source[..y.start], below);
            |front| < |all| && all[|front|] == y.text[0]
  {
    hide InRange, Separate, Falling;
    var at := y.start;
    SpliceConcat(source, above + [x, y], below);
    SpliceConcat(source, above, [x, y]);
    FrontStays(source, above, at);
    var high := Splice(source, above);
    FrontStays(high, [x, y], at);
    var tied := Splice(high, [x, y]);
    assert at < |tied| && tied[at] == y.text[0] by {
      assert [x, y][1..] == [y] && [y][1..] == [];
      assert tied == Splice(SpliceOne(high, x), [y]) == SpliceOne(SpliceOne(high, x), y);
    }
    hide Splice;
    assert tied == source[..at] + tied[at..];
    SpliceInFront(source[..at], tied[at..], below);
  }
}
