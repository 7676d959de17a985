/** Keyset pagination over the catalog's rows, newest first, with a cursor of limited precision. */
module CatalogPages {
  import opened Basics
  import opened CatalogTypes
  import opened CatalogSpec
  import opened CatalogInvariant
  import opened CatalogHistory
  import opened Ordering

  function Reversed(q: seq<Key>): (r: seq<Key>)
    ensures |r| == |q|
    ensures forall i :: 0 <= i < |q| ==> r[i] == q[|q| - 1 - i]
  {
    seq(|q|, i requires 0 <= i < |q| => q[|q| - 1 - i])
  }

  ghost predicate Descending(q: seq<Key>) {
    forall i, j :: 0 <= i < j < |q| ==> Before(q[j], q[i])
  }

  /** `where ($1 is null or (created_at, extraction_id) < ($1, $2))` */
  function Matching(rows: set<Key>, cursor: Option<Key>): set<Key> {
    set k | k in rows && (cursor.None? || Before(k, cursor.value))
  }

  /** `order by created_at desc, extraction_id desc` */
  function NewestFirst(rows: set<Key>): (q: seq<Key>)
    ensures |q| == |rows|
    ensures forall k :: k in q <==> k in rows
    ensures Descending(q)
  {
    var q := Reversed(Sort(rows));
    forall k ensures k in q <==> k in rows {
      if k in rows {
        var i :| 0 <= i < |rows| && Sort(rows)[i] == k;
        assert q[|rows| - 1 - i] == k;
      }
    }
    q
  }

  /** The cursor keeps `created_at` only to whole multiples of `precision`. */
  function CursorAt(k: Key, precision: int): Key
    requires precision > 0
  {
    Key(k.at - k.at % precision, k.id)
  }

  /** Columns hold microseconds; `toISOString` writes milliseconds. */
  const TIMESTAMP_PRECISION := 1000

  /** `revision < $1`: the revision number itself is the cursor. */
  const REVISION_PRECISION := 1

  datatype Page = Page(items: seq<Key>, next: Option<Key>)

  function Fetch(rows: set<Key>, cursor: Option<Key>, limit: nat, precision: int): Page
    requires precision > 0
  {
    var q := NewestFirst(Matching(rows, cursor));
    var fetched := if |q| <= limit + 1 then q else q[..limit + 1];
    var items := if |fetched| <= limit then fetched else fetched[..limit];
    Page(items, if |fetched| > limit && |items| > 0 then Some(CursorAt(items[|items| - 1], precision)) else None)
  }

  /**
   * A client follows cursors until there is none; `tables[i]` are the rows at its request `i`,
   * which may differ from one request to the next.
   */
  function Follow(tables: seq<set<Key>>, cursor: Option<Key>, limit: nat, precision: int): seq<Key>
    requires precision > 0
    decreases |tables|
  {
    if tables == [] then []
    else
      var page := Fetch(tables[0], cursor, limit, precision);
      page.items + if page.next.None? then [] else Follow(tables[1..], page.next, limit, precision)
  }

  /** The client reaches a page without a next cursor within `|tables|` requests. */
  predicate Completed(tables: seq<set<Key>>, cursor: Option<Key>, limit: nat, precision: int)
    requires precision > 0
    decreases |tables|
  {
    tables != [] &&
    var page := Fetch(tables[0], cursor, limit, precision);
    page.next.None? || Completed(tables[1..], page.next, limit, precision)
  }

  /** The last row of every page that has a successor. */
  function Boundaries(tables: seq<set<Key>>, cursor: Option<Key>, limit: nat, precision: int): seq<Key>
    requires precision > 0
    decreases |tables|
  {
    if tables == [] then []
    else
      var page := Fetch(tables[0], cursor, limit, precision);
      if page.next.None? || page.items == [] then []
      else [page.items[|page.items| - 1]] + Boundaries(tables[1..], page.next, limit, precision)
  }

  /** The row sorts after `boundary` but not after the cursor made from it. */
  predicate Gap(k: Key, boundary: Key, precision: int)
    requires precision > 0
  {
    Before(k, boundary) && !Before(k, CursorAt(boundary, precision))
  }

  predicate Skipped(k: Key, boundaries: seq<Key>, precision: int)
    requires precision > 0
  {
    exists b :: b in boundaries && Gap(k, b, precision)
  }

  // ---- one page ----

  lemma CursorIsNotLater(k: Key, precision: int)
    requires precision > 0
    ensures CursorAt(k, precision) == k || Before(CursorAt(k, precision), k)
    ensures k.at % precision == 0 ==> CursorAt(k, precision) == k
  {
  }

  /** A page is the newest matching rows; a next cursor means it is full and something older was seen. */
  ghost predicate NewestPage(page: Page, matching: set<Key>, limit: nat, precision: int)
    requires precision > 0
  {
    Descending(page.items) && |page.items| <= limit &&
    (forall k :: k in page.items ==> k in matching) &&
    (page.next.Some? ==>
       FullPage(page, limit, precision) && |matching| > limit &&
       forall k | k in matching :: k !in page.items ==> Before(k, page.items[limit - 1])) &&
    (page.next.None? && limit > 0 ==> forall k :: k in matching ==> k in page.items)
  }

  ghost predicate FullPage(page: Page, limit: nat, precision: int)
    requires precision > 0
  {
    |page.items| == limit && limit > 0 && Descending(page.items) &&
    page.next == Some(CursorAt(page.items[limit - 1], precision))
  }

  lemma PageFacts(rows: set<Key>, cursor: Option<Key>, limit: nat, precision: int)
    requires precision > 0
    ensures NewestPage(Fetch(rows, cursor, limit, precision), Matching(rows, cursor), limit, precision)
  {
    hide Before, CursorAt, NewestFirst, Matching, Sort;
    var q := NewestFirst(Matching(rows, cursor));
    var page := Fetch(rows, cursor, limit, precision);
    if |q| > limit {
      assert page.items == q[..limit];
      assert forall i :: 0 <= i < limit ==> q[i] == page.items[i];
      assert forall i :: limit <= i < |q| && limit > 0 ==> Before(q[i], q[limit - 1]);
    } else {
      assert page.items == q;
    }
  }

  // ---- following cursors ----

  /** Whatever is inserted meanwhile, the rows come strictly newest first: none is repeated. */
  lemma {:induction false} FollowDescends(tables: seq<set<Key>>, cursor: Option<Key>, limit: nat, precision: int)
    requires precision > 0
    ensures Descending(Follow(tables, cursor, limit, precision))
    ensures cursor.Some? ==> forall k :: k in Follow(tables, cursor, limit, precision) ==> Before(k, cursor.value)
    decreases |tables|
  {
    hide Before, Fetch, CursorAt;
    if tables != [] {
      var page := Fetch(tables[0], cursor, limit, precision);
      PageFacts(tables[0], cursor, limit, precision);
      if page.next.Some? {
        var rest := Follow(tables[1..], page.next, limit, precision);
        FollowDescends(tables[1..], page.next, limit, precision);
        RestFollowsPage(page, rest, limit, precision);
        if cursor.Some? {
          forall k | k in rest ensures Before(k, cursor.value) {
            BelowPage(page, 0, k, limit, precision);
            assert page.items[0] in Matching(tables[0], cursor);
            BeforeTransitive(k, page.items[0], cursor.value);
          }
        }
      }
    }
  }

  lemma RestFollowsPage(page: Page, rest: seq<Key>, limit: nat, precision: int)
    requires precision > 0 && FullPage(page, limit, precision) && Descending(rest)
    requires forall k :: k in rest ==> Before(k, page.next.value)
    ensures Descending(page.items + rest)
  {
    hide Before, CursorAt;
    forall i, j | 0 <= i < limit && 0 <= j < |rest| ensures Before(rest[j], page.items[i]) {
      BelowPage(page, i, rest[j], limit, precision);
    }
  }

  lemma BelowPage(page: Page, i: nat, k: Key, limit: nat, precision: int)
    requires precision > 0 && FullPage(page, limit, precision) && i < limit
    requires Before(k, page.next.value)
    ensures Before(k, page.items[i])
  {
    hide Before, CursorAt;
    var last := page.items[limit - 1];
    CursorIsNotLater(last, precision);
    if CursorAt(last, precision) != last {
      BeforeTransitive(k, CursorAt(last, precision), last);
    }
    if i < limit - 1 {
      BeforeTransitive(k, last, page.items[i]);
    }
  }

  lemma {:induction false} BoundariesAreReturned(tables: seq<set<Key>>, cursor: Option<Key>, limit: nat, precision: int)
    requires precision > 0
    ensures forall b :: b in Boundaries(tables, cursor, limit, precision) ==> b in Follow(tables, cursor, limit, precision)
    decreases |tables|
  {
    if tables != [] {
      var page := Fetch(tables[0], cursor, limit, precision);
      if page.next.Some? {
        BoundariesAreReturned(tables[1..], page.next, limit, precision);
      }
    }
  }

  /**
   * A row present at every request is returned unless it falls between the last row of some page
   * and the cursor made from it; then it is never returned.
   */
  lemma {:induction false} ReturnedUnlessSkipped(
    tables: seq<set<Key>>, cursor: Option<Key>, limit: nat, precision: int, k: Key)
    requires precision > 0 && limit > 0 && Completed(tables, cursor, limit, precision)
    requires forall i :: 0 <= i < |tables| ==> k in tables[i]
    requires cursor.Some? ==> Before(k, cursor.value)
    ensures k in Follow(tables, cursor, limit, precision) <==>
            !Skipped(k, Boundaries(tables, cursor, limit, precision), precision)
    decreases |tables|
  {
    hide Before, Fetch, CursorAt;
    var page := Fetch(tables[0], cursor, limit, precision);
    PageFacts(tables[0], cursor, limit, precision);
    assert k in Matching(tables[0], cursor);
    if page.next.Some? {
      var last := page.items[limit - 1];
      var rest := Boundaries(tables[1..], page.next, limit, precision);
      var boundaries := Boundaries(tables, cursor, limit, precision);
      assert boundaries == [last] + rest;
      FollowDescends(tables[1..], page.next, limit, precision);
      BoundariesAreReturned(tables[1..], page.next, limit, precision);
      if k in page.items {
        forall b | b in boundaries ensures !Gap(k, b, precision) {
          NoGapAbove(page, k, b, limit, precision);
        }
      } else if Before(k, CursorAt(last, precision)) {
        ReturnedUnlessSkipped(tables[1..], page.next, limit, precision, k);
        assert !Gap(k, last, precision);
      } else {
        assert last in boundaries && Gap(k, last, precision);
      }
    }
  }

  /** A row on a page is above that page's last row and everything that comes later. */
  lemma NoGapAbove(page: Page, k: Key, b: Key, limit: nat, precision: int)
    requires precision > 0 && FullPage(page, limit, precision) && k in page.items
    requires b == page.items[limit - 1] || Before(b, page.next.value)
    ensures !Before(k, b)
  {
    var i :| 0 <= i < limit && page.items[i] == k;
    if b == page.items[limit - 1] {
      BeforeTotal(k, b);
    } else {
      BelowPage(page, i, b, limit, precision);
      BeforeTotal(k, b);
    }
  }

  /** With timestamps on whole multiples of the precision, no row is ever skipped. */
  lemma WholeTimesSkipNothing(tables: seq<set<Key>>, cursor: Option<Key>, limit: nat, precision: int, k: Key)
    requires precision > 0
    requires forall i, row :: 0 <= i < |tables| && row in tables[i] ==> row.at % precision == 0
    ensures !Skipped(k, Boundaries(tables, cursor, limit, precision), precision)
  {
    BoundariesAreReturned(tables, cursor, limit, precision);
    FollowReturnsRows(tables, cursor, limit, precision);
    forall b | b in Boundaries(tables, cursor, limit, precision) ensures !Gap(k, b, precision) {
      CursorIsNotLater(b, precision);
    }
  }

  lemma {:induction false} FollowReturnsRows(tables: seq<set<Key>>, cursor: Option<Key>, limit: nat, precision: int)
    requires precision > 0
    ensures forall k :: k in Follow(tables, cursor, limit, precision) ==> exists i :: 0 <= i < |tables| && k in tables[i]
    decreases |tables|
  {
    hide Before, Fetch, CursorAt, Descending;
    if tables != [] {
      var page := Fetch(tables[0], cursor, limit, precision);
      PageFacts(tables[0], cursor, limit, precision);
      var rest := Follow(tables[1..], page.next, limit, precision);
      FollowReturnsRows(tables[1..], page.next, limit, precision);
      assert Follow(tables, cursor, limit, precision) == page.items + if page.next.None? then [] else rest;
      forall k | k in Follow(tables, cursor, limit, precision)
        ensures exists i :: 0 <= i < |tables| && k in tables[i]
      {
        if k in page.items {
          assert k in tables[0];
        } else {
          assert k in rest;
          var i :| 0 <= i < |tables[1..]| && k in tables[1..][i];
          assert k in tables[i + 1];
        }
      }
    }
  }

  /** Rows that all lie in a finite set are exhausted: more requests than rows are never needed. */
  lemma {:induction false} FollowingEnds(
    tables: seq<set<Key>>, all: set<Key>, cursor: Option<Key>, limit: nat, precision: int)
    requires precision > 0
    requires forall i :: 0 <= i < |tables| ==> tables[i] <= all
    requires |tables| > |Matching(all, cursor)|
    ensures Completed(tables, cursor, limit, precision)
    decreases |tables|
  {
    hide Before, Fetch, CursorAt;
    var page := Fetch(tables[0], cursor, limit, precision);
    PageFacts(tables[0], cursor, limit, precision);
    if page.next.Some? {
      assert page.items[limit - 1] in Matching(tables[0], cursor);
      FewerMatch(all, cursor, page, limit, precision);
      FollowingEnds(tables[1..], all, page.next, limit, precision);
    }
  }

  lemma FewerMatch(all: set<Key>, cursor: Option<Key>, page: Page, limit: nat, precision: int)
    requires precision > 0 && FullPage(page, limit, precision) && page.items[limit - 1] in Matching(all, cursor)
    ensures |Matching(all, page.next)| < |Matching(all, cursor)|
  {
    hide Before, CursorAt, Descending;
    var last := page.items[limit - 1];
    forall k | k in Matching(all, page.next) ensures k in Matching(all, cursor) - {last} {
      BelowPage(page, limit - 1, k, limit, precision);
      BeforeTotal(k, last);
      if cursor.Some? {
        BeforeTransitive(k, last, cursor.value);
      }
    }
    SubsetSize(Matching(all, page.next), Matching(all, cursor) - {last});
  }

  lemma {:induction false} SubsetSize<T>(a: set<T>, b: set<T>)
    requires a <= b
    ensures |a| <= |b|
  {
    if a != {} {
      var x :| x in a;
      SubsetSize(a - {x}, b - {x});
    }
  }

  // ---- a table that does not change ----

  function Unchanging(rows: set<Key>): seq<set<Key>> {
    seq(|rows| + 1, i => rows)
  }

  function Listing(rows: set<Key>, limit: nat, precision: int): seq<Key>
    requires precision > 0
  {
    Follow(Unchanging(rows), None, limit, precision)
  }

  /** Every row sorts below the cursor made from any row it sorts below. */
  ghost predicate CursorsSeparate(rows: set<Key>, precision: int)
    requires precision > 0
  {
    forall a, b :: a in rows && b in rows && Before(b, a) ==> Before(b, CursorAt(a, precision))
  }

  lemma ListingCompletes(rows: set<Key>, limit: nat, precision: int)
    requires precision > 0
    ensures Completed(Unchanging(rows), None, limit, precision)
  {
    assert Matching(rows, None) == rows;
    FollowingEnds(Unchanging(rows), rows, None, limit, precision);
  }

  /**
   * Listing a table page by page gives all its rows, newest first, for every page size, exactly
   * when no cursor swallows a row: for timestamps, when rows of one millisecond do not straddle it.
   */
  lemma ListingIsTheTable(rows: set<Key>, precision: int)
    requires precision > 0
    ensures (forall limit: nat :: limit > 0 ==> Listing(rows, limit, precision) == NewestFirst(rows)) <==>
            CursorsSeparate(rows, precision)
  {
    if CursorsSeparate(rows, precision) {
      forall limit: nat | limit > 0 ensures Listing(rows, limit, precision) == NewestFirst(rows) {
        SeparateListing(rows, limit, precision);
      }
    } else {
      var a, b :| a in rows && b in rows && Before(b, a) && !Before(b, CursorAt(a, precision));
      SingleRowPages(rows, precision, a, b);
    }
  }

  lemma SeparateListing(rows: set<Key>, limit: nat, precision: int)
    requires precision > 0 && limit > 0 && CursorsSeparate(rows, precision)
    ensures Listing(rows, limit, precision) == NewestFirst(rows)
  {
    hide Before, CursorAt, Fetch, Follow, Boundaries, Completed, Descending, Skipped, CursorsSeparate, NewestFirst;
    var tables := Unchanging(rows);
    ListingCompletes(rows, limit, precision);
    BoundariesAreReturned(tables, None, limit, precision);
    FollowReturnsRows(tables, None, limit, precision);
    FollowDescends(tables, None, limit, precision);
    forall k ensures k in Listing(rows, limit, precision) <==> k in rows {
      if k in rows {
        ReturnedUnlessSkipped(tables, None, limit, precision, k);
        NothingSkipped(rows, Boundaries(tables, None, limit, precision), k, precision);
      }
    }
    DescendingUnique(Listing(rows, limit, precision), NewestFirst(rows), rows);
  }

  lemma NothingSkipped(rows: set<Key>, boundaries: seq<Key>, k: Key, precision: int)
    requires precision > 0 && CursorsSeparate(rows, precision) && k in rows
    requires forall b :: b in boundaries ==> b in rows
    ensures !Skipped(k, boundaries, precision)
  {
    hide Before, CursorAt;
  }

  lemma DescendingUnique(p: seq<Key>, q: seq<Key>, rows: set<Key>)
    requires Descending(p) && Descending(q)
    requires forall k :: k in p <==> k in rows
    requires forall k :: k in q <==> k in rows
    ensures p == q
  {
    hide Before, Descending, Ascending;
    ReversedElements(p);
    ReversedElements(q);
    SortUnique(Reversed(p), rows);
    SortUnique(Reversed(q), rows);
    ReversedTwice(p);
    ReversedTwice(q);
  }

  lemma ReversedTwice(p: seq<Key>)
    ensures Reversed(Reversed(p)) == p
  {
  }

  lemma ReversedElements(p: seq<Key>)
    ensures forall k :: k in Reversed(p) <==> k in p
    ensures Descending(p) ==> Ascending(Reversed(p))
  {
    forall k | k in p ensures k in Reversed(p) {
      var i :| 0 <= i < |p| && p[i] == k;
      assert Reversed(p)[|p| - 1 - i] == k;
    }
  }

  /** Pages of one row make every row but the oldest a boundary. */
  lemma SingleRowPages(rows: set<Key>, precision: int, a: Key, b: Key)
    requires precision > 0 && a in rows && b in rows && Gap(b, a, precision)
    ensures Listing(rows, 1, precision) != NewestFirst(rows)
  {
    var tables := Unchanging(rows);
    ListingCompletes(rows, 1, precision);
    if Listing(rows, 1, precision) == NewestFirst(rows) {
      SingleRowBoundaries(tables, None, precision, a, b);
      ReturnedUnlessSkipped(tables, None, 1, precision, b);
      assert false;
    }
  }

  lemma {:induction false} SingleRowBoundaries(
    tables: seq<set<Key>>, cursor: Option<Key>, precision: int, a: Key, b: Key)
    requires precision > 0 && Before(b, a)
    requires a in Follow(tables, cursor, 1, precision) && b in Follow(tables, cursor, 1, precision)
    ensures a in Boundaries(tables, cursor, 1, precision)
    decreases |tables|
  {
    hide Before, Fetch, CursorAt;
    var page := Fetch(tables[0], cursor, 1, precision);
    PageFacts(tables[0], cursor, 1, precision);
    BeforeTotal(a, b);
    if page.next.Some? {
      var rest := Follow(tables[1..], page.next, 1, precision);
      assert Follow(tables, cursor, 1, precision) == [page.items[0]] + rest;
      if a != page.items[0] {
        FollowDescends(tables[1..], page.next, 1, precision);
        BelowPage(page, 0, a, 1, precision);
        SingleRowBoundaries(tables[1..], page.next, precision, a, b);
      }
    }
  }

  /** Rows that follow a row within its millisecond are lost at a page end: two of them are enough. */
  lemma RowsOfOneMillisecondAreLost(later: Key, earlier: Key)
    requires later.at / 1000 == earlier.at / 1000 && earlier.at < later.at && earlier.at % 1000 != 0
    ensures earlier !in Listing({later, earlier}, 1, TIMESTAMP_PRECISION)
  {
    SameMillisecondGap(later, earlier);
    hide Before, CursorAt, Gap, Fetch, Follow, Matching, Boundaries, Completed, NewestPage;
    var rows := {later, earlier};
    var tables := Unchanging(rows);
    ListingCompletes(rows, 1, TIMESTAMP_PRECISION);
    EverythingMatches(rows);
    PageFacts(rows, None, 1, TIMESTAMP_PRECISION);
    FirstOfTwo(Fetch(rows, None, 1, TIMESTAMP_PRECISION), later, earlier);
    FirstBoundary(tables, later);
    ReturnedUnlessSkipped(tables, None, 1, TIMESTAMP_PRECISION, earlier);
  }

  lemma EverythingMatches(rows: set<Key>)
    ensures Matching(rows, None) == rows
  {
  }

  lemma FirstBoundary(tables: seq<set<Key>>, last: Key)
    requires tables != [] && Fetch(tables[0], None, 1, TIMESTAMP_PRECISION).next.Some?
    requires Fetch(tables[0], None, 1, TIMESTAMP_PRECISION).items == [last]
    ensures last in Boundaries(tables, None, 1, TIMESTAMP_PRECISION)
  {
    hide Fetch;
  }

  lemma SameMillisecondGap(later: Key, earlier: Key)
    requires later.at / 1000 == earlier.at / 1000 && earlier.at < later.at && earlier.at % 1000 != 0
    ensures Before(earlier, later) && Gap(earlier, later, TIMESTAMP_PRECISION)
  {
  }

  lemma FirstOfTwo(page: Page, later: Key, earlier: Key)
    requires NewestPage(page, {later, earlier}, 1, TIMESTAMP_PRECISION) && Before(earlier, later)
    ensures page.next.Some? && page.items == [later]
  {
    hide Before, CursorAt;
    BeforeTotal(earlier, later);
    var first := if |page.items| == 1 then page.items[0] else later;
    assert |page.items| == 1 ==> page.items == [first] && first in page.items;
    assert page.next.None? ==> later == first && earlier == first;
  }

  // ---- the listings of the catalog ----

  datatype ExtractionFilter = ExtractionFilter(
    sourceWorkflow: Option<string>, sourceRunId: Option<string>, hasObservation: Option<bool>)

  predicate Admits<T(==)>(wanted: Option<T>, value: T) {
    wanted.None? || wanted.value == value
  }

  function ExtractionKeys(extractions: Extractions, observations: Observations, f: ExtractionFilter): set<Key> {
    set id | id in extractions && Admits(f.sourceWorkflow, extractions[id].sourceWorkflow) &&
             Admits(f.sourceRunId, extractions[id].sourceRunId) && Admits(f.hasObservation, id in observations)
      :: Key(extractions[id].createdAt, id)
  }

  datatype ObservationStatus = PendingOnly | ConsumedOnly

  datatype ObservationFilter = ObservationFilter(status: Option<ObservationStatus>, consumedRevision: Option<nat>)

  predicate ObservationListed(o: Observation, f: ObservationFilter) {
    (f.status == Some(PendingOnly) ==> o.consumed.None?) &&
    (f.status == Some(ConsumedOnly) ==> o.consumed.Some?) &&
    (f.consumedRevision.Some? ==> o.consumed == f.consumedRevision)
  }

  function ObservationKeys(observations: Observations, f: ObservationFilter): set<Key> {
    set id | id in observations && ObservationListed(observations[id], f) :: Key(observations[id].createdAt, id)
  }

  function RevisionKeys(revisions: Revisions): set<Key> {
    set r | r in revisions :: Key(r, "")
  }

  /** A filter on extractions, column by column; an absent condition lets everything pass. */
  ghost predicate PassesFilter(e: Extraction, observed: bool, f: ExtractionFilter) {
    (f.sourceWorkflow.Some? ==> e.sourceWorkflow == f.sourceWorkflow.value) &&
    (f.sourceRunId.Some? ==> e.sourceRunId == f.sourceRunId.value) &&
    (f.hasObservation.Some? ==> observed == f.hasObservation.value)
  }

  /** What is listed: extractions that pass the filter, observations of the status and revision asked for, all revisions. */
  lemma ListedRowsMean(e: Extractions, o: Observations, v: Revisions, f: ExtractionFilter, g: ObservationFilter, k: Key)
    ensures k in ExtractionKeys(e, o, f) <==> k.id in e && k.at == e[k.id].createdAt && PassesFilter(e[k.id], k.id in o, f)
    ensures k in ObservationKeys(o, g) <==>
            k.id in o && k.at == o[k.id].createdAt && (g.status == Some(PendingOnly) ==> o[k.id].consumed == None) &&
            (g.status == Some(ConsumedOnly) ==> o[k.id].consumed != None) &&
            (g.consumedRevision.Some? ==> o[k.id].consumed == Some(g.consumedRevision.value))
    ensures k in RevisionKeys(v) <==> k.id == "" && k.at >= 0 && k.at in v
  {
    assert k == Key(k.at, k.id);
  }

  /** The catalog as it stands at each request: every later state is reached from the one before. */
  ghost predicate Evolves(states: seq<State>) {
    (forall i :: 0 <= i < |states| ==> Inv(states[i])) &&
    forall i, j :: 0 <= i <= j < |states| ==> Extends(states[i], states[j])
  }

  lemma {:induction false} RunsEvolve(s: State, between: seq<seq<Operation>>)
    requires Reachable(s)
    ensures Evolves(Visited(s, between)) && Visited(s, between)[0] == s
    decreases |between|
  {
    ReachableInv(s);
    hide Inv, Extends, Apply, Run;
    VisitedEvolve(s, between);
  }

  ghost function Visited(s: State, between: seq<seq<Operation>>): (states: seq<State>)
    ensures |states| == |between| + 1 && states[0] == s
    decreases |between|
  {
    if between == [] then [s] else [s] + Visited(Run(s, between[0]), between[1..])
  }

  lemma {:induction false} VisitedEvolve(s: State, between: seq<seq<Operation>>)
    requires Inv(s)
    ensures Evolves(Visited(s, between))
    decreases |between|
  {
    hide Inv, Extends, Run;
    ExtendsItself(s);
    if between != [] {
      var t := Run(s, between[0]);
      RunKeeps(s, between[0]);
      RunExtends(s, between[0]);
      VisitedEvolve(t, between[1..]);
      var rest := Visited(t, between[1..]);
      forall j | 0 <= j < |rest| ensures Extends(s, rest[j]) {
        ExtendsTransitive(s, t, rest[j]);
      }
    }
  }

  /** An extraction keeps matching whatever filter it matched. */
  lemma ExtractionsStayListed(s: State, t: State, f: ExtractionFilter)
    requires Inv(s) && Inv(t) && Extends(s, t)
    ensures ExtractionKeys(s.extractions, s.observations, f) <= ExtractionKeys(t.extractions, t.observations, f)
  {
    forall k | k in ExtractionKeys(s.extractions, s.observations, f)
      ensures k in ExtractionKeys(t.extractions, t.observations, f)
    {
      ObservationPresenceStays(s, t, k.id);
    }
  }

  lemma ObservationPresenceStays(s: State, t: State, id: string)
    requires Inv(s) && Inv(t) && Extends(s, t) && id in s.extractions
    ensures id in s.observations <==> id in t.observations
  {
    hide RevisionLedger, RevisionNumbers, Consumption, RestoreLedger, ControlLedger, RevisionsKept, RevisionSelectionsKept;
    var key := ExtractionKey(id, s.extractions[id].trajectory.digest);
    assert SelectedExtraction(s.extractionPublications, key);
    assert SelectedExtraction(t.extractionPublications, key);
  }

  /**
   * A client that follows cursors over these tables comes to an end, sees rows strictly newest first
   * and so none twice, and of the rows kept throughout exactly those that no page end skips.
   */
  ghost predicate Listed(tables: seq<set<Key>>, kept: set<Key>, limit: nat, precision: int)
    requires precision > 0
  {
    Completed(tables, None, limit, precision) && Descending(Follow(tables, None, limit, precision)) &&
    forall k | k in kept ::
      k in Follow(tables, None, limit, precision) <==> !Skipped(k, Boundaries(tables, None, limit, precision), precision)
  }

  lemma ChangingTableIsListed(tables: seq<set<Key>>, all: set<Key>, kept: set<Key>, limit: nat, precision: int)
    requires precision > 0 && limit > 0 && |tables| > |all|
    requires forall i :: 0 <= i < |tables| ==> kept <= tables[i] <= all
    ensures Listed(tables, kept, limit, precision)
  {
    EverythingMatches(all);
    hide Before, CursorAt, Fetch, Descending, Skipped;
    FollowingEnds(tables, all, None, limit, precision);
    FollowDescends(tables, None, limit, precision);
    forall k | k in kept
      ensures k in Follow(tables, None, limit, precision) <==>
              !Skipped(k, Boundaries(tables, None, limit, precision), precision)
    {
      ReturnedUnlessSkipped(tables, None, limit, precision, k);
    }
  }

  /** The state at the last request. */
  ghost function Latest(s: State, between: seq<seq<Operation>>): State {
    Visited(s, between)[|between|]
  }

  /**
   * Extractions listed from any reachable state, with any operations between the requests: a client
   * that may ask once more than there are matching rows comes to the end, newest first and none
   * twice, and each extraction present at the start is listed unless a page ends in its millisecond
   * just before it.
   */
  lemma ExtractionListing(s: State, between: seq<seq<Operation>>, f: ExtractionFilter, limit: nat)
    requires Reachable(s) && limit > 0
    requires |between| >= |ExtractionKeys(Latest(s, between).extractions, Latest(s, between).observations, f)|
    ensures Listed(ExtractionTables(Visited(s, between), f), ExtractionKeys(s.extractions, s.observations, f), limit,
                   TIMESTAMP_PRECISION)
  {
    hide Inv, Extends, Run, ExtractionKeys, Listed;
    RunsEvolve(s, between);
    var states := Visited(s, between);
    var last := states[|between|];
    forall i | 0 <= i < |states|
      ensures ExtractionKeys(s.extractions, s.observations, f) <= ExtractionTables(states, f)[i]
      ensures ExtractionTables(states, f)[i] <= ExtractionKeys(last.extractions, last.observations, f)
    {
      assert Extends(states[0], states[i]) && Extends(states[i], states[|between|]);
      ExtractionsStayListed(s, states[i], f);
      ExtractionsStayListed(states[i], last, f);
    }
    ChangingTableIsListed(
      ExtractionTables(states, f), ExtractionKeys(last.extractions, last.observations, f),
      ExtractionKeys(s.extractions, s.observations, f), limit, TIMESTAMP_PRECISION);
  }

  ghost function ExtractionTables(states: seq<State>, f: ExtractionFilter): (tables: seq<set<Key>>)
    ensures |tables| == |states|
    ensures forall i :: 0 <= i < |states| ==> tables[i] == ExtractionKeys(states[i].extractions, states[i].observations, f)
  {
    seq(|states|, i requires 0 <= i < |states| => ExtractionKeys(states[i].extractions, states[i].observations, f))
  }

  /** Observations other than the pending ones also stay listed; a pending one may be consumed meanwhile. */
  lemma ObservationsStayListed(s: State, t: State, f: ObservationFilter)
    requires Extends(s, t) && f.status != Some(PendingOnly)
    ensures ObservationKeys(s.observations, f) <= ObservationKeys(t.observations, f)
  {
    hide RevisionsKept, ExtractionSelectionsKept, RevisionSelectionsKept, RowsKept;
  }

  const EVERY_OBSERVATION := ObservationFilter(None, None)

  /** Whatever matches a filter at some request is still a row at a later one. */
  lemma ObservationsAreKept(s: State, t: State, f: ObservationFilter)
    requires Extends(s, t)
    ensures ObservationKeys(s.observations, f) <= ObservationKeys(t.observations, EVERY_OBSERVATION)
  {
    hide Extends;
    ObservationsStayListed(s, t, EVERY_OBSERVATION);
  }

  /** Rows that match the filter at every request. */
  ghost function AlwaysPresent(tables: seq<set<Key>>): (kept: set<Key>)
    requires tables != []
    ensures forall i :: 0 <= i < |tables| ==> kept <= tables[i]
  {
    set k | k in tables[0] && forall i :: 0 <= i < |tables| ==> k in tables[i]
  }

  /**
   * Observations listed while the catalog keeps changing, as for extractions, for every row that
   * matches throughout: unless only pending ones are asked for, those are all that match at the start.
   */
  lemma ObservationListing(s: State, between: seq<seq<Operation>>, f: ObservationFilter, limit: nat)
    requires Reachable(s) && limit > 0
    requires |between| >= |ObservationKeys(Latest(s, between).observations, EVERY_OBSERVATION)|
    ensures Listed(ObservationTables(Visited(s, between), f), AlwaysPresent(ObservationTables(Visited(s, between), f)),
                   limit, TIMESTAMP_PRECISION)
    ensures f.status != Some(PendingOnly) ==>
              AlwaysPresent(ObservationTables(Visited(s, between), f)) == ObservationKeys(s.observations, f)
  {
    hide Inv, Extends, Run, ObservationKeys, Listed, AlwaysPresent;
    RunsEvolve(s, between);
    var states := Visited(s, between);
    var tables := ObservationTables(states, f);
    var last := states[|between|];
    forall i | 0 <= i < |states|
      ensures tables[i] <= ObservationKeys(last.observations, EVERY_OBSERVATION)
      ensures f.status != Some(PendingOnly) ==> tables[0] <= tables[i]
    {
      assert Extends(states[0], states[i]) && Extends(states[i], states[|between|]);
      ObservationsAreKept(states[i], last, f);
      if f.status != Some(PendingOnly) {
        ObservationsStayListed(s, states[i], f);
      }
    }
    ChangingTableIsListed(
      tables, ObservationKeys(last.observations, EVERY_OBSERVATION), AlwaysPresent(tables), limit, TIMESTAMP_PRECISION);
    if f.status != Some(PendingOnly) {
      AllArePresent(tables);
    }
  }

  lemma AllArePresent(tables: seq<set<Key>>)
    requires tables != [] && forall i :: 0 <= i < |tables| ==> tables[0] <= tables[i]
    ensures AlwaysPresent(tables) == tables[0]
  {
  }

  ghost function ObservationTables(states: seq<State>, f: ObservationFilter): (tables: seq<set<Key>>)
    ensures |tables| == |states|
    ensures forall i :: 0 <= i < |states| ==> tables[i] == ObservationKeys(states[i].observations, f)
  {
    seq(|states|, i requires 0 <= i < |states| => ObservationKeys(states[i].observations, f))
  }

  /**
   * Revisions are paged by their own number, so every revision of the first request is listed, once,
   * whatever is created meanwhile.
   */
  lemma RevisionListing(s: State, between: seq<seq<Operation>>, limit: nat)
    requires Reachable(s) && limit > 0
    requires |between| >= |RevisionKeys(Latest(s, between).revisions)|
    ensures Listed(RevisionTables(Visited(s, between)), RevisionKeys(s.revisions), limit, REVISION_PRECISION)
    ensures forall r :: r in s.revisions ==>
              Key(r, "") in Follow(RevisionTables(Visited(s, between)), None, limit, REVISION_PRECISION)
  {
    hide Inv, Extends, Run;
    RunsEvolve(s, between);
    var states := Visited(s, between);
    var tables := RevisionTables(states);
    var last := states[|between|];
    forall i | 0 <= i < |states|
      ensures RevisionKeys(s.revisions) <= tables[i] <= RevisionKeys(last.revisions)
    {
      assert Extends(states[0], states[i]) && Extends(states[i], states[|between|]);
      RevisionsStayListed(s, states[i]);
      RevisionsStayListed(states[i], last);
    }
    hide Completed, Follow, Skipped;
    ChangingTableIsListed(tables, RevisionKeys(last.revisions), RevisionKeys(s.revisions), limit, REVISION_PRECISION);
    forall r | r in s.revisions ensures Key(r, "") in Follow(tables, None, limit, REVISION_PRECISION) {
      WholeTimesSkipNothing(tables, None, limit, REVISION_PRECISION, Key(r, ""));
    }
  }

  lemma RevisionsStayListed(s: State, t: State)
    requires Extends(s, t)
    ensures RevisionKeys(s.revisions) <= RevisionKeys(t.revisions)
  {
    hide ExtractionSelectionsKept, RevisionSelectionsKept, ObservationsKept, RowsKept, ConsumedBy;
  }

  ghost function RevisionTables(states: seq<State>): (tables: seq<set<Key>>)
    ensures |tables| == |states|
    ensures forall i :: 0 <= i < |states| ==> tables[i] == RevisionKeys(states[i].revisions)
  {
    seq(|states|, i requires 0 <= i < |states| => RevisionKeys(states[i].revisions))
  }
}
