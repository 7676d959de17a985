/**
 * The maintenance input is read by two statements without a lock, so it may join the observations
 * of one committed state with the active revision of a later one. What such an input can do.
 */
module CatalogInput {
  import opened Basics
  import opened CatalogTypes
  import opened CatalogSpec
  import opened CatalogInvariant
  import opened CatalogHistory
  import opened CatalogTransactions
  import opened CatalogSerial
  import opened CatalogSerialTree
  import opened CatalogConcurrency
  import opened Ordering
  import CatalogDrain
  import opened CatalogMeaning

  /** Observations as one state has them, the active revision as a later one has it. */
  function JoinedInput(earlier: State, later: State, limit: nat): Option<MaintenanceInput> {
    var q := OldestPending(earlier.observations, limit);
    if q == [] then None
    else Some(MaintenanceInput(later.active, ActiveTree(later), ObservationView(earlier.observations, q)))
  }

  /** A joined input lists what was oldest in the one state and names what is active in the other. */
  lemma JoinedMeans(earlier: State, later: State, limit: nat)
    requires Inv(later) && JoinedInput(earlier, later, limit).Some?
    ensures var input := JoinedInput(earlier, later, limit).value;
            input.expectedActive == later.active && IsActiveTree(input.activeTree, later) &&
            input.observations != [] && ListsOldest(input.observations, earlier.observations, limit)
  {
    ListedAreOldest(earlier.observations, limit);
    ActiveTreeMeans(later);
    hide Inv, OldestPending, ActiveTree, ListsOldest, IsActiveTree, ObservationView;
  }

  ghost function StateAfter(installedAt: int, history: seq<Operation>, count: nat): State
    requires count <= |history|
  {
    Run(InitialState(installedAt), history[..count])
  }

  /** The values kept from the first read are those of some prefix of the history, no shorter than `since`. */
  ghost predicate Observed(
    installedAt: int, history: seq<Operation>, limit: nat, seen: seq<PendingObservation>, since: nat, first: nat)
  {
    since <= first <= |history| &&
    var o := StateAfter(installedAt, history, first).observations;
    OldestPending(o, limit) != [] && seen == ObservationView(o, OldestPending(o, limit))
  }

  ghost predicate ReadAt(
    installedAt: int, history: seq<Operation>, limit: nat, input: Option<MaintenanceInput>, since: nat, first: nat,
    second: nat)
  {
    since <= first <= second <= |history| &&
    input == JoinedInput(StateAfter(installedAt, history, first), StateAfter(installedAt, history, second), limit)
  }

  /** A reader that began when `since` operations had committed has seen nothing older. */
  ghost predicate InputSound(installedAt: int, since: nat, limit: nat, history: seq<Operation>, t: Transaction) {
    t.op == OpGetInput(limit) &&
    if t.reply == None then
      t.at == 0 || (t.at == 1 && exists first :: Observed(installedAt, history, limit, t.seen, since, first))
    else
      t.reply.value.Input? && exists first, second :: ReadAt(installedAt, history, limit, t.reply.value.input, since, first, second)
  }

  ghost predicate ReaderSound(installedAt: int, since: nat, limit: nat, db: Database, tid: nat) {
    since <= |db.history| && (tid in db.open ==> InputSound(installedAt, since, limit, db.history, db.open[tid]))
  }

  lemma HistoryGrows(installedAt: int, since: nat, limit: nat, history: seq<Operation>, op: Operation, t: Transaction)
    requires InputSound(installedAt, since, limit, history, t)
    ensures InputSound(installedAt, since, limit, history + [op], t)
  {
    hide Run, OldestPending, JoinedInput;
    var longer := history + [op];
    assert forall n :: 0 <= n <= |history| ==> longer[..n] == history[..n];
    if t.reply == None && t.at == 1 {
      var first :| Observed(installedAt, history, limit, t.seen, since, first);
      assert Observed(installedAt, longer, limit, t.seen, since, first);
    } else if t.reply != None {
      var first, second :| ReadAt(installedAt, history, limit, t.reply.value.input, since, first, second);
      assert ReadAt(installedAt, longer, limit, t.reply.value.input, since, first, second);
    }
  }

  lemma InputStatementSound(installedAt: int, since: nat, limit: nat, history: seq<Operation>, t: Transaction)
    requires since <= |history| && t.reply == None && InputSound(installedAt, since, limit, history, t)
    ensures var e := InputStatement(t, Run(InitialState(installedAt), history), limit);
            e.Proceeds? && InputSound(installedAt, since, limit, history, e.transaction)
  {
    hide Run, OldestPending;
    var now := |history|;
    assert history[..now] == history;
    var s := Run(InitialState(installedAt), history);
    if t.at == 0 {
      if OldestPending(StateAfter(installedAt, history, now).observations, limit) == [] {
        assert ReadAt(installedAt, history, limit, None, since, now, now);
      } else {
        assert Observed(installedAt, history, limit, InputStatement(t, s, limit).transaction.seen, since, now);
      }
    } else {
      var first :| Observed(installedAt, history, limit, t.seen, since, first);
      assert ReadAt(installedAt, history, limit, InputStatement(t, s, limit).transaction.reply.value.input, since, first, now);
    }
  }

  lemma TakeKeepsReader(installedAt: int, since: nat, limit: nat, db: Database, e: Event, tid: nat)
    requires Sound(db) && CanTake(db, e) && db.committed == Run(InitialState(installedAt), db.history)
    requires ReaderSound(installedAt, since, limit, db, tid) && !(e.Begin? && e.tid == tid)
    ensures ReaderSound(installedAt, since, limit, Take(db, e), tid)
  {
    hide Inv, Run, InputSound, Statement, View;
    if e.Execute? && e.tid == tid {
      ExecuteKeepsReader(installedAt, since, limit, db, tid);
    } else if e.Commit? && e.tid != tid && tid in db.open {
      HistoryGrows(installedAt, since, limit, db.history, db.open[e.tid].op, db.open[tid]);
    }
  }

  lemma ExecuteKeepsReader(installedAt: int, since: nat, limit: nat, db: Database, tid: nat)
    requires Sound(db) && CanTake(db, Execute(tid)) && db.committed == Run(InitialState(installedAt), db.history)
    requires ReaderSound(installedAt, since, limit, db, tid)
    ensures ReaderSound(installedAt, since, limit, Take(db, Execute(tid)), tid)
  {
    hide Inv, Run, Observed, ReadAt, InputStatement;
    var t, s := db.open[tid], db.committed;
    assert t.op == OpGetInput(limit);
    hide InputSound;
    assert Reading(t) by { assert Knows(t, s); }
    assert View(s, t.writes) == s && Acquiring(t, s) == t;
    InputStatementSound(installedAt, since, limit, db.history, t);
  }

  /** The transaction under this id stays the one it is. */
  ghost predicate NeverBegins(events: seq<Event>, tid: nat) {
    forall e :: e in events ==> !(e.Begin? && e.tid == tid)
  }

  lemma {:induction false} ReaderStaysSound(
    installedAt: int, since: nat, limit: nat, db: Database, events: seq<Event>, tid: nat)
    requires Legal(db, events) && Sound(db) && db.committed == Run(InitialState(installedAt), db.history)
    requires ReaderSound(installedAt, since, limit, db, tid) && NeverBegins(events, tid)
    ensures ReaderSound(installedAt, since, limit, Reached(db, events), tid)
    decreases |events|
  {
    hide Sound, Run, Take, CanTake, ReaderSound;
    if events != [] {
      assert events[0] in events && NeverBegins(events[1..], tid);
      TakeKeepsReader(installedAt, since, limit, db, events[0], tid);
      var one := [events[0]];
      assert Legal(db, one) && Reached(db, one) == Take(db, events[0]) by {
        assert one[1..] == [];
        assert Reached(Take(db, events[0]), []) == Take(db, events[0]);
      }
      InterleavingsAreSerial(InitialState(installedAt), db, one);
      ReaderStaysSound(installedAt, since, limit, Take(db, events[0]), events[1..], tid);
    }
  }

  /**
   * Under any interleaving, the input a transaction is about to return joins the oldest pending
   * observations of one committed state with the active revision of the same or a later one, and
   * neither state is older than the transaction.
   */
  lemma InputJoinsTwoStates(installedAt: int, before: Database, tid: nat, limit: nat, events: seq<Event>)
    requires Possible(installedAt, before) && CanTake(before, Begin(tid, OpGetInput(limit)))
    requires Legal(Take(before, Begin(tid, OpGetInput(limit))), events) && NeverBegins(events, tid)
    requires CanTake(Reached(Take(before, Begin(tid, OpGetInput(limit))), events), Commit(tid))
    ensures var db := Reached(Take(before, Begin(tid, OpGetInput(limit))), events);
            exists first: nat, second: nat ::
              |before.history| <= first <= second <= |db.history| &&
              db.open[tid].reply.value ==
                Input(JoinedInput(
                  StateAfter(installedAt, db.history, first), StateAfter(installedAt, db.history, second), limit))
  {
    hide Sound, Run, Legal, Reached, JoinedInput, StateAfter, Possible;
    EveryInterleavingIsSerial(installedAt, before);
    TakeKeeps(before, Begin(tid, OpGetInput(limit)));
    var begun := Take(before, Begin(tid, OpGetInput(limit)));
    assert begun.open[tid] == Started(OpGetInput(limit));
    ReaderStaysSound(installedAt, |before.history|, limit, begun, events, tid);
    var db := Reached(begun, events);
    var first, second :| ReadAt(
      installedAt, db.history, limit, db.open[tid].reply.value.input, |before.history|, first, second);
  }

  /**
   * What was listed is still what comes first: all of it is pending, and whatever else is pending
   * comes after it and would not have fitted.
   */
  ghost predicate StillOldest(listed: seq<Key>, later: Observations, limit: nat) {
    (forall k :: k in listed ==> k.id in later && later[k.id].consumed == None) &&
    forall k :: k in PendingKeys(later) && k !in listed ==>
      |listed| == limit && (listed == [] || Before(listed[|listed| - 1], k))
  }

  /** What one read at a state between the two would have to find, to give the same input. */
  ghost predicate ReadableAt(listed: seq<Key>, at: State, later: State, limit: nat) {
    StillOldest(listed, at.observations, limit) && (listed == [] || at.active == later.active)
  }

  /**
   * The joined input is what one statement would have read in a state between the two exactly when
   * the listed observations are still the oldest pending ones there and the pointer, unless nothing is
   * listed, is already where the second read finds it.
   */
  lemma JoinedIsAtomic(earlier: State, at: State, later: State, limit: nat)
    requires Inv(at) && Inv(later) && Extends(earlier, at) && Extends(at, later)
    ensures JoinedInput(earlier, later, limit) == InputFor(at, limit) <==>
            ReadableAt(OldestPending(earlier.observations, limit), at, later, limit)
  {
    hide Inv, Extends, ObservationsKept, OldestPending, ObservationView, ActiveTree, StillOldest;
    ObservationsStay(earlier, at);
    ViewsAgree(earlier.observations, at.observations, limit);
    OldestStays(earlier.observations, at.observations, limit);
    ActiveTreeStays(at, later);
  }

  /** Some single read between the two would have given the joined input exactly when one of those states is such. */
  lemma JoinedIsSomeRead(installedAt: int, history: seq<Operation>, first: nat, second: nat, limit: nat)
    requires first <= second <= |history|
    ensures var earlier, later := StateAfter(installedAt, history, first), StateAfter(installedAt, history, second);
            (exists n: nat :: first <= n <= second &&
               JoinedInput(earlier, later, limit) == InputFor(StateAfter(installedAt, history, n), limit)) <==>
            (exists n: nat :: first <= n <= second &&
               ReadableAt(OldestPending(earlier.observations, limit), StateAfter(installedAt, history, n), later, limit))
  {
    hide Inv, Extends, Run, OldestPending, JoinedInput, InputFor, ReadableAt, StateAfter;
    forall n: nat | first <= n <= second
      ensures JoinedInput(StateAfter(installedAt, history, first), StateAfter(installedAt, history, second), limit) ==
              InputFor(StateAfter(installedAt, history, n), limit) <==>
              ReadableAt(OldestPending(StateAfter(installedAt, history, first).observations, limit),
                         StateAfter(installedAt, history, n), StateAfter(installedAt, history, second), limit)
    {
      PrefixesExtend(installedAt, history, first, n);
      PrefixesExtend(installedAt, history, n, second);
      JoinedIsAtomic(StateAfter(installedAt, history, first), StateAfter(installedAt, history, n),
                     StateAfter(installedAt, history, second), limit);
    }
  }

  lemma PrefixesExtend(installedAt: int, history: seq<Operation>, m: nat, n: nat)
    requires m <= n <= |history|
    ensures Inv(StateAfter(installedAt, history, m)) && Inv(StateAfter(installedAt, history, n))
    ensures Extends(StateAfter(installedAt, history, m), StateAfter(installedAt, history, n))
  {
    hide Inv, Extends, Run;
    assert history[..n][..m] == history[..m];
    RunSplit(InitialState(installedAt), history[..n], m);
    InitialInv(installedAt);
    RunKeeps(InitialState(installedAt), history[..m]);
    RunKeeps(StateAfter(installedAt, history, m), history[..n][m..]);
    RunExtends(StateAfter(installedAt, history, m), history[..n][m..]);
  }

  lemma ObservationsStay(earlier: State, later: State)
    requires Extends(earlier, later)
    ensures ObservationsKept(earlier.observations, later.observations)
  {
    hide RevisionsKept, ExtractionSelectionsKept, RevisionSelectionsKept, ObservationsKept, RowsKept;
  }

  lemma ActiveTreeStays(earlier: State, later: State)
    requires Inv(earlier) && Inv(later) && Extends(earlier, later)
    ensures later.active == earlier.active ==> ActiveTree(later) == ActiveTree(earlier)
  {
    hide ExtractionLedger, RevisionLedger, Consumption, RestoreLedger, ControlLedger, ConsumedBy;
  }

  /** A view shows which observations it lists. */
  lemma ViewsAgree(earlier: Observations, later: Observations, limit: nat)
    requires ObservationsKept(earlier, later)
    ensures ObservationView(earlier, OldestPending(earlier, limit)) == ObservationView(later, OldestPending(later, limit)) <==>
            OldestPending(earlier, limit) == OldestPending(later, limit)
  {
    var q, p := OldestPending(earlier, limit), OldestPending(later, limit);
    hide OldestPending;
    var v, w := ObservationView(earlier, q), ObservationView(later, p);
    if v == w {
      forall i | 0 <= i < |q| ensures q[i] == p[i] {
        assert v[i].extractionId == w[i].extractionId;
        assert q[i] in q && p[i] in p;
      }
    }
    if q == p {
      forall i | 0 <= i < |q| ensures v[i] == w[i] {
        assert q[i] in q;
      }
    }
  }

  lemma OldestStays(earlier: Observations, later: Observations, limit: nat)
    requires ObservationsKept(earlier, later)
    ensures OldestPending(earlier, limit) == OldestPending(later, limit) <==>
            StillOldest(OldestPending(earlier, limit), later, limit)
  {
    var q, pending := OldestPending(earlier, limit), PendingKeys(later);
    OldestAscends(earlier, limit);
    if StillOldest(q, later, limit) {
      forall k | k in q ensures k in pending {
        assert k in PendingKeys(earlier);
      }
      hide OldestPending, StillOldest;
      FrontOfSort(q, pending, limit);
      PrefixOfSort(later, limit, q);
    }
    if q == OldestPending(later, limit) {
      OthersComeLater(later, limit);
    }
  }

  lemma OldestAscends(o: Observations, limit: nat)
    ensures Ascending(OldestPending(o, limit)) && |OldestPending(o, limit)| <= limit
  {
    hide Before, PendingKeys;
  }

  /** Ascending keys of a set that the rest of it follows are the front of its enumeration. */
  lemma FrontOfSort(q: seq<Key>, s: set<Key>, limit: nat)
    requires Ascending(q) && |q| <= limit
    requires forall k :: k in q ==> k in s
    requires forall k :: k in s && k !in q ==> |q| == limit && (q == [] || Before(q[|q| - 1], k))
    ensures q == if |Sort(s)| <= limit then Sort(s) else Sort(s)[..limit]
  {
    var rest := Sort(s - Elements(q));
    var all := q + rest;
    forall i, j | 0 <= i < |q| && 0 <= j < |rest| ensures Before(q[i], rest[j]) {
      assert rest[j] in rest;
      if i < |q| - 1 {
        BeforeTransitive(q[i], q[|q| - 1], rest[j]);
      }
    }
    hide Before;
    assert Ascending(all);
    SortUnique(all, s);
    if rest != [] {
      assert rest[0] in rest;
    }
  }

  lemma PrefixOfSort(o: Observations, limit: nat, q: seq<Key>)
    requires q == if |Sort(PendingKeys(o))| <= limit then Sort(PendingKeys(o)) else Sort(PendingKeys(o))[..limit]
    ensures q == OldestPending(o, limit)
  {
  }

  lemma OthersComeLater(o: Observations, limit: nat)
    ensures StillOldest(OldestPending(o, limit), o, limit)
  {
    var q, all := OldestPending(o, limit), Sort(PendingKeys(o));
    hide Before;
    assert forall j :: 0 <= j < |q| ==> all[j] == q[j];
    forall k | k in PendingKeys(o) && k !in q
      ensures |q| == limit && (q == [] || Before(q[|q| - 1], k))
    {
      assert k in all;
    }
  }

  /**
   * A joined input is harmless: once an observation it lists is consumed, a creation made from it
   * under an id that has no revision yet never succeeds, whatever happens first.
   */
  lemma ConsumedInputNeverCommits(s: State, ops: seq<Operation>, c: Creation, id: string)
    requires Reachable(s) && c.source.Maintenance? && id in c.source.extractionIds
    requires id in s.observations && s.observations[id].consumed.Some?
    requires !HasRevision(s.revisions, OwnerOf(c.source))
    ensures CreateRevision(Run(s, ops), c).reply.Failed?
    ensures CreateRevision(Run(s, ops), c).state == Run(s, ops)
  {
    hide Inv, Extends, Run, HasRevision, SameRevision, CreateRevision;
    var t := Run(s, ops);
    ReachableInv(s);
    RunKeeps(s, ops);
    RunExtends(s, ops);
    ConsumedForever(s, ops, id);
    StaleInputChangesNothing(t, c);
    if HasRevision(t.revisions, OwnerOf(c.source)) {
      ForeignRevision(s, t, c, id, RevisionOf(t.revisions, OwnerOf(c.source)));
    }
    NeitherNewNorReplay(t, c);
  }

  /** The creation made from a joined input. */
  ghost predicate MadeFromJoined(earlier: State, later: State, limit: nat, a: CatalogDrain.Attempt, c: Creation) {
    JoinedInput(earlier, later, limit).Some? && c == CatalogDrain.CreationFor(JoinedInput(earlier, later, limit).value, a)
  }

  /** The pointer is where the second read found it and everything from the first read is still pending. */
  ghost predicate StillCurrent(earlier: State, later: State, s: State, limit: nat) {
    s.active == later.active &&
    forall k :: k in OldestPending(earlier.observations, limit) ==>
      k.id in s.observations && s.observations[k.id].consumed == None
  }

  /**
   * A torn input does no harm either: whatever the two states were, a creation made from it commits in
   * a state where nothing else is in its way exactly when the input is still current, and then it
   * consumes exactly what was listed. An older observation registered between the reads is passed over
   * and stays pending.
   */
  lemma JoinedCreation(earlier: State, later: State, s: State, limit: nat, a: CatalogDrain.Attempt, c: Creation)
    requires Inv(s) && MadeFromJoined(earlier, later, limit, a, c)
    requires RevisionConfirmed(s.revisionPublications, c) && !OtherRevisionSelected(s.revisionPublications, c)
    requires !HasRevision(s.revisions, OwnerOf(c.source)) && s.control.state == Enabled
    ensures Committed(CreateRevision(s, c).reply) <==> StillCurrent(earlier, later, s, limit)
  {
    hide Inv, RevisionConfirmed, OtherRevisionSelected, HasRevision, CreateRevision, InsertRevision, SelectRevision,
         JoinedInput, OldestPending, AllPending, CatalogDrain.CreationFor, CatalogDrain.Listed, StillCurrent;
    JoinedLists(earlier, later, limit, a, c);
    if StillCurrent(earlier, later, s, limit) {
      CurrentIsPending(earlier, later, s, limit, c);
      CatalogDrain.CreationCommits(s, c);
    } else {
      NotCurrentIsStale(earlier, later, s, limit, c);
      StaleInputChangesNothing(s, c);
    }
  }

  /** A committed creation from a joined input found it current and consumed exactly what it lists. */
  lemma JoinedCreationConsumesListed(
    earlier: State, later: State, s: State, limit: nat, a: CatalogDrain.Attempt, c: Creation, id: string)
    requires Inv(s) && MadeFromJoined(earlier, later, limit, a, c) && Committed(CreateRevision(s, c).reply)
    requires id in s.observations
    ensures StillCurrent(earlier, later, s, limit)
    ensures var out := CreateRevision(s, c);
            id in out.state.observations && RevisionMade(out.reply) &&
            out.state.observations[id] ==
              if exists k :: k in OldestPending(earlier.observations, limit) && k.id == id then
                s.observations[id].(consumed := Some(out.reply.revision))
              else s.observations[id]
  {
    hide Inv, CreateRevision, MadeFromJoined, OldestPending, StillCurrent, Committed, RevisionMade, CatalogDrain.Listed;
    JoinedLists(earlier, later, limit, a, c);
    CommittedIsCurrent(earlier, later, s, limit, c);
    CommittedCreation(s, c, id);
    ListedIds(c.source.extractionIds, OldestPending(earlier.observations, limit), id);
  }

  lemma CommittedIsCurrent(earlier: State, later: State, s: State, limit: nat, c: Creation)
    requires Inv(s) && c.source.Maintenance? && c.expectedActive == later.active
    requires CatalogDrain.Listed(c.source.extractionIds, OldestPending(earlier.observations, limit))
    requires Committed(CreateRevision(s, c).reply)
    ensures StillCurrent(earlier, later, s, limit)
  {
    hide Inv, CreateRevision, OldestPending, CatalogDrain.Listed, StillCurrent, Committed;
    if !StillCurrent(earlier, later, s, limit) {
      NotCurrentIsStale(earlier, later, s, limit, c);
      StaleInputChangesNothing(s, c);
    }
  }

  lemma CommittedCreation(s: State, c: Creation, id: string)
    requires Inv(s) && c.source.Maintenance? && Committed(CreateRevision(s, c).reply) && id in s.observations
    ensures var out := CreateRevision(s, c);
            RevisionMade(out.reply) && id in out.state.observations &&
            out.state.observations[id] ==
              if id in c.source.extractionIds then s.observations[id].(consumed := Some(out.reply.revision))
              else s.observations[id]
  {
    hide Inv, CreateRevision, InsertRevision, SelectRevision, AddsRevision, Replayable;
    CreationFrame(s, c);
    assert Apply(s, OpCreate(c)) == CreateRevision(s, c);
    OperationConsumes(s, OpCreate(c), id);
  }

  lemma JoinedLists(earlier: State, later: State, limit: nat, a: CatalogDrain.Attempt, c: Creation)
    requires MadeFromJoined(earlier, later, limit, a, c)
    ensures c.source.Maintenance? && c.expectedActive == later.active
    ensures CatalogDrain.Listed(c.source.extractionIds, OldestPending(earlier.observations, limit))
    ensures Distinct(c.source.extractionIds)
  {
    hide OldestPending;
    CatalogDrain.ListedArePending(earlier.observations, limit, c.source.extractionIds);
  }

  lemma ListedIds(ids: seq<string>, q: seq<Key>, id: string)
    requires CatalogDrain.Listed(ids, q)
    ensures id in ids <==> exists k :: k in q && k.id == id
  {
    if i :| 0 <= i < |ids| && ids[i] == id {
      assert q[i] in q;
    }
    if k :| k in q && k.id == id {
      var i :| 0 <= i < |q| && q[i] == k;
      assert ids[i] in ids;
    }
  }

  lemma CurrentIsPending(earlier: State, later: State, s: State, limit: nat, c: Creation)
    requires c.source.Maintenance? && Distinct(c.source.extractionIds) && StillCurrent(earlier, later, s, limit)
    requires CatalogDrain.Listed(c.source.extractionIds, OldestPending(earlier.observations, limit))
    ensures s.active == later.active && AllPending(s.observations, c.source.extractionIds)
  {
    hide OldestPending;
    var ids := c.source.extractionIds;
    forall id | id in ids ensures id in PendingAmong(s.observations, ids) {
      ListedIds(ids, OldestPending(earlier.observations, limit), id);
    }
    DistinctCount(ids);
    assert PendingAmong(s.observations, ids) == Elements(ids);
  }

  lemma NotCurrentIsStale(earlier: State, later: State, s: State, limit: nat, c: Creation)
    requires c.source.Maintenance? && c.expectedActive == later.active && !StillCurrent(earlier, later, s, limit)
    requires CatalogDrain.Listed(c.source.extractionIds, OldestPending(earlier.observations, limit))
    ensures s.active != c.expectedActive ||
            exists id :: id in c.source.extractionIds && !(id in s.observations && s.observations[id].consumed == None)
  {
    hide OldestPending;
    if s.active == later.active {
      var k :| k in OldestPending(earlier.observations, limit) &&
               !(k.id in s.observations && s.observations[k.id].consumed == None);
      ListedIds(c.source.extractionIds, OldestPending(earlier.observations, limit), k.id);
    }
  }

  lemma NeitherNewNorReplay(t: State, c: Creation)
    requires !Committed(CreateRevision(t, c).reply)
    requires HasRevision(t.revisions, OwnerOf(c.source)) ==>
               var r := RevisionOf(t.revisions, OwnerOf(c.source));
               !SameRevision(t.revisions[r], ConsumedBy(t.observations, r), c)
    ensures CreateRevision(t, c).reply.Failed?
  {
    hide HasRevision, SameRevision, InsertRevision, AllPending, OtherRevisionSelected, RevisionConfirmed, ConsumedBy;
  }

  /** A revision made after the observation was consumed does not have it among its ids. */
  lemma ForeignRevision(s: State, t: State, c: Creation, id: string, r: nat)
    requires Inv(s) && Extends(s, t) && c.source.Maintenance? && id in c.source.extractionIds
    requires id in s.observations && s.observations[id].consumed.Some?
    requires id in t.observations && t.observations[id] == s.observations[id]
    requires !HasRevision(s.revisions, OwnerOf(c.source))
    requires r in t.revisions && OwnerOfRevision(t.revisions[r]) == OwnerOf(c.source)
    ensures !SameRevision(t.revisions[r], ConsumedBy(t.observations, r), c)
  {
    hide ExtractionLedger, RevisionLedger, ControlLedger, RestoreLedger, ExtractionSelectionsKept,
         RevisionSelectionsKept, ObservationsKept, RowsKept;
    var owner := s.observations[id].consumed.value;
    assert owner in s.revisions && t.revisions[owner] == s.revisions[owner];
    assert r != owner;
    assert id !in ConsumedBy(t.observations, r) && id in Elements(c.source.extractionIds);
  }
}
