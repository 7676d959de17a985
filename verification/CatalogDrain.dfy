/** Rounds of automatic maintenance work off the pending observations, oldest first. */
module CatalogDrain {
  import opened Basics
  import opened CatalogTypes
  import opened CatalogSpec
  import opened CatalogInvariant
  import opened CatalogHistory
  import opened CatalogMeaning
  import opened Ordering

  /** What a maintainer brings to one round besides its input: an id and the artifacts it produced. */
  datatype Attempt = Attempt(maintenanceId: string, tree: ArtifactReference, trajectory: ArtifactReference)

  function InputIds(q: seq<PendingObservation>): (ids: seq<string>)
    ensures |ids| == |q| && forall i :: 0 <= i < |q| ==> ids[i] == q[i].extractionId
  {
    seq(|q|, i requires 0 <= i < |q| => q[i].extractionId)
  }

  function CreationFor(input: MaintenanceInput, a: Attempt): Creation {
    Creation(input.expectedActive, a.tree, Maintenance(a.maintenanceId, InputIds(input.observations), a.trajectory))
  }

  /** Get the input, then reserve, confirm and create the revision made from it. */
  ghost function Round(s: State, limit: nat, a: Attempt): Outcome {
    match InputFor(s, limit)
    case None => Outcome(s, Input(None))
    case Some(input) =>
      var c := CreationFor(input, a);
      CreateRevision(ConfirmRevision(ReserveRevision(s, c).state, c).state, c)
  }

  ghost predicate Fresh(rows: RevisionRows, id: string) {
    forall k :: k in rows ==> k.owner != MaintenanceOwner(id)
  }

  lemma FreshHasNoRevision(s: State, id: string)
    requires Inv(s) && Fresh(s.revisionPublications, id)
    ensures !HasRevision(s.revisions, MaintenanceOwner(id))
  {
    hide ExtractionLedger, Consumption, ControlLedger, RevisionNumbers, RestoreLedger, SameRevision, ConsumedBy;
    forall r | r in s.revisions ensures OwnerOfRevision(s.revisions[r]) != MaintenanceOwner(id) {
      assert SelectedRevision(s.revisionPublications, RowKey(s.revisions[r]));
    }
  }

  /** Reserving and confirming under a fresh id leaves exactly one more ledger row, confirmed. */
  lemma FreshPublication(s: State, c: Creation)
    requires c.source.Maintenance? && Fresh(s.revisionPublications, c.source.maintenanceId)
    ensures ConfirmRevision(ReserveRevision(s, c).state, c).state ==
            s.(revisionPublications := s.revisionPublications[RevisionKeyOf(c) := Publication(c, Present)])
  {
    var key := RevisionKeyOf(c);
    assert key !in s.revisionPublications;
    var rows := s.revisionPublications[key := Publication(c, Reserved)];
    assert ReserveRevision(s, c).state == s.(revisionPublications := rows);
    assert rows[key := Publication(c, Present)] == s.revisionPublications[key := Publication(c, Present)];
  }

  lemma FreshIsConfirmed(rows: RevisionRows, c: Creation)
    requires c.source.Maintenance? && Fresh(rows, c.source.maintenanceId)
    ensures var after := rows[RevisionKeyOf(c) := Publication(c, Present)];
            RevisionConfirmed(after, c) && !OtherRevisionSelected(after, c)
  {
  }

  // ---- the listed observations are pending, and consuming them removes exactly them ----

  ghost predicate Listed(ids: seq<string>, q: seq<Key>) {
    |ids| == |q| && forall i :: 0 <= i < |q| ==> ids[i] == q[i].id
  }

  lemma ListedArePending(o: Observations, limit: nat, ids: seq<string>)
    requires Listed(ids, OldestPending(o, limit))
    ensures AllPending(o, ids) && Distinct(ids)
  {
    var q := OldestPending(o, limit);
    assert Ascending(q);
    AscendingIsDistinct(q);
    forall i, j | 0 <= i < j < |ids| ensures ids[i] != ids[j] {
      assert q[i] in PendingKeys(o) && q[j] in PendingKeys(o);
    }
    forall id | id in ids ensures id in PendingAmong(o, ids) {
      var i :| 0 <= i < |ids| && ids[i] == id;
      assert q[i] in PendingKeys(o);
    }
    DistinctCount(ids);
    assert PendingAmong(o, ids) == Elements(ids);
  }

  lemma ConsumingListed(o: Observations, limit: nat, ids: seq<string>, next: nat)
    requires Listed(ids, OldestPending(o, limit))
    ensures PendingKeys(Consume(o, ids, next)) == PendingKeys(o) - Elements(OldestPending(o, limit))
  {
    var q := OldestPending(o, limit);
    forall k ensures k in PendingKeys(Consume(o, ids, next)) <==> k in PendingKeys(o) - Elements(q) {
      if k in PendingKeys(o) && k.id in ids {
        var i :| 0 <= i < |ids| && ids[i] == k.id;
        assert q[i] in PendingKeys(o);
        assert q[i] == k;
      }
      if k in q {
        var i :| 0 <= i < |q| && q[i] == k;
        assert ids[i] in ids;
      }
    }
  }

  lemma OldestRemoved(o: Observations, limit: nat, ids: seq<string>, next: nat)
    requires Listed(ids, OldestPending(o, limit))
    ensures var n := Min(limit, |PendingKeys(o)|);
            Sort(PendingKeys(Consume(o, ids, next))) == Sort(PendingKeys(o))[n..]
  {
    ConsumingListed(o, limit, ids, next);
    var n := Min(limit, |PendingKeys(o)|);
    SortSplit(PendingKeys(o), n);
    assert OldestPending(o, limit) == Sort(PendingKeys(o))[..n];
  }

  // ---- one round ----

  lemma InputLists(s: State, limit: nat)
    ensures match InputFor(s, limit)
            case None => OldestPending(s.observations, limit) == []
            case Some(input) =>
              Listed(InputIds(input.observations), OldestPending(s.observations, limit)) &&
              input.expectedActive == s.active
  {
  }

  lemma CreationCommits(t: State, c: Creation)
    requires RevisionConfirmed(t.revisionPublications, c) && !OtherRevisionSelected(t.revisionPublications, c)
    requires !HasRevision(t.revisions, OwnerOf(c.source)) && t.active == c.expectedActive
    requires c.source.Maintenance? && t.control.state == Enabled && AllPending(t.observations, c.source.extractionIds)
    ensures CreateRevision(t, c) ==
            Outcome(InsertRevision(SelectRevision(t, c), c),
                    RevisionCreated(true, MaxRevision(t.revisions.Keys) + 1, OwnerOf(c.source)))
  {
    hide RevisionConfirmed, OtherRevisionSelected, HasRevision, AllPending, InsertRevision;
  }

  /** The creation a round submits. */
  ghost predicate RoundCreation(s: State, limit: nat, a: Attempt, c: Creation) {
    InputFor(s, limit).Some? && c == CreationFor(InputFor(s, limit).value, a)
  }

  lemma RoundReady(s: State, limit: nat, a: Attempt, c: Creation)
    requires RoundCreation(s, limit, a, c)
    ensures c.source.Maintenance? && c.expectedActive == s.active && c.source.maintenanceId == a.maintenanceId
    ensures Listed(c.source.extractionIds, OldestPending(s.observations, limit))
    ensures AllPending(s.observations, c.source.extractionIds)
  {
    InputLists(s, limit);
    ListedArePending(s.observations, limit, c.source.extractionIds);
  }

  ghost function Confirmed(s: State, c: Creation): State {
    s.(revisionPublications := s.revisionPublications[RevisionKeyOf(c) := Publication(c, Present)])
  }

  lemma RoundCommits(s: State, limit: nat, a: Attempt, c: Creation)
    requires Inv(s) && s.control.state == Enabled && Fresh(s.revisionPublications, a.maintenanceId)
    requires RoundCreation(s, limit, a, c)
    ensures Round(s, limit, a) ==
              Outcome(InsertRevision(SelectRevision(Confirmed(s, c), c), c),
                      RevisionCreated(true, MaxRevision(s.revisions.Keys) + 1, MaintenanceOwner(a.maintenanceId)))
  {
    hide Inv, Fresh, AllPending, Listed, HasRevision, RevisionConfirmed, OtherRevisionSelected, InsertRevision, SelectRevision,
         InputFor, ReserveRevision, ConfirmRevision, CreateRevision, CreationFor, RevisionKeyOf;
    RoundReady(s, limit, a, c);
    FreshHasNoRevision(s, a.maintenanceId);
    FreshPublication(s, c);
    FreshIsConfirmed(s.revisionPublications, c);
    CreationCommits(Confirmed(s, c), c);
  }

  /** A round makes the next revision, from what its attempt brought, on the one that was active. */
  lemma RoundMakes(s: State, limit: nat, a: Attempt, c: Creation)
    requires Inv(s) && s.control.state == Enabled && Fresh(s.revisionPublications, a.maintenanceId)
    requires RoundCreation(s, limit, a, c)
    ensures var t := Round(s, limit, a).state;
            t.active == |s.revisions| + 1 && t.active in t.revisions && IsRound(t.revisions[t.active], s.active, a)
  {
    hide Inv, Fresh, Listed, AllPending, RoundCreation, Round, InsertRevision, SelectRevision, HasRevision, CreateRevision,
         RevisionConfirmed, OtherRevisionSelected;
    RoundCommits(s, limit, a, c);
    RoundReady(s, limit, a, c);
    RoundBrings(s, limit, a, c);
    MaximumIsCount(s);
    RoundRow(s, c);
  }

  ghost predicate IsRound(row: Revision, active: nat, a: Attempt) {
    row.predecessor == (if active == 0 then None else Some(active)) && row.tree == a.tree &&
    row.source == ByMaintenance(a.maintenanceId, a.trajectory)
  }

  lemma RoundBrings(s: State, limit: nat, a: Attempt, c: Creation)
    requires RoundCreation(s, limit, a, c)
    ensures c.expectedActive == s.active && c.tree == a.tree && c.source.Maintenance? &&
            c.source.maintenanceId == a.maintenanceId && c.source.trajectory == a.trajectory
  {
    hide OldestPending;
  }

  lemma RoundRow(s: State, c: Creation)
    ensures var t := InsertRevision(SelectRevision(Confirmed(s, c), c), c);
            t.active == MaxRevision(s.revisions.Keys) + 1 && t.active in t.revisions &&
            t.revisions[t.active] == RevisionRowOf(c)
  {
    hide Consume, RevisionRowOf;
  }

  /** The tables after a committed round. */
  lemma RoundTables(s: State, limit: nat, a: Attempt, c: Creation)
    requires Inv(s) && s.control.state == Enabled && Fresh(s.revisionPublications, a.maintenanceId)
    requires RoundCreation(s, limit, a, c)
    ensures var t := Round(s, limit, a).state;
            t.control == s.control &&
            t.revisionPublications == s.revisionPublications[RevisionKeyOf(c) := Publication(c, Selected)] &&
            t.observations == Consume(s.observations, c.source.extractionIds, MaxRevision(s.revisions.Keys) + 1)
  {
    hide Inv, Fresh, Listed, AllPending, RoundCreation, Round, Consume, RevisionKeyOf, InsertRevision, SelectRevision;
    RoundCommits(s, limit, a, c);
    RoundReady(s, limit, a, c);
    InsertedTables(s, c);
  }

  lemma InsertedTables(s: State, c: Creation)
    requires c.source.Maintenance?
    ensures var t := InsertRevision(SelectRevision(Confirmed(s, c), c), c);
            t.control == s.control &&
            t.revisionPublications == s.revisionPublications[RevisionKeyOf(c) := Publication(c, Selected)] &&
            t.observations == Consume(s.observations, c.source.extractionIds, MaxRevision(s.revisions.Keys) + 1)
  {
    hide RevisionKeyOf, Consume;
    var rows, key := s.revisionPublications, RevisionKeyOf(c);
    assert rows[key := Publication(c, Present)][key := Publication(c, Selected)] == rows[key := Publication(c, Selected)];
  }

  lemma OtherIdsStayFresh(rows: RevisionRows, c: Creation, id: string)
    requires Fresh(rows, id) && OwnerOf(c.source) != MaintenanceOwner(id)
    ensures Fresh(rows[RevisionKeyOf(c) := Publication(c, Selected)], id)
  {
  }

  /** What one round leaves for the next: the oldest observations are gone, other ids are still fresh. */
  lemma RoundAdvances(s: State, limit: nat, a: Attempt)
    requires Inv(s) && s.control.state == Enabled && Fresh(s.revisionPublications, a.maintenanceId)
    ensures var t := Round(s, limit, a).state;
            t.control == s.control &&
            (forall id :: id != a.maintenanceId && Fresh(s.revisionPublications, id) ==> Fresh(t.revisionPublications, id)) &&
            Sort(PendingKeys(t.observations)) ==
              Sort(PendingKeys(s.observations))[Min(limit, |PendingKeys(s.observations)|)..]
  {
    hide Inv, Fresh, PendingKeys, Consume, Listed, AllPending;
    if InputFor(s, limit).None? {
      NothingPending(s, limit);
    } else {
      var c := CreationFor(InputFor(s, limit).value, a);
      RoundReady(s, limit, a, c);
      RoundTables(s, limit, a, c);
      hide Round, InputFor;
      OldestRemoved(s.observations, limit, c.source.extractionIds, MaxRevision(s.revisions.Keys) + 1);
      forall id | id != a.maintenanceId && Fresh(s.revisionPublications, id)
        ensures Fresh(Round(s, limit, a).state.revisionPublications, id)
      {
        OtherIdsStayFresh(s.revisionPublications, c, id);
      }
    }
  }

  lemma NothingPending(s: State, limit: nat)
    requires InputFor(s, limit).None?
    ensures Min(limit, |PendingKeys(s.observations)|) == 0
    ensures Sort(PendingKeys(s.observations))[0..] == Sort(PendingKeys(s.observations))
  {
    InputLists(s, limit);
  }

  lemma RoundKeeps(s: State, limit: nat, a: Attempt)
    requires Inv(s)
    ensures Inv(Round(s, limit, a).state)
  {
    hide Inv, ReserveRevision, ConfirmRevision, CreateRevision, InputFor;
    match InputFor(s, limit)
    case None =>
    case Some(input) =>
      var c := CreationFor(input, a);
      ReserveRevisionKeeps(s, c);
      ConfirmRevisionKeeps(ReserveRevision(s, c).state, c);
      CreateRevisionKeeps(ConfirmRevision(ReserveRevision(s, c).state, c).state, c);
  }

  // ---- any number of rounds ----

  ghost function Rounds(s: State, limit: nat, attempts: seq<Attempt>): State
    decreases |attempts|
  {
    if attempts == [] then s else Rounds(Round(s, limit, attempts[0]).state, limit, attempts[1..])
  }

  /** No round fails: each one either commits a revision or finds nothing pending. */
  ghost predicate AllCommit(s: State, limit: nat, attempts: seq<Attempt>)
    decreases |attempts|
  {
    attempts == [] ||
    (var out := Round(s, limit, attempts[0]);
     (if PendingKeys(s.observations) == {} then out == Outcome(s, Input(None)) else Committed(out.reply)) &&
     AllCommit(out.state, limit, attempts[1..]))
  }

  ghost predicate AllFresh(rows: RevisionRows, attempts: seq<Attempt>) {
    (forall i :: 0 <= i < |attempts| ==> Fresh(rows, attempts[i].maintenanceId)) &&
    (forall i, j :: 0 <= i < j < |attempts| ==> attempts[i].maintenanceId != attempts[j].maintenanceId)
  }

  lemma RoundReplies(s: State, limit: nat, a: Attempt)
    requires Inv(s) && s.control.state == Enabled && Fresh(s.revisionPublications, a.maintenanceId) && limit >= 1
    ensures if PendingKeys(s.observations) == {} then Round(s, limit, a) == Outcome(s, Input(None))
            else Committed(Round(s, limit, a).reply)
  {
    hide Inv, Fresh, CreateRevision, ReserveRevision, ConfirmRevision, PendingKeys;
    InputLists(s, limit);
    assert |Sort(PendingKeys(s.observations))| == |PendingKeys(s.observations)|;
    if InputFor(s, limit).Some? {
      RoundCommits(s, limit, a, CreationFor(InputFor(s, limit).value, a));
    }
  }

  /** The pending observations, oldest first. */
  ghost function Queue(s: State): (q: seq<Key>)
    ensures |q| == |PendingKeys(s.observations)|
  {
    Sort(PendingKeys(s.observations))
  }

  /** How many observations `rounds` rounds can consume. */
  function Capacity(rounds: nat, limit: nat): nat {
    rounds * limit
  }

  lemma OneMoreRound(rounds: nat, limit: nat)
    ensures Capacity(0, limit) == 0
    ensures Capacity(rounds + 1, limit) == limit + Capacity(rounds, limit)
  {
  }

  lemma DropTwice<T>(q: seq<T>, q1: seq<T>, q2: seq<T>, first: nat, more: nat)
    requires q1 == q[Min(first, |q|)..] && q2 == q1[Min(more, |q1|)..]
    ensures q2 == q[Min(first + more, |q|)..]
  {
  }

  ghost predicate QueueShortens(s: State, t: State, limit: nat) {
    Queue(t) == Queue(s)[Min(limit, |Queue(s)|)..]
  }

  lemma RoundShortens(s: State, limit: nat, attempts: seq<Attempt>)
    requires Inv(s) && s.control.state == Enabled && limit >= 1 && AllFresh(s.revisionPublications, attempts)
    requires attempts != []
    ensures var out := Round(s, limit, attempts[0]);
            Inv(out.state) && out.state.control.state == Enabled &&
            AllFresh(out.state.revisionPublications, attempts[1..]) &&
            (if PendingKeys(s.observations) == {} then out == Outcome(s, Input(None)) else Committed(out.reply))
    ensures QueueShortens(s, Round(s, limit, attempts[0]).state, limit)
  {
    hide Inv, Round, PendingKeys, Fresh, Sort, AllFresh, Min;
    FirstIsFresh(s.revisionPublications, attempts);
    RoundReplies(s, limit, attempts[0]);
    RoundAdvances(s, limit, attempts[0]);
    RoundKeeps(s, limit, attempts[0]);
    OthersStayFresh(s.revisionPublications, Round(s, limit, attempts[0]).state.revisionPublications, attempts);
  }

  lemma FirstIsFresh(rows: RevisionRows, attempts: seq<Attempt>)
    requires AllFresh(rows, attempts) && attempts != []
    ensures Fresh(rows, attempts[0].maintenanceId)
  {
    hide Fresh;
  }

  lemma OthersStayFresh(rows: RevisionRows, after: RevisionRows, attempts: seq<Attempt>)
    requires AllFresh(rows, attempts) && attempts != []
    requires forall id :: id != attempts[0].maintenanceId && Fresh(rows, id) ==> Fresh(after, id)
    ensures AllFresh(after, attempts[1..])
  {
    hide Fresh;
    var rest := attempts[1..];
    assert forall i :: 0 <= i < |rest| ==> rest[i] == attempts[i + 1];
  }

  /** `t` has consumed the oldest observations pending in `s`, as many as the rounds could hold. */
  ghost predicate Drained(s: State, t: State, rounds: nat, limit: nat) {
    Queue(t) == Queue(s)[Min(Capacity(rounds, limit), |Queue(s)|)..]
  }

  lemma DrainedCount(s: State, t: State, rounds: nat, limit: nat)
    requires Drained(s, t, rounds, limit)
    ensures var n := |PendingKeys(s.observations)|;
            |PendingKeys(t.observations)| == if rounds * limit < n then n - rounds * limit else 0
  {
  }

  /**
   * With maintenance enabled, fresh ids and no other writer, k rounds of at most `limit >= 1`
   * observations all succeed and consume exactly the oldest min(k*limit, pending) observations.
   */
  lemma {:induction false} MaintenanceDrains(s: State, limit: nat, attempts: seq<Attempt>)
    requires Inv(s) && s.control.state == Enabled && limit >= 1 && AllFresh(s.revisionPublications, attempts)
    ensures AllCommit(s, limit, attempts)
    ensures Drained(s, Rounds(s, limit, attempts), |attempts|, limit)
    decreases |attempts|
  {
    hide Inv, Round, PendingKeys, AllFresh, Sort, Queue, Capacity;
    if attempts == [] {
      assert Rounds(s, limit, attempts) == s;
      OneMoreRound(0, limit);
    } else {
      var t := Round(s, limit, attempts[0]).state;
      var rest := attempts[1..];
      RoundShortens(s, limit, attempts);
      MaintenanceDrains(t, limit, rest);
      OneMoreRound(|rest|, limit);
      DropTwice(Queue(s), Queue(t), Queue(Rounds(t, limit, rest)), limit, Capacity(|rest|, limit));
    }
  }
}
