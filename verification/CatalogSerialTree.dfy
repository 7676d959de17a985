/** The same, for the transactions that move the memory tree or the maintenance control. */
module CatalogSerialTree {
  import opened Basics
  import opened CatalogTypes
  import opened CatalogSpec
  import opened CatalogInvariant
  import opened CatalogHistory
  import opened CatalogTransactions
  import opened CatalogProtection
  import opened CatalogSerial
  import opened Ordering

  // ---- creating a revision ----

  /** The locks held before statement `at`; observation locks come on top of these. */
  function CreationLocks(at: nat, c: Creation): set<Lock> {
    (if at >= 1 then {RevisionOwnerLock(OwnerOf(c.source))} else {}) +
    (if at >= 3 then {RevisionRowLock(RevisionKeyOf(c))} else {}) +
    (if at >= 6 && c.source.Maintenance? then {ControlLock} else {}) +
    (if at >= 7 then {TreeLock} else {})
  }

  predicate IsRequested(l: Lock, c: Creation) {
    l.ObservationLock? && c.source.Maintenance? && l.id in c.source.extractionIds
  }

  ghost predicate HoldsCreationLocks(t: Transaction, at: nat, c: Creation) {
    CreationLocks(at, c) <= t.locks &&
    (forall l :: l in t.locks && l !in CreationLocks(at, c) ==> IsRequested(l, c)) &&
    (at < 8 ==> t.locks == CreationLocks(at, c))
  }

  function MarkRevision(c: Creation): Writes {
    After(NoWrites, WriteRevisionRow(RevisionKeyOf(c), Publication(c, Selected)))
  }

  function InsertedRevisionWrites(c: Creation, next: nat): Writes {
    After(MarkRevision(c), WriteRevision(next, RevisionRowOf(c)))
  }

  function ConsumedWrites(observations: Observations, c: Creation, next: nat): Writes {
    if c.source.Maintenance? then
      After(InsertedRevisionWrites(c, next), WriteObservations(ConsumedRows(observations, c.source.extractionIds, next)))
    else InsertedRevisionWrites(c, next)
  }

  /** The guards a creation has passed before statement `at`. */
  ghost predicate CreationGuards(s: State, c: Creation, at: nat) {
    (at >= 2 ==> !OtherRevisionSelected(s.revisionPublications, c)) &&
    (at >= 3 ==> RevisionConfirmed(s.revisionPublications, c)) &&
    (at >= 5 ==> !HasRevision(s.revisions, OwnerOf(c.source))) &&
    (at >= 6 && c.source.Maintenance? ==> s.control.state == Enabled) &&
    (at >= 7 ==> s.active == c.expectedActive) &&
    (at >= 8 && c.source.Maintenance? ==> AllPending(s.observations, c.source.extractionIds))
  }

  ghost predicate CreationWrites(t: Transaction, s: State, c: Creation, at: nat) {
    (at >= 9 ==> t.next == MaxRevision(s.revisions.Keys) + 1) &&
    t.writes ==
      if at <= 3 then NoWrites
      else if at <= 9 then MarkRevision(c)
      else if at == 10 then InsertedRevisionWrites(c, t.next)
      else if at == 11 then ConsumedWrites(s.observations, c, t.next)
      else After(ConsumedWrites(s.observations, c, t.next), WriteActive(t.next))
  }

  ghost predicate CreatingNew(t: Transaction, s: State, c: Creation) {
    t.at <= 12 && HoldsCreationLocks(t, t.at, c) && CreationGuards(s, c, t.at) && CreationWrites(t, s, c, t.at)
  }

  /** A creation that found its own revision: only the commit is left, and it changes nothing. */
  ghost predicate CreatingAgain(t: Transaction, s: State, c: Creation) {
    HoldsCreationLocks(t, 4, c) && t.writes == MarkRevision(c) &&
    t.reply.Some? && t.reply.value.RevisionCreated? &&
    t.reply.value == RevisionCreated(false, t.reply.value.revision, OwnerOf(c.source)) &&
    CreationRecorded(s, c, t.reply.value.revision)
  }

  ghost predicate Creating(t: Transaction, s: State, c: Creation) {
    match t.reply
    case None => t.at <= 11 && CreatingNew(t, s, c)
    case Some(reply) =>
      CreatingAgain(t, s, c) ||
      (t.at == 12 && CreatingNew(t, s, c) && reply == RevisionCreated(true, t.next, OwnerOf(c.source)))
  }

  lemma OwnerRevisionSelectionStays(s: State, s': State, c: Creation)
    requires RevisionOwnerKept(s, s', OwnerOf(c.source))
    ensures OtherRevisionSelected(s.revisionPublications, c) <==> OtherRevisionSelected(s'.revisionPublications, c)
  {
    hide HasRevision;
    var rows, rows', owner := s.revisionPublications, s'.revisionPublications, OwnerOf(c.source);
    if OtherRevisionSelected(rows, c) {
      var k :| k in rows && k.owner == owner && rows[k].status == Selected && rows[k].intent != c;
      assert SelectedRevision(rows, k);
    }
    if OtherRevisionSelected(rows', c) {
      var k :| k in rows' && k.owner == owner && rows'[k].status == Selected && rows'[k].intent != c;
      assert SelectedRevision(rows', k);
    }
  }

  lemma AllPendingStays(o: Observations, o': Observations, ids: seq<string>)
    requires RowsKept(o, o') && AllPending(o, ids)
    ensures AllPending(o', ids)
    ensures ConsumedRows(o', ids, 0) == ConsumedRows(o, ids, 0)
  {
    AllPendingIsDistinct(o, ids);
    assert PendingAmong(o', ids) == PendingAmong(o, ids) by {
      forall id | id in ids ensures id in PendingAmong(o, ids) {}
    }
  }

  lemma ConsumedRowsStay(o: Observations, o': Observations, ids: seq<string>, next: nat)
    requires RowsKept(o, o') && AllPending(o, ids)
    ensures ConsumedRows(o', ids, next) == ConsumedRows(o, ids, next)
  {
    assert PendingAmong(o', ids) == PendingAmong(o, ids) by {
      forall id | id in ids ensures id in PendingAmong(o, ids) {}
    }
  }

  lemma CreationGuardsStay(t: Transaction, s: State, s': State, c: Creation, at: nat)
    requires HoldsCreationLocks(t, at, c) && CreationGuards(s, c, at) && Follows(s, s', t.locks)
    ensures CreationGuards(s', c, at)
  {
    hide Inv, Extends, KeysGrow, OtherRevisionSelected, HasRevision, AllPending;
    if at >= 1 {
      assert Protected(RevisionOwnerLock(OwnerOf(c.source)), s, s');
      OwnerRevisionSelectionStays(s, s', c);
    }
    if at >= 3 {
      assert Protected(RevisionRowLock(RevisionKeyOf(c)), s, s');
    }
    if at >= 6 && c.source.Maintenance? {
      assert Protected(ControlLock, s, s');
    }
    if at >= 7 {
      assert Protected(TreeLock, s, s');
    }
    if at >= 8 && c.source.Maintenance? {
      AllPendingStays(s.observations, s'.observations, c.source.extractionIds);
    }
  }

  lemma CreationWritesStay(t: Transaction, s: State, s': State, c: Creation, at: nat)
    requires HoldsCreationLocks(t, at, c) && CreationGuards(s, c, at) && CreationWrites(t, s, c, at)
    requires Follows(s, s', t.locks)
    ensures CreationWrites(t, s', c, at)
  {
    hide Inv, Extends, KeysGrow, OtherRevisionSelected, HasRevision, AllPending, ConsumedRows, RevisionConfirmed;
    if at >= 7 {
      assert Protected(TreeLock, s, s');
    }
    if at >= 11 && c.source.Maintenance? {
      ConsumedRowsStay(s.observations, s'.observations, c.source.extractionIds, t.next);
    }
  }

  lemma CreatingStays(t: Transaction, s: State, s': State, c: Creation)
    requires Creating(t, s, c) && Follows(s, s', t.locks)
    ensures Creating(t, s', c)
  {
    hide CreationGuards, CreationWrites, HoldsCreationLocks;
    if CreatingNew(t, s, c) {
      hide Follows;
      CreationGuardsStay(t, s, s', c, t.at);
      CreationWritesStay(t, s, s', c, t.at);
    }
    if CreatingAgain(t, s, c) {
      hide KeysGrow, Protected, Inv;
      RecordedStays(s, s', c, t.reply.value.revision);
    }
  }

  lemma RecordedStays(s: State, s': State, c: Creation, r: nat)
    requires CreationRecorded(s, c, r) && Extends(s, s')
    ensures CreationRecorded(s', c, r)
  {
    hide ConsumedBy, ObservationsKept, ExtractionSelectionsKept;
  }

  /** A statement keeps the transaction's knowledge, or throws exactly what the atomic operation throws. */
  ghost predicate CreateStepSound(t: Transaction, s: State, c: Creation) {
    var v := View(s, t.writes);
    var e := CreateStatement(Acquiring(t, v), v, c);
    (e.Proceeds? ==> e.transaction.op == t.op && Creating(e.transaction, s, c)) &&
    (e.Throws? ==> CreateRevision(s, c) == Fail(s, e.failure))
  }

  lemma CreatingChecks(t: Transaction, s: State, c: Creation)
    requires t.op == OpCreate(c) && Creating(t, s, c) && t.reply == None && t.at <= 3
    ensures CreateStepSound(t, s, c)
  {
    hide OtherRevisionSelected, RevisionConfirmed, CreateSelected, HasRevision, AllPending, SameRevision, ConsumedBy;
  }

  lemma CreatingReplays(t: Transaction, s: State, c: Creation)
    requires t.op == OpCreate(c) && Creating(t, s, c) && t.reply == None && t.at == 4 && Inv(s)
    ensures CreateStepSound(t, s, c)
  {
    hide Inv, OtherRevisionSelected, RevisionConfirmed, HasRevision, AllPending, SameRevision, ConsumedBy, InsertRevision,
         CreationRecorded;
    assert View(s, t.writes) == SelectRevision(s, c);
    if HasRevision(s.revisions, OwnerOf(c.source)) {
      var r := RevisionOf(s.revisions, OwnerOf(c.source));
      if SameRevision(s.revisions[r], ConsumedBy(s.observations, r), c) {
        FoundIsRecorded(s, c);
      }
    }
  }

  lemma FoundIsRecorded(s: State, c: Creation)
    requires Inv(s) && RevisionConfirmed(s.revisionPublications, c) && HasRevision(s.revisions, OwnerOf(c.source))
    requires var r := RevisionOf(s.revisions, OwnerOf(c.source));
             SameRevision(s.revisions[r], ConsumedBy(s.observations, r), c)
    ensures CreationRecorded(s, c, RevisionOf(s.revisions, OwnerOf(c.source)))
  {
    SelectRevisionAgain(s, c);
    hide Inv, ConsumedBy, SameIds;
  }

  lemma MarkedView(s: State, c: Creation)
    ensures View(s, MarkRevision(c)) == SelectRevision(s, c)
  {
  }

  lemma CreatingLocks(t: Transaction, s: State, c: Creation)
    requires t.op == OpCreate(c) && Creating(t, s, c) && t.reply == None && 5 <= t.at <= 6
    ensures CreateStepSound(t, s, c)
  {
    hide OtherRevisionSelected, RevisionConfirmed, HasRevision, AllPending, SameRevision, ConsumedBy, InsertRevision;
    MarkedView(s, c);
  }

  lemma ClaimsRequested(t: Transaction, v: State, c: Creation)
    requires t.op == OpCreate(c) && 7 <= t.at <= 8
    ensures forall l :: l in Wanted(t, v) ==> IsRequested(l, c)
  {
  }

  lemma CreatingClaims(t: Transaction, s: State, c: Creation)
    requires t.op == OpCreate(c) && Creating(t, s, c) && t.reply == None && 7 <= t.at <= 8
    ensures CreateStepSound(t, s, c)
  {
    hide OtherRevisionSelected, RevisionConfirmed, HasRevision, AllPending, SameRevision, ConsumedBy, InsertRevision,
         PendingAmong, IsRequested;
    MarkedView(s, c);
    ClaimsRequested(t, View(s, t.writes), c);
  }

  lemma CreatingInserts(t: Transaction, s: State, c: Creation)
    requires t.op == OpCreate(c) && Creating(t, s, c) && t.reply == None && t.at == 9
    ensures CreateStepSound(t, s, c)
  {
    MarkedView(s, c);
    hide OtherRevisionSelected, RevisionConfirmed, HasRevision, AllPending, SameRevision, ConsumedBy, CreateRevision,
         SelectRevision, View;
  }

  lemma CreatingConsumes(t: Transaction, s: State, c: Creation)
    requires t.op == OpCreate(c) && Creating(t, s, c) && t.reply == None && t.at == 10
    ensures CreateStepSound(t, s, c)
  {
    ObservationsSeen(s, c, t.next);
    hide OtherRevisionSelected, RevisionConfirmed, HasRevision, AllPending, SameRevision, ConsumedBy, CreateRevision,
         ConsumedRows, View;
  }

  lemma ObservationsSeen(s: State, c: Creation, next: nat)
    ensures View(s, InsertedRevisionWrites(c, next)).observations == s.observations
  {
    MarkedView(s, c);
    var ws := InsertedRevisionWrites(c, next);
    assert View(s, ws) == Written(View(s, ws.earlier), ws.last);
  }

  lemma CreatingMoves(t: Transaction, s: State, c: Creation)
    requires t.op == OpCreate(c) && Creating(t, s, c) && t.reply == None && t.at >= 11
    ensures CreateStepSound(t, s, c)
  {
    hide OtherRevisionSelected, RevisionConfirmed, HasRevision, AllPending, SameRevision, ConsumedBy, CreateRevision,
         ConsumedRows, View, ConsumedWrites;
  }

  lemma CreatingWrites(t: Transaction, s: State, c: Creation)
    requires t.op == OpCreate(c) && Creating(t, s, c) && t.reply == None && t.at >= 9
    ensures CreateStepSound(t, s, c)
  {
    hide Creating, CreateStepSound;
    if t.at == 9 {
      CreatingInserts(t, s, c);
    } else if t.at == 10 {
      CreatingConsumes(t, s, c);
    } else {
      CreatingMoves(t, s, c);
    }
  }

  lemma CreatingSteps(t: Transaction, s: State, c: Creation)
    requires t.op == OpCreate(c) && Creating(t, s, c) && t.reply == None && Inv(s)
    ensures CreateStepSound(t, s, c)
  {
    hide Inv, CreateStepSound, CreatingNew, CreatingAgain;
    if t.at <= 3 {
      CreatingChecks(t, s, c);
    } else if t.at == 4 {
      CreatingReplays(t, s, c);
    } else if t.at <= 6 {
      CreatingLocks(t, s, c);
    } else if t.at <= 8 {
      CreatingClaims(t, s, c);
    } else {
      CreatingWrites(t, s, c);
    }
  }

  lemma OverlayConsumes(o: Observations, ids: seq<string>, next: nat)
    ensures o + ConsumedRows(o, ids, next) == Consume(o, ids, next)
  {
  }

  lemma InsertedView(s: State, c: Creation, next: nat)
    ensures View(s, InsertedRevisionWrites(c, next)) ==
            s.(revisionPublications := s.revisionPublications[RevisionKeyOf(c) := Publication(c, Selected)],
               revisions := s.revisions[next := RevisionRowOf(c)])
  {
    hide RevisionKeyOf, RevisionRowOf;
    assert View(s, InsertedRevisionWrites(c, next)) ==
           Written(View(s, MarkRevision(c)), InsertedRevisionWrites(c, next).last);
    MarkedView(s, c);
  }

  lemma ConsumedView(s: State, c: Creation, next: nat)
    ensures View(s, ConsumedWrites(s.observations, c, next)) ==
            s.(revisionPublications := s.revisionPublications[RevisionKeyOf(c) := Publication(c, Selected)],
               revisions := s.revisions[next := RevisionRowOf(c)],
               observations := if c.source.Maintenance? then Consume(s.observations, c.source.extractionIds, next)
                               else s.observations)
  {
    hide RevisionKeyOf, RevisionRowOf, Consume, ConsumedRows, InsertedRevisionWrites;
    InsertedView(s, c, next);
    if c.source.Maintenance? {
      OverlayConsumes(s.observations, c.source.extractionIds, next);
    }
  }

  lemma CreationView(s: State, c: Creation)
    ensures var next := MaxRevision(s.revisions.Keys) + 1;
            View(s, After(ConsumedWrites(s.observations, c, next), WriteActive(next))) ==
            InsertRevision(SelectRevision(s, c), c)
  {
    hide RevisionKeyOf, RevisionRowOf, Consume, ConsumedWrites, InsertRevision, SelectRevision;
    ConsumedView(s, c, MaxRevision(s.revisions.Keys) + 1);
    CreatedTables(s, c);
  }

  lemma NewCreationCommits(t: Transaction, s: State, c: Creation)
    requires t.at == 12 && CreatingNew(t, s, c) && t.reply == Some(RevisionCreated(true, t.next, OwnerOf(c.source)))
    ensures Outcome(View(s, t.writes), t.reply.value) == CreateRevision(s, c)
    ensures Covering(OpCreate(c)) <= t.locks
  {
    hide OtherRevisionSelected, RevisionConfirmed, HasRevision, AllPending, InsertRevision, ConsumedWrites,
         SameRevision, ConsumedBy, View;
    CreationView(s, c);
    GuardsGiveCreation(s, c);
  }

  lemma GuardsGiveCreation(s: State, c: Creation)
    requires CreationGuards(s, c, 12)
    ensures CreateRevision(s, c) ==
            Outcome(InsertRevision(SelectRevision(s, c), c),
                    RevisionCreated(true, MaxRevision(s.revisions.Keys) + 1, OwnerOf(c.source)))
  {
    hide OtherRevisionSelected, RevisionConfirmed, HasRevision, AllPending, InsertRevision, SameRevision, ConsumedBy,
         SelectRevision;
    SelectionTouchesOnlyPublications(s, c);
  }

  lemma CreatingCommits(t: Transaction, s: State, c: Creation)
    requires Creating(t, s, c) && t.reply.Some? && Inv(s)
    ensures Outcome(View(s, t.writes), t.reply.value) == CreateRevision(s, c)
    ensures Covering(OpCreate(c)) <= t.locks || CreateRevision(s, c).state == s
  {
    hide Inv, CreateRevision, CreatingNew, View, MarkRevision, CreationRecorded;
    if CreatingAgain(t, s, c) {
      var r := t.reply.value.revision;
      RecordedCreationReplays(s, c, r);
      RecordedIsSelected(s, c, r);
      MarkedView(s, c);
    } else {
      NewCreationCommits(t, s, c);
    }
  }

  lemma SelectionTouchesOnlyPublications(s: State, c: Creation)
    ensures var u := SelectRevision(s, c);
            u.revisions == s.revisions && u.observations == s.observations && u.active == s.active && u.control == s.control
  {
  }

  lemma RecordedIsSelected(s: State, c: Creation, r: nat)
    requires CreationRecorded(s, c, r)
    ensures SelectRevision(s, c) == s
  {
    assert SelectRevision(s, c).revisionPublications == s.revisionPublications;
  }

  // ---- restoring ----

  function RestoreRowOf(o: Restore): RestoreRow {
    RestoreRow(o.expectedActive, o.restoredRevision, o.actor)
  }

  ghost predicate Restoring(t: Transaction, s: State, o: Restore) {
    var inserted := After(NoWrites, WriteRestore(o.operationId, RestoreRowOf(o)));
    match t.reply
    case None =>
      if t.at <= 1 then Idle(t)
      else
        t.at <= 4 && t.locks == {TreeLock} && s.active == o.expectedActive &&
        (t.at >= 3 ==> o.restoredRevision in s.revisions) &&
        (t.at >= 4 ==> o.operationId !in s.restores) &&
        t.writes == (if t.at == 4 then inserted else NoWrites)
    case Some(reply) =>
      (t.locks == {} && t.writes == NoWrites && o.operationId in s.restores &&
       s.restores[o.operationId] == RestoreRowOf(o) && reply == Restored(false, o.restoredRevision, o.operationId)) ||
      (t.locks == {TreeLock} && t.writes == After(inserted, WriteActive(o.restoredRevision)) &&
       s.active == o.expectedActive && o.restoredRevision in s.revisions && o.operationId !in s.restores &&
       reply == Restored(true, o.restoredRevision, o.operationId))
  }

  lemma RestoringStays(t: Transaction, s: State, s': State, o: Restore)
    requires Restoring(t, s, o) && Follows(s, s', t.locks)
    ensures Restoring(t, s', o)
  {
    hide Inv, KeysGrow, RevisionsKept, ExtractionSelectionsKept, RevisionSelectionsKept, ObservationsKept;
    assert TreeLock in t.locks ==> Protected(TreeLock, s, s');
    assert RowsKept(s.restores, s'.restores);
    hide Extends;
  }

  /**
   * A statement keeps the transaction's knowledge, or throws. What it throws is what the atomic
   * operation would have answered, except that the unlocked replay query may have missed a
   * repetition that has committed since.
   */
  ghost predicate RestoreStepSound(t: Transaction, s: State, o: Restore) {
    var v := View(s, t.writes);
    var e := RestoreStatement(Acquiring(t, v), v, o);
    (e.Proceeds? ==> e.transaction.op == t.op && Restoring(e.transaction, s, o)) &&
    (e.Throws? ==> (RestoreTree(s, o) == Fail(s, e.failure) <==> t.at == 0 || o.operationId !in s.restores))
  }

  lemma RestoringSteps(t: Transaction, s: State, o: Restore)
    requires t.op == OpRestore(o) && Restoring(t, s, o) && t.reply == None
    ensures RestoreStepSound(t, s, o)
  {
  }

  lemma RestoringCommits(t: Transaction, s: State, o: Restore)
    requires Restoring(t, s, o) && t.reply.Some?
    ensures Outcome(View(s, t.writes), t.reply.value) == RestoreTree(s, o)
    ensures t.locks == Covering(OpRestore(o)) || RestoreTree(s, o).state == s
  {
    if t.writes != NoWrites {
      assert View(s, t.writes) == Written(View(s, t.writes.earlier), t.writes.last);
      assert View(s, t.writes.earlier) == Written(s, t.writes.earlier.last);
    }
  }

  // ---- pausing and resuming ----

  function ControlAfter(s: State, o: ControlChange, now: int): Control {
    Control(o.target, s.control.generation + 1, o.actor, now)
  }

  function OppositeOf(target: ControlState): ControlState {
    if target == Paused then Enabled else Paused
  }

  ghost predicate ControlGuards(s: State, o: ControlChange) {
    s.control.generation == o.expectedGeneration && s.control.state == OppositeOf(o.target)
  }

  ghost predicate Controlling(t: Transaction, s: State, o: ControlChange, now: int) {
    var after := ControlAfter(s, o, now);
    var updated := After(NoWrites, WriteControl(after));
    match t.reply
    case None =>
      if t.at <= 1 then Idle(t)
      else
        t.at <= 3 && t.locks == {ControlLock} && ControlGuards(s, o) &&
        t.writes == (if t.at == 3 then updated else NoWrites)
    case Some(reply) =>
      (t.locks == {} && t.writes == NoWrites && o.operationId in s.controlChanges &&
       var row := s.controlChanges[o.operationId];
       row.target == o.target && row.expectedGeneration == o.expectedGeneration && row.actor == o.actor &&
       reply == ControlChanged(false, row.result)) ||
      (t.locks == {ControlLock} && ControlGuards(s, o) && o.operationId !in s.controlChanges &&
       t.writes == After(updated, WriteControlChange(
         o.operationId, ControlRow(o.target, o.expectedGeneration, o.actor, after))) &&
       reply == ControlChanged(true, after))
  }

  lemma ControllingStays(t: Transaction, s: State, s': State, o: ControlChange, now: int)
    requires Controlling(t, s, o, now) && Follows(s, s', t.locks)
    ensures Controlling(t, s', o, now)
  {
    hide Inv, KeysGrow, RevisionsKept, ExtractionSelectionsKept, RevisionSelectionsKept, ObservationsKept;
    assert ControlLock in t.locks ==> Protected(ControlLock, s, s');
    assert RowsKept(s.controlChanges, s'.controlChanges);
    hide Extends;
  }

  /** As for restores: a thrown error is the atomic one unless a repetition has committed since the replay query. */
  ghost predicate ControlStepSound(t: Transaction, s: State, o: ControlChange, now: int) {
    var v := View(s, t.writes);
    var e := ControlStatement(Acquiring(t, v), v, o, now);
    (e.Proceeds? ==> e.transaction.op == t.op && Controlling(e.transaction, s, o, now)) &&
    (e.Throws? ==> (ChangeControl(s, o, now) == Fail(s, e.failure) <==> t.at == 0 || o.operationId !in s.controlChanges))
  }

  lemma ControllingSteps(t: Transaction, s: State, o: ControlChange, now: int)
    requires t.op == OpControl(o, now) && Controlling(t, s, o, now) && t.reply == None
    ensures ControlStepSound(t, s, o, now)
  {
  }

  lemma ControllingCommits(t: Transaction, s: State, o: ControlChange, now: int)
    requires Controlling(t, s, o, now) && t.reply.Some?
    ensures Outcome(View(s, t.writes), t.reply.value) == ChangeControl(s, o, now)
    ensures t.locks == Covering(OpControl(o, now)) || ChangeControl(s, o, now).state == s
  {
    if t.writes != NoWrites {
      assert View(s, t.writes) == Written(View(s, t.writes.earlier), t.writes.last);
      assert View(s, t.writes.earlier) == Written(s, t.writes.earlier.last);
    }
  }

  // ---- reading the maintenance input ----

  ghost predicate Reading(t: Transaction) {
    t.locks == {} && t.writes == NoWrites && (t.reply == None ==> t.at <= 1)
  }

  lemma ReadingSteps(t: Transaction, s: State, limit: nat)
    requires t.op == OpGetInput(limit) && Reading(t) && t.reply == None
    ensures var v := View(s, t.writes);
            var e := InputStatement(Acquiring(t, v), v, limit);
            e.Proceeds? && e.transaction.op == t.op && Reading(e.transaction)
  {
  }
}
