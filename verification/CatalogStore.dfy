/**
 * The catalog store: one field per table, one method per operation. A method runs the statements
 * of its transaction in order and, when it throws, puts back what it had already written.
 */
module CatalogStore {
  import opened Basics
  import opened CatalogTypes
  import opened CatalogSpec
  import opened CatalogInvariant
  import opened Ordering

  /** A creation up to the marking of its publication, and the statements that follow. */
  lemma CreationUnfolds(s: State, c: Creation)
    ensures OtherRevisionSelected(s.revisionPublications, c) ==> CreateRevision(s, c) == Fail(s, DifferentRevisionSelected)
    ensures !OtherRevisionSelected(s.revisionPublications, c) && !RevisionConfirmed(s.revisionPublications, c) ==>
              CreateRevision(s, c) == Fail(s, RevisionConfirmationRequired)
    ensures !OtherRevisionSelected(s.revisionPublications, c) && RevisionConfirmed(s.revisionPublications, c) ==>
              var out := CatalogSpec.CreateSelected(SelectRevision(s, c), c);
              (out.reply.Failed? ==> out.state == SelectRevision(s, c)) &&
              CreateRevision(s, c) == if out.reply.Failed? then Fail(s, out.reply.failure) else out
  {
    hide OtherRevisionSelected, RevisionConfirmed, HasRevision, SameRevision, AllPending, InsertRevision, ConsumedBy,
         SelectRevision;
  }

  predicate SameControlRequest(row: ControlRow, op: ControlChange) {
    row.target == op.target && row.expectedGeneration == op.expectedGeneration && row.actor == op.actor
  }

  /** The guards of a control change, and the rows it writes. */
  lemma ControlUnfolds(s: State, op: ControlChange, now: int)
    ensures op.operationId in s.controlChanges ==>
              ChangeControl(s, op, now) ==
              if SameControlRequest(s.controlChanges[op.operationId], op) then
                Outcome(s, ControlChanged(false, s.controlChanges[op.operationId].result))
              else Fail(s, ControlContentDiffers)
    ensures op.operationId !in s.controlChanges ==>
              var result := Control(op.target, s.control.generation + 1, op.actor, now);
              ChangeControl(s, op, now) ==
              if s.control.generation != op.expectedGeneration then Fail(s, ControlGenerationMoved)
              else if s.control.state != (if op.target == Paused then Enabled else Paused) then
                Fail(s, ControlTransitionIllegal)
              else
                Outcome(s.(control := result,
                           controlChanges := s.controlChanges[op.operationId :=
                             ControlRow(op.target, op.expectedGeneration, op.actor, result)]),
                        ControlChanged(true, result))
  {
  }

  class Store {
    var extractionPublications: ExtractionRows
    var extractions: Extractions
    var observations: Observations
    var revisionPublications: RevisionRows
    var revisions: Revisions
    var active: nat
    var restores: map<string, RestoreRow>
    var control: Control
    var controlChanges: map<string, ControlRow>

    function Snapshot(): State
      reads this
    {
      State(extractionPublications, extractions, observations, revisionPublications, revisions, active, restores,
            control, controlChanges)
    }

    ghost predicate Valid()
      reads this
    {
      Inv(Snapshot())
    }

    constructor (installedAt: int)
      ensures Valid() && Snapshot() == InitialState(installedAt)
    {
      extractionPublications, extractions, observations := map[], map[], map[];
      revisionPublications, revisions, active, restores := map[], map[], 0, map[];
      control, controlChanges := Control(Enabled, 0, SERVICE_ACTOR, installedAt), map[];
      new;
      InitialInv(installedAt);
    }

    method ReserveExtractionPublication(intent: ExtractionIntent) returns (reply: Reply)
      requires Valid()
      modifies this`extractionPublications
      ensures Valid()
      ensures Outcome(Snapshot(), reply) == ReserveExtraction(old(Snapshot()), intent)
    {
      hide Inv;
      ReserveExtractionKeeps(Snapshot(), intent);
      var key := ExtractionKeyOf(intent.registration);
      if key !in extractionPublications {
        extractionPublications := extractionPublications[key := Publication(intent, Reserved)];
      }
      var row := extractionPublications[key];
      reply := if row.intent != intent then Failed(ExtractionIntentChanged)
               else ExtractionPublished(row.intent, row.status);
    }

    method ConfirmExtractionPublication(intent: ExtractionIntent) returns (reply: Reply)
      requires Valid()
      modifies this`extractionPublications
      ensures Valid()
      ensures Outcome(Snapshot(), reply) == ConfirmExtraction(old(Snapshot()), intent)
    {
      hide Inv;
      ConfirmExtractionKeeps(Snapshot(), intent);
      var key := ExtractionKeyOf(intent.registration);
      if key in extractionPublications && extractionPublications[key].intent == intent {
        var row := extractionPublications[key];
        row := row.(status := if row.status == Selected then row.status else Present);
        extractionPublications := extractionPublications[key := row];
        reply := ExtractionPublished(row.intent, row.status);
      } else {
        reply := Failed(ExtractionReservationRequired);
      }
    }

    method InsertExtractionRows(input: Registration, now: int)
      modifies this`extractions, this`observations
      ensures Snapshot() == InsertExtraction(old(Snapshot()), input, now)
    {
      extractions := extractions[input.extractionId := ExtractionRowOf(input, now)];
      if input.observation.Some? {
        observations := observations[input.extractionId := Observation(input.observation.value, None, now)];
      }
    }

    method RegisterExtraction(input: Registration, now: int) returns (reply: Reply)
      requires Valid()
      modifies this`extractionPublications, this`extractions, this`observations
      ensures Valid()
      ensures Outcome(Snapshot(), reply) == CatalogSpec.RegisterExtraction(old(Snapshot()), input, now)
    {
      hide Inv, OtherExtractionSelected, SameExtraction, InsertExtraction;
      RegisterExtractionKeeps(Snapshot(), input, now);
      var before := extractionPublications;
      if OtherExtractionSelected(extractionPublications, input) {
        return Failed(DifferentExtractionSelected);
      }
      if !ExtractionConfirmed(extractionPublications, input) {
        return Failed(ExtractionConfirmationRequired);
      }
      var key := ExtractionKeyOf(input);
      extractionPublications := extractionPublications[key := extractionPublications[key].(status := Selected)];
      assert Snapshot() == SelectExtraction(old(Snapshot()), input);
      hide ExtractionConfirmed, SelectExtraction;
      if input.extractionId !in extractions {
        InsertExtractionRows(input, now);
        return Registered(true);
      }
      if !SameExtraction(extractions[input.extractionId], observations, input) {
        extractionPublications := before;
        return Failed(ExtractionContentDiffers);
      }
      return Registered(false);
    }

    method ReserveRevisionPublication(intent: Creation) returns (reply: Reply)
      requires Valid()
      modifies this`revisionPublications
      ensures Valid()
      ensures Outcome(Snapshot(), reply) == ReserveRevision(old(Snapshot()), intent)
    {
      hide Inv;
      ReserveRevisionKeeps(Snapshot(), intent);
      var key := RevisionKeyOf(intent);
      if key !in revisionPublications {
        revisionPublications := revisionPublications[key := Publication(intent, Reserved)];
      }
      var row := revisionPublications[key];
      reply := if row.intent != intent then Failed(RevisionIntentChanged) else RevisionReply(row.intent, row.status);
    }

    method ConfirmRevisionPublication(intent: Creation) returns (reply: Reply)
      requires Valid()
      modifies this`revisionPublications
      ensures Valid()
      ensures Outcome(Snapshot(), reply) == ConfirmRevision(old(Snapshot()), intent)
    {
      hide Inv;
      ConfirmRevisionKeeps(Snapshot(), intent);
      var key := RevisionKeyOf(intent);
      if key in revisionPublications && revisionPublications[key].intent == intent {
        var row := revisionPublications[key];
        row := row.(status := if row.status == Selected then row.status else Present);
        revisionPublications := revisionPublications[key := row];
        reply := RevisionReply(row.intent, row.status);
      } else {
        reply := Failed(RevisionReservationRequired);
      }
    }

    /** The replay query of a creation: the sorted consumed ids against the sorted requested ids. */
    method IsIdentical(row: Revision, consumed: set<string>, input: Creation) returns (identical: bool)
      ensures identical == SameRevision(row, consumed, input)
    {
      identical := row.predecessor == PredecessorOf(input.expectedActive) && row.tree == input.tree;
      match input.source {
        case Maintenance(_, ids, trajectory) =>
          SortedListIsSortedSet(ids, consumed);
          identical := identical && row.source.ByMaintenance? && row.source.trajectory == trajectory &&
                       Sort(TextSet(consumed)) == TextKeys(SortList(ids));
        case Operator(_, actor) =>
          identical := identical && row.source.ByOperator? && row.source.actor == actor;
      }
    }

    method InsertRevisionRow(input: Creation) returns (next: nat)
      modifies this`revisions, this`observations, this`active
      ensures next == MaxRevision(old(revisions).Keys) + 1
      ensures Snapshot() == InsertRevision(old(Snapshot()), input)
    {
      next := MaxRevision(revisions.Keys) + 1;
      revisions := revisions[next := RevisionRowOf(input)];
      if input.source.Maintenance? {
        observations := Consume(observations, input.source.extractionIds, next);
      }
      active := next;
    }

    /** The existing revision of an owner, compared with the request. */
    method FindReplay(owner: Owner, input: Creation) returns (existing: nat, identical: bool)
      requires OwnersUnique(revisions) && HasRevision(revisions, owner)
      ensures existing == RevisionOf(revisions, owner)
      ensures identical == SameRevision(revisions[existing], ConsumedBy(observations, existing), input)
    {
      hide SameRevision, ConsumedBy;
      existing :| existing in revisions && OwnerOfRevision(revisions[existing]) == owner;
      identical := IsIdentical(revisions[existing], ConsumedBy(observations, existing), input);
    }

    method CreateMemoryTreeRevision(input: Creation) returns (reply: Reply)
      requires Valid()
      modifies this`revisionPublications, this`revisions, this`observations, this`active
      ensures Valid()
      ensures Outcome(Snapshot(), reply) == CreateRevision(old(Snapshot()), input)
    {
      assert OwnersUnique(revisions);
      hide Inv, OwnersUnique, OtherRevisionSelected, RevisionConfirmed, CatalogSpec.CreateSelected, CreateRevision;
      CreateRevisionKeeps(Snapshot(), input);
      CreationUnfolds(Snapshot(), input);
      var before := revisionPublications;
      if OtherRevisionSelected(revisionPublications, input) {
        return Failed(DifferentRevisionSelected);
      }
      if !RevisionConfirmed(revisionPublications, input) {
        return Failed(RevisionConfirmationRequired);
      }
      revisionPublications := revisionPublications[RevisionKeyOf(input) := Publication(input, Selected)];
      assert Snapshot() == SelectRevision(old(Snapshot()), input);
      hide SelectRevision;
      reply := CreateSelected(input);
      if reply.Failed? {
        revisionPublications := before;
        assert Snapshot() == old(Snapshot());
      }
    }

    /** The statements of a creation after its publication has been marked selected. */
    method CreateSelected(input: Creation) returns (reply: Reply)
      requires OwnersUnique(revisions)
      modifies this`revisions, this`observations, this`active
      ensures Outcome(Snapshot(), reply) == CatalogSpec.CreateSelected(old(Snapshot()), input)
    {
      hide OwnersUnique, SameRevision, AllPending, HasRevision, InsertRevision, ConsumedBy;
      var owner := OwnerOf(input.source);
      if HasRevision(revisions, owner) {
        var existing, identical := FindReplay(owner, input);
        return if identical then RevisionCreated(false, existing, owner) else Failed(RevisionContentDiffers);
      }
      if input.source.Maintenance? && control.state != Enabled {
        return Failed(MaintenanceIsPaused);
      }
      if active != input.expectedActive {
        return Failed(ActiveRevisionMoved);
      }
      if input.source.Maintenance? && !AllPending(observations, input.source.extractionIds) {
        return Failed(ObservationsNotPending);
      }
      var next := InsertRevisionRow(input);
      return RevisionCreated(true, next, owner);
    }

    method RestoreMemoryTree(input: Restore) returns (reply: Reply)
      requires Valid()
      modifies this`restores, this`active
      ensures Valid()
      ensures Outcome(Snapshot(), reply) == RestoreTree(old(Snapshot()), input)
    {
      hide Inv;
      RestoreTreeKeeps(Snapshot(), input);
      var row := RestoreRow(input.expectedActive, input.restoredRevision, input.actor);
      if input.operationId in restores {
        if restores[input.operationId] != row {
          return Failed(RestoreContentDiffers);
        }
        return Restored(false, restores[input.operationId].restoredRevision, input.operationId);
      }
      if active != input.expectedActive {
        return Failed(ActiveRevisionMoved);
      }
      if input.restoredRevision !in revisions {
        return Failed(RestoredRevisionMissing);
      }
      restores := restores[input.operationId := row];
      active := input.restoredRevision;
      return Restored(true, input.restoredRevision, input.operationId);
    }

    method ChangeMaintenanceControl(input: ControlChange, now: int) returns (reply: Reply)
      requires Valid()
      modifies this`control, this`controlChanges
      ensures Valid()
      ensures Outcome(Snapshot(), reply) == ChangeControl(old(Snapshot()), input, now)
    {
      hide Inv, ChangeControl;
      ChangeControlKeeps(Snapshot(), input, now);
      ControlUnfolds(Snapshot(), input, now);
      if input.operationId in controlChanges {
        var row := controlChanges[input.operationId];
        if row.target != input.target || row.expectedGeneration != input.expectedGeneration || row.actor != input.actor {
          return Failed(ControlContentDiffers);
        }
        return ControlChanged(false, row.result);
      }
      if control.generation != input.expectedGeneration {
        return Failed(ControlGenerationMoved);
      }
      var expectedState := if input.target == Paused then Enabled else Paused;
      if control.state != expectedState {
        return Failed(ControlTransitionIllegal);
      }
      control := Control(input.target, control.generation + 1, input.actor, now);
      controlChanges := controlChanges[input.operationId :=
        ControlRow(input.target, input.expectedGeneration, input.actor, control)];
      return ControlChanged(true, control);
    }

    method GetMaintenanceInput(limit: nat) returns (reply: Reply)
      ensures Outcome(Snapshot(), reply) == GetInput(Snapshot(), limit)
    {
      var pending := OldestPending(observations, limit);
      if pending == [] {
        return Input(None);
      }
      return Input(Some(MaintenanceInput(active, ActiveTree(Snapshot()), ObservationView(observations, pending))));
    }
  }
}
