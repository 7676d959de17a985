/**
 * What the operations of the catalog mean, request by request and column by column: when each of them
 * commits, with what error it fails otherwise, and what the rows it writes hold.
 */
module CatalogMeaning {
  import opened Basics
  import opened CatalogTypes
  import opened CatalogSpec
  import opened CatalogInvariant
  import opened CatalogHistory
  import opened Ordering

  // ---- registering an extraction ----

  /** The publication of this registration, by extraction id and trajectory digest, in this state. */
  ghost predicate ExtractionHeld(rows: ExtractionRows, r: Registration, status: Status) {
    var key := ExtractionKey(r.extractionId, r.trajectory.digest);
    key in rows && rows[key].intent.registration == r && rows[key].status == status
  }

  ghost predicate AnotherSelected(rows: ExtractionRows, r: Registration) {
    exists k :: k in rows && k.id == r.extractionId && rows[k].status == Selected && rows[k].intent.registration != r
  }

  /**
   * A registration is decided by its publication alone: it commits exactly when that is confirmed and
   * none is selected yet, is recognised exactly when it is the selected one, and fails otherwise.
   */
  lemma RegistrationDecides(s: State, r: Registration, now: int)
    requires Inv(s)
    ensures var rows, reply := s.extractionPublications, RegisterExtraction(s, r, now).reply;
            (reply == Failed(DifferentExtractionSelected) <==> AnotherSelected(rows, r)) &&
            (reply == Registered(true) <==> ExtractionHeld(rows, r, Present) && !AnotherSelected(rows, r)) &&
            (reply == Registered(false) <==> ExtractionHeld(rows, r, Selected)) &&
            (reply == Failed(ExtractionConfirmationRequired) <==>
               !AnotherSelected(rows, r) && !ExtractionHeld(rows, r, Present) && !ExtractionHeld(rows, r, Selected))
  {
    hide RevisionLedger, RevisionNumbers, Consumption, RestoreLedger, ControlLedger, InsertExtraction, SelectExtraction;
    var rows := s.extractionPublications;
    if ExtractionHeld(rows, r, Selected) {
      var key := ExtractionKey(r.extractionId, r.trajectory.digest);
      assert SelectedExtraction(rows, key);
      forall k | k in rows && k.id == r.extractionId && rows[k].status == Selected ensures rows[k].intent.registration == r {
        assert SelectedExtraction(rows, k);
        SameContent(s.extractions[k.id], s.observations, rows[k].intent.registration, r);
      }
    }
    if r.extractionId in s.extractions && !AnotherSelected(rows, r) {
      var k := ExtractionKey(r.extractionId, s.extractions[r.extractionId].trajectory.digest);
      assert SelectedExtraction(rows, k) && rows[k].intent.registration == r;
    }
  }

  /** The extraction row and the observation row of a registration, column by column. */
  ghost predicate Stored(e: Extractions, o: Observations, r: Registration, now: int) {
    r.extractionId in e &&
    e[r.extractionId].sourceWorkflow == r.sourceWorkflow && e[r.extractionId].sourceRunId == r.sourceRunId &&
    e[r.extractionId].sourceUnitId == r.sourceUnitId && e[r.extractionId].bundleDigest == r.bundleDigest &&
    e[r.extractionId].trajectory == r.trajectory && e[r.extractionId].createdAt == now &&
    match r.observation
    case None => r.extractionId !in o
    case Some(body) =>
      r.extractionId in o && o[r.extractionId].body == body && o[r.extractionId].consumed == None &&
      o[r.extractionId].createdAt == now
  }

  /** Rows of other ids are what they were. */
  ghost predicate OthersUnchanged<V>(rows: map<string, V>, after: map<string, V>, id: string) {
    forall other :: other != id ==> (other in after <==> other in rows) && (other in rows ==> after[other] == rows[other])
  }

  /** The ledger, the extractions and the observations before and after a registration that commits. */
  ghost predicate NewlyStored(
    rows: ExtractionRows, e: Extractions, o: Observations, rows': ExtractionRows, e': Extractions, o': Observations,
    r: Registration, now: int)
  {
    var key := ExtractionKey(r.extractionId, r.trajectory.digest);
    r.extractionId !in e && r.extractionId !in o && Stored(e', o', r, now) &&
    OthersUnchanged(e, e', r.extractionId) && OthersUnchanged(o, o', r.extractionId) &&
    key in rows && rows' == rows[key := rows[key].(status := Selected)]
  }

  /** A registration that commits stores exactly what it brings and selects its publication. */
  lemma RegistrationStores(s: State, r: Registration, now: int)
    requires Inv(s) && RegisterExtraction(s, r, now).reply == Registered(true)
    ensures var t := RegisterExtraction(s, r, now).state;
            NewlyStored(s.extractionPublications, s.extractions, s.observations,
                        t.extractionPublications, t.extractions, t.observations, r, now)
  {
    assert s.observations.Keys <= s.extractions.Keys;
    hide Inv, OtherExtractionSelected, SameExtraction, RegisterExtraction, NewlyStored, ExtractionConfirmed, InsertExtraction,
         SelectExtraction;
    CommittedRegistration(s, r, now);
    RowsStored(s.extractionPublications, s.extractions, s.observations, r, now);
    InsertedTables(s, r, now);
  }

  lemma CommittedRegistration(s: State, r: Registration, now: int)
    requires RegisterExtraction(s, r, now).reply == Registered(true)
    ensures ExtractionConfirmed(s.extractionPublications, r) && r.extractionId !in s.extractions
    ensures RegisterExtraction(s, r, now).state == InsertExtraction(SelectExtraction(s, r), r, now)
  {
    hide OtherExtractionSelected, SameExtraction, ExtractionConfirmed, InsertExtraction, SelectExtraction;
  }

  lemma InsertedTables(s: State, r: Registration, now: int)
    requires ExtractionConfirmed(s.extractionPublications, r)
    ensures var t, key := InsertExtraction(SelectExtraction(s, r), r, now), ExtractionKeyOf(r);
            t.extractionPublications ==
              s.extractionPublications[key := s.extractionPublications[key].(status := Selected)] &&
            t.extractions == s.extractions[r.extractionId := ExtractionRowOf(r, now)] &&
            t.observations == WithObservation(s.observations, r, now)
  {
    hide ExtractionRowOf;
  }

  lemma RowsStored(rows: ExtractionRows, e: Extractions, o: Observations, r: Registration, now: int)
    requires ExtractionConfirmed(rows, r) && r.extractionId !in e && o.Keys <= e.Keys
    ensures NewlyStored(rows, e, o, rows[ExtractionKeyOf(r) := rows[ExtractionKeyOf(r)].(status := Selected)],
                        e[r.extractionId := ExtractionRowOf(r, now)], WithObservation(o, r, now), r, now)
  {
    assert r.extractionId !in o;
  }

  /** Reserving under a key that has no row, and confirming. */
  lemma FreshExtractionPublication(s: State, intent: ExtractionIntent)
    requires ExtractionKey(intent.registration.extractionId, intent.registration.trajectory.digest) !in s.extractionPublications
    ensures var key := ExtractionKey(intent.registration.extractionId, intent.registration.trajectory.digest);
            var reserved := ReserveExtraction(s, intent);
            var confirmed := ConfirmExtraction(reserved.state, intent);
            reserved == Outcome(s.(extractionPublications := s.extractionPublications[key := Publication(intent, Reserved)]),
                                ExtractionPublished(intent, Reserved)) &&
            confirmed == Outcome(s.(extractionPublications := s.extractionPublications[key := Publication(intent, Present)]),
                                 ExtractionPublished(intent, Present))
  {
    var key := ExtractionKey(intent.registration.extractionId, intent.registration.trajectory.digest);
    var rows := s.extractionPublications;
    assert rows[key := Publication(intent, Reserved)][key := Publication(intent, Present)] ==
           rows[key := Publication(intent, Present)];
  }

  /** A reservation finds or makes the publication's row, and a confirmation needs it. */
  lemma ExtractionPublicationAnswers(s: State, intent: ExtractionIntent, k: ExtractionKey)
    requires k == ExtractionKey(intent.registration.extractionId, intent.registration.trajectory.digest)
    ensures var rows, reserved, confirmed := s.extractionPublications, ReserveExtraction(s, intent), ConfirmExtraction(s, intent);
            (reserved.reply.Failed? <==> k in rows && rows[k].intent != intent) &&
            (confirmed.reply.Failed? <==> !(k in rows && rows[k].intent == intent)) &&
            (reserved.reply.ExtractionPublished? ==>
               reserved.reply.extractionIntent == intent &&
               reserved.reply.extractionStatus == (if k in rows then rows[k].status else Reserved) &&
               reserved.state == s.(extractionPublications := rows[k := Publication(intent, reserved.reply.extractionStatus)])) &&
            (confirmed.reply.ExtractionPublished? ==>
               confirmed.reply.extractionIntent == intent &&
               confirmed.reply.extractionStatus == (if rows[k].status == Selected then Selected else Present) &&
               confirmed.state == s.(extractionPublications := rows[k := Publication(intent, confirmed.reply.extractionStatus)]))
  {
    assert k == ExtractionKeyOf(intent.registration);
  }

  /**
   * Reserve, confirm and register in a row always succeed for an extraction that is not stored and a
   * trajectory that was not published for it, and store what was brought.
   */
  lemma FreshRegistrationCommits(s: State, intent: ExtractionIntent, now: int)
    requires Inv(s) && intent.registration.extractionId !in s.extractions
    requires ExtractionKey(intent.registration.extractionId, intent.registration.trajectory.digest) !in s.extractionPublications
    ensures var confirmed := ConfirmExtraction(ReserveExtraction(s, intent).state, intent).state;
            var out := RegisterExtraction(confirmed, intent.registration, now);
            out.reply == Registered(true) && Stored(out.state.extractions, out.state.observations, intent.registration, now) &&
            OthersUnchanged(s.extractions, out.state.extractions, intent.registration.extractionId) &&
            OthersUnchanged(s.observations, out.state.observations, intent.registration.extractionId)
  {
    var r := intent.registration;
    FreshExtractionPublication(s, intent);
    ReserveExtractionKeeps(s, intent);
    ConfirmExtractionKeeps(ReserveExtraction(s, intent).state, intent);
    hide ReserveExtraction, ConfirmExtraction;
    var confirmed := ConfirmExtraction(ReserveExtraction(s, intent).state, intent).state;
    NotSelected(confirmed, r);
    hide Inv, RegisterExtraction, Stored, OthersUnchanged;
    RegistrationDecides(confirmed, r, now);
    RegistrationStores(confirmed, r, now);
  }

  lemma NotSelected(s: State, r: Registration)
    requires Inv(s) && r.extractionId !in s.extractions
    ensures !AnotherSelected(s.extractionPublications, r)
  {
    hide RevisionLedger, RevisionNumbers, Consumption, RestoreLedger, ControlLedger;
    var rows := s.extractionPublications;
    assert forall k :: k in rows && rows[k].status == Selected ==> SelectedExtraction(rows, k);
  }

  // ---- creating a revision ----

  ghost predicate OwnedBy(owner: Owner, source: Source) {
    match source
    case Maintenance(id, _, _) => owner == MaintenanceOwner(id)
    case Operator(id, _) => owner == OperatorOwner(id)
  }

  ghost predicate RevisionHeld(rows: RevisionRows, c: Creation, status: Status) {
    exists k :: k in rows && HeldUnder(k, c) && rows[k] == Publication(c, status)
  }

  /** The key a creation is published under: its owner and the digests of what it stored. */
  ghost predicate HeldUnder(k: RevisionKey, c: Creation) {
    OwnedBy(k.owner, c.source) && k.treeDigest == c.tree.digest &&
    k.trajectoryDigest == match c.source case Maintenance(_, _, trajectory) => trajectory.digest case Operator(_, _) => ""
  }

  ghost predicate AnotherRevisionSelected(rows: RevisionRows, c: Creation) {
    exists k :: k in rows && OwnedBy(k.owner, c.source) && rows[k].status == Selected && rows[k].intent != c
  }

  /** Every requested observation is pending, and none is requested twice. */
  ghost predicate Available(o: Observations, source: Source) {
    match source
    case Maintenance(_, ids, _) =>
      (forall i :: 0 <= i < |ids| ==> ids[i] in o && o[ids[i]].consumed == None) &&
      forall i, j :: 0 <= i < j < |ids| ==> ids[i] != ids[j]
    case Operator(_, _) => true
  }

  ghost predicate StoppedByPause(control: Control, source: Source) {
    source.Maintenance? && control.state == Paused
  }

  /** The outcomes of a creation whose publication is confirmed and not selected. */
  ghost predicate DecidedByState(s: State, c: Creation, reply: Reply) {
    reply ==
      if StoppedByPause(s.control, c.source) then Failed(MaintenanceIsPaused)
      else if s.active != c.expectedActive then Failed(ActiveRevisionMoved)
      else if !Available(s.observations, c.source) then Failed(ObservationsNotPending)
      else
        RevisionCreated(true, |s.revisions| + 1,
                        match c.source case Maintenance(id, _, _) => MaintenanceOwner(id) case Operator(id, _) => OperatorOwner(id))
  }

  /**
   * A creation is decided by its publication, then by the state: it is recognised exactly when it is
   * the selected publication of its owner, and commits exactly when it is confirmed, no other is
   * selected, maintenance is not paused, the pointer is where it expects it and its observations are
   * available.
   */
  lemma CreationDecides(s: State, c: Creation)
    requires Inv(s)
    ensures CreationDecided(s, c, CreateRevision(s, c).reply)
  {
    hide Inv, CreateRevision, RevisionHeld, AnotherRevisionSelected, HasRevision, AllPending, Available, RevisionConfirmed,
         OtherRevisionSelected;
    CreationCases(s, c);
    HeldAtKey(s.revisionPublications, c);
    MaximumIsCount(s);
    AvailableMeansPending(s.observations, c);
    OwnerDecides(s, c);
    CreationContentAgrees(s, c);
  }

  ghost predicate CreationDecided(s: State, c: Creation, reply: Reply) {
    var rows := s.revisionPublications;
    (reply == Failed(DifferentRevisionSelected) <==> AnotherRevisionSelected(rows, c)) &&
    (reply == Failed(RevisionConfirmationRequired) <==>
       !AnotherRevisionSelected(rows, c) && !RevisionHeld(rows, c, Present) && !RevisionHeld(rows, c, Selected)) &&
    (reply.RevisionCreated? && !reply.created <==> RevisionHeld(rows, c, Selected)) &&
    (RevisionHeld(rows, c, Present) && !AnotherRevisionSelected(rows, c) ==> DecidedByState(s, c, reply))
  }

  lemma MaximumIsCount(s: State)
    requires Inv(s)
    ensures MaxRevision(s.revisions.Keys) == |s.revisions| && |s.revisions| + 1 !in s.revisions
  {
    hide ExtractionLedger, RevisionLedger, Consumption, RestoreLedger, ControlLedger, MaxRevision;
    RevisionNumbersGiveMaximum(s.revisions, s.active);
  }

  /** The checks of a creation in their order. */
  ghost predicate RepliesInOrder(s: State, c: Creation, reply: Reply) {
    if OtherRevisionSelected(s.revisionPublications, c) then reply == Failed(DifferentRevisionSelected)
    else if !RevisionConfirmed(s.revisionPublications, c) then reply == Failed(RevisionConfirmationRequired)
    else if HasRevision(s.revisions, OwnerOf(c.source)) then
      reply == Failed(RevisionContentDiffers) || (reply.RevisionCreated? && !reply.created)
    else if c.source.Maintenance? && s.control.state != Enabled then reply == Failed(MaintenanceIsPaused)
    else if s.active != c.expectedActive then reply == Failed(ActiveRevisionMoved)
    else if c.source.Maintenance? && !AllPending(s.observations, c.source.extractionIds) then
      reply == Failed(ObservationsNotPending)
    else reply == RevisionCreated(true, MaxRevision(s.revisions.Keys) + 1, OwnerOf(c.source))
  }

  lemma CreationCases(s: State, c: Creation)
    ensures RepliesInOrder(s, c, CreateRevision(s, c).reply)
  {
    hide OtherRevisionSelected, RevisionConfirmed, HasRevision, SameRevision, AllPending, InsertRevision, ConsumedBy, OwnerOf,
         MaxRevision;
    var t := SelectRevision(s, c);
    assert t.revisions == s.revisions && t.observations == s.observations && t.active == s.active && t.control == s.control;
    hide SelectRevision;
  }

  /** The lookups by key and owner find the publications meant. */
  lemma HeldAtKey(rows: RevisionRows, c: Creation)
    ensures RevisionConfirmed(rows, c) <==> RevisionHeld(rows, c, Present) || RevisionHeld(rows, c, Selected)
    ensures OtherRevisionSelected(rows, c) <==> AnotherRevisionSelected(rows, c)
    ensures !(RevisionHeld(rows, c, Present) && RevisionHeld(rows, c, Selected))
  {
    var key := RevisionKeyOf(c);
    assert forall k :: HeldUnder(k, c) <==> k == key;
    assert forall k: RevisionKey :: OwnedBy(k.owner, c.source) <==> k.owner == OwnerOf(c.source);
    if RevisionConfirmed(rows, c) {
      assert key in rows && HeldUnder(key, c) && rows[key] == Publication(c, rows[key].status);
    }
  }

  /** Under the invariant an owner has a revision exactly when one of its publications is selected. */
  lemma OwnerDecides(s: State, c: Creation)
    requires Inv(s)
    ensures RevisionHeld(s.revisionPublications, c, Selected) ==>
              HasRevision(s.revisions, OwnerOf(c.source)) && !AnotherRevisionSelected(s.revisionPublications, c)
    ensures HasRevision(s.revisions, OwnerOf(c.source)) && !AnotherRevisionSelected(s.revisionPublications, c) ==>
              RevisionHeld(s.revisionPublications, c, Selected)
  {
    hide ExtractionLedger, RevisionNumbers, Consumption, RestoreLedger, ControlLedger, SameRevision, ConsumedBy;
    var rows, v, key := s.revisionPublications, s.revisions, RevisionKeyOf(c);
    assert forall k :: HeldUnder(k, c) <==> k == key;
    if RevisionHeld(rows, c, Selected) {
      assert SelectedRevision(rows, key);
      var r :| PublishedAs(v, r, key);
      assert OwnerOfRevision(v[r]) == OwnerOf(c.source);
      forall k | k in rows && OwnedBy(k.owner, c.source) && rows[k].status == Selected ensures rows[k].intent == c {
        assert SelectedRevision(rows, k);
        OneRevisionSelected(s, k, key);
      }
    }
    if HasRevision(v, OwnerOf(c.source)) && !AnotherRevisionSelected(rows, c) {
      var r :| r in v && OwnerOfRevision(v[r]) == OwnerOf(c.source);
      var k := RowKey(v[r]);
      assert SelectedRevision(rows, k) && OwnedBy(k.owner, c.source) && rows[k].intent == c;
      assert k == key && rows[k] == Publication(c, Selected);
    }
  }

  lemma AvailableMeansPending(o: Observations, c: Creation)
    ensures Available(o, c.source) <==> (c.source.Maintenance? ==> AllPending(o, c.source.extractionIds))
  {
    if c.source.Maintenance? {
      var ids := c.source.extractionIds;
      DistinctCount(ids);
      if Available(o, c.source) {
        assert PendingAmong(o, ids) == Elements(ids);
      }
      if AllPending(o, ids) {
        AllPendingIsDistinct(o, ids);
        forall i | 0 <= i < |ids| ensures ids[i] in o && o[ids[i]].consumed == None {
          assert ids[i] in PendingAmong(o, ids);
        }
      }
    }
  }

  /** A revision row, column by column: it continues the revision that was active and holds the request. */
  ghost predicate Continues(row: Revision, active: nat, c: Creation) {
    row.predecessor == (if active == 0 then None else Some(active)) && row.tree == c.tree &&
    match c.source
    case Maintenance(id, _, trajectory) => row.source == ByMaintenance(id, trajectory)
    case Operator(id, actor) => row.source == ByOperator(id, actor)
  }

  /**
   * A creation that commits adds one revision, numbered next, that continues the active one and becomes
   * active; every other revision, and every table but the ledger and the observations, stays.
   */
  lemma CreationStores(s: State, c: Creation)
    requires Inv(s) && Committed(CreateRevision(s, c).reply)
    ensures var out := CreateRevision(s, c);
            out.reply.RevisionCreated? && out.reply.revision == |s.revisions| + 1 == out.state.active &&
            AddsOne(s.revisions, out.state.revisions, out.reply.revision, s.active, c) &&
            out.state == s.(revisions := out.state.revisions, active := out.state.active,
                            observations := out.state.observations, revisionPublications := out.state.revisionPublications)
  {
    hide Inv, CreateRevision, InsertRevision, SelectRevision, HasRevision, AllPending, RevisionConfirmed, Replayable, Consume,
         MaxRevision;
    MaximumIsCount(s);
    CreationFrame(s, c);
    CreatedTables(s, c);
  }

  /** The `i`-th operation of a run from installation created revision `r`, continuing what was active then. */
  ghost predicate CreatedAt(installedAt: int, ops: seq<Operation>, i: nat, r: nat, row: Revision) {
    i < |ops| && ops[i].OpCreate? &&
    var before := Run(InitialState(installedAt), ops[..i]);
    CreateRevision(before, ops[i].creation).reply.RevisionCreated? && CreateRevision(before, ops[i].creation).reply.created &&
    CreateRevision(before, ops[i].creation).reply.revision == r && Continues(row, before.active, ops[i].creation)
  }

  /**
   * Lineage follows the walk of the pointer: in every run each revision was made by one of its
   * operations, holds what that one requested, and has as predecessor the revision active just before.
   */
  lemma {:induction false} LineageFollowsPointer(installedAt: int, ops: seq<Operation>, r: nat)
    requires r in Run(InitialState(installedAt), ops).revisions
    ensures exists i: nat :: CreatedAt(installedAt, ops, i, r, Run(InitialState(installedAt), ops).revisions[r])
    decreases |ops|
  {
    hide Apply, CreateRevision, Continues, Inv;
    if ops != [] {
      var n := |ops| - 1;
      var front, last := ops[..n], ops[n];
      assert ops == front + [last];
      RunSnoc(InitialState(installedAt), front, last);
      var before := Run(InitialState(installedAt), front);
      InitialInv(installedAt);
      RunKeeps(InitialState(installedAt), front);
      LastOperation(before, last, r);
      if r in before.revisions {
        LineageFollowsPointer(installedAt, front, r);
        var i: nat :| CreatedAt(installedAt, front, i, r, before.revisions[r]);
        assert front[..i] == ops[..i];
        assert CreatedAt(installedAt, ops, i, r, before.revisions[r]);
      } else {
        assert CreatedAt(installedAt, ops, n, r, Run(InitialState(installedAt), ops).revisions[r]);
      }
    }
  }

  lemma LastOperation(before: State, op: Operation, r: nat)
    requires Inv(before) && r in Apply(before, op).state.revisions
    ensures r in before.revisions ==> Apply(before, op).state.revisions[r] == before.revisions[r]
    ensures r !in before.revisions ==>
              op.OpCreate? && CreateRevision(before, op.creation).reply.RevisionCreated? &&
              CreateRevision(before, op.creation).reply.created && CreateRevision(before, op.creation).reply.revision == r &&
              Continues(Apply(before, op).state.revisions[r], before.active, op.creation)
  {
    hide Inv, RegisterExtraction, CreateRevision, InputFor, RestoreTree, ChangeControl, Continues,
         ReserveExtraction, ConfirmExtraction, ReserveRevision, ConfirmRevision;
    match op
    case OpCreate(c) => LastCreation(before, c, r);
    case OpRegister(r, now) => RegistrationFrame(before, r, now);
    case OpReserveExtraction(intent) => ReserveExtractionFrame(before, intent);
    case OpConfirmExtraction(intent) => ConfirmExtractionFrame(before, intent);
    case OpReserveRevision(c) => ReserveRevisionFrame(before, c);
    case OpConfirmRevision(c) => ConfirmRevisionFrame(before, c);
    case OpRestore(o) => RestoreFrame(before, o);
    case OpControl(o, now) => ControlFrame(before, o, now);
    case OpGetInput(_) =>
  }

  /** One revision more, continuing the one that was active. */
  ghost predicate AddsOne(v: Revisions, after: Revisions, r: nat, active: nat, c: Creation) {
    r !in v && r in after && after == v[r := after[r]] && Continues(after[r], active, c)
  }

  lemma LastCreation(before: State, c: Creation, r: nat)
    requires Inv(before)
    ensures var out := CreateRevision(before, c);
            if out.reply.RevisionCreated? && out.reply.created then
              AddsOne(before.revisions, out.state.revisions, out.reply.revision, before.active, c)
            else out.state.revisions == before.revisions
  {
    hide Inv, CreateRevision, InsertRevision, SelectRevision, Continues, HasRevision, AllPending, RevisionConfirmed, Replayable;
    InsertedActive(before, c);
    CreationFrame(before, c);
    if Committed(CreateRevision(before, c).reply) {
      CreationStores(before, c);
      MaximumIsCount(before);
    }
  }

  // ---- the replies of the revision ledger ----

  /** What a publication says of a creation: everything but an operator's identity. */
  ghost predicate Discloses(source: PublicSource, c: Creation) {
    match c.source
    case Maintenance(id, ids, trajectory) => source == PublicMaintenance(id, ids, trajectory)
    case Operator(id, _) => source == PublicOperator(id)
  }

  /** A reservation finds or makes the publication's row, and a confirmation needs it. */
  lemma RevisionPublicationAnswers(s: State, c: Creation, k: RevisionKey)
    requires HeldUnder(k, c)
    ensures var rows, reserved, confirmed := s.revisionPublications, ReserveRevision(s, c), ConfirmRevision(s, c);
            (reserved.reply.Failed? <==> k in rows && rows[k].intent != c) &&
            (confirmed.reply.Failed? <==> !(k in rows && rows[k].intent == c)) &&
            (reserved.reply.RevisionPublished? ==>
               reserved.reply.expectedActive == c.expectedActive && reserved.reply.tree == c.tree &&
               Discloses(reserved.reply.source, c) &&
               reserved.reply.revisionStatus == (if k in rows then rows[k].status else Reserved) &&
               reserved.state == s.(revisionPublications := rows[k := Publication(c, reserved.reply.revisionStatus)])) &&
            (confirmed.reply.RevisionPublished? ==>
               confirmed.reply.expectedActive == c.expectedActive && confirmed.reply.tree == c.tree &&
               Discloses(confirmed.reply.source, c) &&
               confirmed.reply.revisionStatus == (if rows[k].status == Selected then Selected else Present) &&
               confirmed.state == s.(revisionPublications := rows[k := Publication(c, confirmed.reply.revisionStatus)]))
  {
    assert k == RevisionKeyOf(c);
  }

  // ---- restoring a tree, pausing and resuming ----

  /** The row of a restore, column by column. */
  ghost predicate RestoreHeld(rows: map<string, RestoreRow>, op: Restore) {
    op.operationId in rows && rows[op.operationId].expectedActive == op.expectedActive &&
    rows[op.operationId].restoredRevision == op.restoredRevision && rows[op.operationId].actor == op.actor
  }

  /**
   * A restore under a new id commits exactly when the pointer is where it expects it and one of the
   * revisions 1 to n is named; then the pointer is there and the row holds the request.
   */
  lemma RestoreDecides(s: State, op: Restore)
    requires Inv(s)
    ensures var out := RestoreTree(s, op);
            (out.reply.Restored? ==> out.reply == Restored(out.reply.created, op.restoredRevision, op.operationId)) &&
            (out.reply == Restored(true, op.restoredRevision, op.operationId) <==>
               op.operationId !in s.restores && s.active == op.expectedActive && 1 <= op.restoredRevision <= |s.revisions|) &&
            (out.reply == Failed(RestoreContentDiffers) <==> op.operationId in s.restores && !RestoreHeld(s.restores, op)) &&
            (out.reply == Restored(false, op.restoredRevision, op.operationId) <==> RestoreHeld(s.restores, op)) &&
            (out.reply == Failed(ActiveRevisionMoved) <==> op.operationId !in s.restores && s.active != op.expectedActive) &&
            (if Committed(out.reply) then
               RestoreHeld(out.state.restores, op) && OthersUnchanged(s.restores, out.state.restores, op.operationId) &&
               out.state == s.(active := op.restoredRevision, restores := out.state.restores)
             else out.state == s)
  {
    hide ExtractionLedger, RevisionLedger, Consumption, RestoreLedger, ControlLedger;
    RevisionNumbersGiveMaximum(s.revisions, s.active);
  }

  /** The row of a control change, column by column. */
  ghost predicate ControlHeld(rows: map<string, ControlRow>, op: ControlChange) {
    op.operationId in rows && rows[op.operationId].target == op.target &&
    rows[op.operationId].expectedGeneration == op.expectedGeneration && rows[op.operationId].actor == op.actor
  }

  /**
   * Under a new id and the current generation, pausing commits exactly when maintenance is enabled and
   * resuming exactly when it is paused; then the control is the target's, one generation on, with the
   * actor and time of the change.
   */
  lemma ControlDecides(s: State, op: ControlChange, now: int)
    requires Inv(s)
    ensures var out := ChangeControl(s, op, now);
            (Committed(out.reply) <==>
               op.operationId !in s.controlChanges && s.control.generation == op.expectedGeneration &&
               s.control.state != op.target) &&
            (out.reply == Failed(ControlContentDiffers) <==>
               op.operationId in s.controlChanges && !ControlHeld(s.controlChanges, op)) &&
            (out.reply.ControlChanged? && !out.reply.created <==> ControlHeld(s.controlChanges, op)) &&
            (ControlHeld(s.controlChanges, op) ==>
               out.reply == ControlChanged(false, s.controlChanges[op.operationId].result) &&
               out.reply.control.generation == op.expectedGeneration + 1) &&
            (out.reply == Failed(ControlGenerationMoved) <==>
               op.operationId !in s.controlChanges && s.control.generation != op.expectedGeneration) &&
            (if Committed(out.reply) then
               ControlHeld(out.state.controlChanges, op) &&
               OthersUnchanged(s.controlChanges, out.state.controlChanges, op.operationId) &&
               out.reply == ControlChanged(true, Control(op.target, s.control.generation + 1, op.actor, now)) &&
               out.state == s.(control := out.reply.control, controlChanges := out.state.controlChanges)
             else out.state == s)
  {
    hide ExtractionLedger, RevisionLedger, Consumption, RestoreLedger, RevisionNumbers;
  }

  // ---- the maintenance input ----

  /** The reference of the active tree, as a reader of the revision table finds it. */
  ghost predicate IsActiveTree(tree: Option<ArtifactReference>, s: State) {
    if s.active == 0 then tree == None else s.active in s.revisions && tree == Some(s.revisions[s.active].tree)
  }

  /** The pending observation is older than the other one, by time and then by id. */
  ghost predicate Older(o: Observations, a: string, b: string)
    requires a in o && b in o
  {
    o[a].createdAt < o[b].createdAt || (o[a].createdAt == o[b].createdAt && TextLess(a, b))
  }

  predicate IsPending(o: Observations, id: string) {
    id in o && o[id].consumed == None
  }

  /** The listed observations are pending, oldest first, and every other pending one is younger. */
  ghost predicate ListsOldest(q: seq<PendingObservation>, o: Observations, limit: nat) {
    |q| <= limit &&
    (forall i :: 0 <= i < |q| ==> IsPending(o, q[i].extractionId) && q[i].body == o[q[i].extractionId].body) &&
    (forall i, j :: 0 <= i < j < |q| ==> Older(o, q[i].extractionId, q[j].extractionId)) &&
    forall id :: IsPending(o, id) && (forall i :: 0 <= i < |q| ==> q[i].extractionId != id) ==>
      |q| == limit && forall i :: 0 <= i < |q| ==> Older(o, q[i].extractionId, id)
  }

  /** The input names the active revision and its tree and lists the oldest pending observations, if there are any. */
  lemma InputMeans(s: State, limit: nat)
    requires Inv(s)
    ensures match InputFor(s, limit)
            case None => limit == 0 || forall id :: !IsPending(s.observations, id)
            case Some(input) =>
              input.expectedActive == s.active && IsActiveTree(input.activeTree, s) && input.observations != [] &&
              ListsOldest(input.observations, s.observations, limit)
  {
    ListedAreOldest(s.observations, limit);
    ActiveTreeMeans(s);
    hide Inv, OldestPending, ActiveTree, ListsOldest, IsActiveTree, ObservationView;
    if InputFor(s, limit).None? && limit > 0 {
      NothingListed(s.observations, limit);
    }
  }

  lemma ActiveTreeMeans(s: State)
    requires Inv(s)
    ensures IsActiveTree(ActiveTree(s), s)
  {
    hide ExtractionLedger, RevisionLedger, Consumption, RestoreLedger, ControlLedger;
  }

  lemma NothingListed(o: Observations, limit: nat)
    requires limit > 0 && OldestPending(o, limit) == []
    ensures forall id :: !IsPending(o, id)
  {
    assert |PendingKeys(o)| == |Sort(PendingKeys(o))| == 0;
    assert forall id :: IsPending(o, id) ==> Key(o[id].createdAt, id) in PendingKeys(o);
  }

  /** The same of the keys that the rows are sorted by. */
  ghost predicate OldestKeys(q: seq<Key>, o: Observations, limit: nat) {
    |q| <= limit && (forall i :: 0 <= i < |q| ==> IsPending(o, q[i].id)) &&
    (forall i, j :: 0 <= i < j < |q| ==> Older(o, q[i].id, q[j].id)) &&
    forall id :: IsPending(o, id) && (forall i :: 0 <= i < |q| ==> q[i].id != id) ==>
      |q| == limit && forall i :: 0 <= i < |q| ==> Older(o, q[i].id, id)
  }

  lemma ListedAreOldest(o: Observations, limit: nat)
    ensures ListsOldest(ObservationView(o, OldestPending(o, limit)), o, limit)
  {
    KeysAreOldest(o, limit);
    hide OldestPending, OldestKeys, ObservationView;
    ViewLists(o, OldestPending(o, limit), limit);
  }

  lemma ViewLists(o: Observations, q: seq<Key>, limit: nat)
    requires OldestKeys(q, o, limit) && forall k :: k in q ==> k.id in o
    ensures ListsOldest(ObservationView(o, q), o, limit)
  {
    hide Older;
    var v := ObservationView(o, q);
    forall id | IsPending(o, id) && (forall i :: 0 <= i < |v| ==> v[i].extractionId != id)
      ensures |v| == limit && forall i :: 0 <= i < |v| ==> Older(o, v[i].extractionId, id)
    {
      forall i | 0 <= i < |q| ensures q[i].id != id {
        assert v[i].extractionId == q[i].id;
      }
    }
  }

  lemma KeysAreOldest(o: Observations, limit: nat)
    ensures OldestKeys(OldestPending(o, limit), o, limit)
  {
    hide OldestPending, Sort, OldestKeys;
    OldestFront(o, limit);
    FrontIsOldest(o, OldestPending(o, limit), Sort(PendingKeys(o)), limit);
  }

  /** The front of the pending keys' enumeration. */
  ghost predicate IsFront(o: Observations, q: seq<Key>, all: seq<Key>, limit: nat) {
    |q| <= |all| && |q| <= limit && (|q| < |all| ==> |q| == limit) &&
    (forall i :: 0 <= i < |q| ==> q[i] == all[i]) && (forall k :: k in PendingKeys(o) <==> k in all) &&
    forall i, j :: 0 <= i < j < |all| ==> Before(all[i], all[j])
  }

  lemma FrontIsOldest(o: Observations, q: seq<Key>, all: seq<Key>, limit: nat)
    requires IsFront(o, q, all, limit)
    ensures OldestKeys(q, o, limit)
  {
    hide Before, Older;
    forall i | 0 <= i < |q| ensures q[i] in PendingKeys(o) {
      assert all[i] in all;
    }
    forall i, j | 0 <= i < j < |q| ensures Older(o, q[i].id, q[j].id) {
      PendingOlder(o, q[i], q[j]);
    }
    forall id | IsPending(o, id) && (forall i :: 0 <= i < |q| ==> q[i].id != id)
      ensures |q| == limit && forall i :: 0 <= i < |q| ==> Older(o, q[i].id, id)
    {
      UnlistedIsYounger(o, q, all, id);
    }
  }

  lemma PendingOlder(o: Observations, a: Key, b: Key)
    requires a in PendingKeys(o) && b in PendingKeys(o) && Before(a, b)
    ensures Older(o, a.id, b.id)
  {
  }

  lemma SortAscends(keys: set<Key>)
    ensures forall i, j :: 0 <= i < j < |Sort(keys)| ==> Before(Sort(keys)[i], Sort(keys)[j])
  {
    hide Before, Sort;
    assert Ascending(Sort(keys));
  }

  lemma OldestFront(o: Observations, limit: nat)
    ensures IsFront(o, OldestPending(o, limit), Sort(PendingKeys(o)), limit)
  {
    hide Before, PendingKeys, Sort;
    var all := Sort(PendingKeys(o));
    SortAscends(PendingKeys(o));
    hide Ascending;
  }

  lemma UnlistedIsYounger(o: Observations, q: seq<Key>, all: seq<Key>, id: string)
    requires IsPending(o, id) && |q| <= |all| && forall i :: 0 <= i < |q| ==> q[i] == all[i] && q[i] in PendingKeys(o)
    requires forall k :: k in PendingKeys(o) ==> k in all
    requires forall i, j :: 0 <= i < j < |all| ==> Before(all[i], all[j])
    requires forall i :: 0 <= i < |q| ==> q[i].id != id
    ensures |q| < |all| && forall i :: 0 <= i < |q| ==> Older(o, q[i].id, id)
  {
    hide Before, Older;
    var k := Key(o[id].createdAt, id);
    assert k in PendingKeys(o);
    var j :| 0 <= j < |all| && all[j] == k;
    assert j >= |q|;
    forall i | 0 <= i < |q| ensures Older(o, q[i].id, id) {
      PendingOlder(o, q[i], k);
    }
  }

  /** After a committed creation the next input offers the tree it brought, under its revision. */
  lemma NextInputOffersTree(s: State, c: Creation, limit: nat)
    requires Inv(s) && Committed(CreateRevision(s, c).reply)
    ensures var t := CreateRevision(s, c).state;
            InputFor(t, limit).Some? ==>
              InputFor(t, limit).value.activeTree == Some(c.tree) && InputFor(t, limit).value.expectedActive == |s.revisions| + 1
  {
    CreationStores(s, c);
    CreateRevisionKeeps(s, c);
    hide Inv, CreateRevision, InputFor, ListsOldest;
    InputMeans(CreateRevision(s, c).state, limit);
  }
}
