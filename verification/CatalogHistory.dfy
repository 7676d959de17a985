/** What whole runs of the catalog keep: selection, replay, consumption, the pointer's walk, generations. */
module CatalogHistory {
  import opened Basics
  import opened CatalogTypes
  import opened CatalogSpec
  import opened CatalogInvariant
  import opened Ordering

  // ---- a selected publication is the authoritative row ----

  lemma SelectedExtractionIsStored(s: State, r: Registration)
    requires Inv(s)
    ensures StoredExactlyWhenSelected(s.extractionPublications, s.extractions, s.observations, r)
  {
    hide RevisionLedger, Consumption, ControlLedger, RevisionNumbers, RestoreLedger;
    if r.extractionId in s.extractions && SameExtraction(s.extractions[r.extractionId], s.observations, r) {
      var k := ExtractionKey(r.extractionId, s.extractions[r.extractionId].trajectory.digest);
      assert SelectedExtraction(s.extractionPublications, k);
      SameContent(s.extractions[r.extractionId], s.observations, s.extractionPublications[k].intent.registration, r);
    }
  }

  lemma SameContent(row: Extraction, o: Observations, a: Registration, b: Registration)
    requires a.extractionId == b.extractionId && SameExtraction(row, o, a) && SameExtraction(row, o, b)
    ensures a == b
  {
  }

  lemma OneExtractionSelected(s: State, k1: ExtractionKey, k2: ExtractionKey)
    requires Inv(s) && k1.id == k2.id
    requires SelectedExtraction(s.extractionPublications, k1) && SelectedExtraction(s.extractionPublications, k2)
    ensures k1 == k2
  {
    hide RevisionLedger, Consumption, ControlLedger, RevisionNumbers, RestoreLedger;
    SameContent(s.extractions[k1.id], s.observations,
                s.extractionPublications[k1].intent.registration, s.extractionPublications[k2].intent.registration);
  }

  lemma OneRevisionSelected(s: State, k1: RevisionKey, k2: RevisionKey)
    requires Inv(s) && k1.owner == k2.owner
    requires SelectedRevision(s.revisionPublications, k1) && SelectedRevision(s.revisionPublications, k2)
    ensures k1 == k2
  {
    hide ExtractionLedger, Consumption, ControlLedger, RevisionNumbers, RestoreLedger, RevisionsAreSelected;
    var r1 :| PublishedAs(s.revisions, r1, k1);
    var r2 :| PublishedAs(s.revisions, r2, k2);
    assert r1 == r2;
  }

  lemma SelectedRevisionIsStored(s: State, k: RevisionKey)
    requires Inv(s)
    ensures MadeExactlyWhenSelected(s.revisionPublications, s.revisions, s.observations, k)
  {
    hide ExtractionLedger, Consumption, ControlLedger, RevisionNumbers, RestoreLedger, SameRevision, ConsumedBy;
  }

  /**
   * Every reachable state has at most one selected publication for each owner; it is the one
   * whose content the authoritative row holds, and there is one exactly when there is a row.
   */
  lemma SelectionIsAuthoritative(s: State)
    requires Reachable(s)
    ensures ExtractionSelectionIsAuthoritative(s.extractionPublications, s.extractions, s.observations)
    ensures RevisionSelectionIsAuthoritative(s.revisionPublications, s.revisions, s.observations)
  {
    ReachableInv(s);
    hide *;
    forall k1, k2 | SelectedExtraction(s.extractionPublications, k1) &&
                    SelectedExtraction(s.extractionPublications, k2) && k1.id == k2.id ensures k1 == k2 {
      OneExtractionSelected(s, k1, k2);
    }
    forall r: Registration ensures StoredExactlyWhenSelected(s.extractionPublications, s.extractions, s.observations, r) {
      SelectedExtractionIsStored(s, r);
    }
    AuthoritativeExtractions(s.extractionPublications, s.extractions, s.observations);
    forall k1, k2 | SelectedRevision(s.revisionPublications, k1) &&
                    SelectedRevision(s.revisionPublications, k2) && k1.owner == k2.owner ensures k1 == k2 {
      OneRevisionSelected(s, k1, k2);
    }
    forall k ensures MadeExactlyWhenSelected(s.revisionPublications, s.revisions, s.observations, k) {
      SelectedRevisionIsStored(s, k);
    }
    AuthoritativeRevisions(s.revisionPublications, s.revisions, s.observations);
  }

  ghost predicate StoredExactlyWhenSelected(rows: ExtractionRows, e: Extractions, o: Observations, r: Registration) {
    (r.extractionId in e && SameExtraction(e[r.extractionId], o, r)) <==>
    (exists k :: SelectedExtraction(rows, k) && rows[k].intent.registration == r)
  }

  /** One selected publication for each extraction id, and it is selected exactly when the extraction is stored with its content. */
  ghost predicate ExtractionSelectionIsAuthoritative(rows: ExtractionRows, e: Extractions, o: Observations) {
    (forall k1, k2 | SelectedExtraction(rows, k1) && SelectedExtraction(rows, k2) && k1.id == k2.id :: k1 == k2) &&
    forall r: Registration :: StoredExactlyWhenSelected(rows, e, o, r)
  }

  ghost predicate MadeExactlyWhenSelected(rows: RevisionRows, v: Revisions, o: Observations, k: RevisionKey) {
    (SelectedRevision(rows, k) <==> exists r :: PublishedAs(v, r, k)) &&
    forall r :: PublishedAs(v, r, k) ==> SelectedRevision(rows, k) && SameRevision(v[r], ConsumedBy(o, r), rows[k].intent)
  }

  /** One selected publication for each owner, and it is selected exactly when its revision exists with its content. */
  ghost predicate RevisionSelectionIsAuthoritative(rows: RevisionRows, v: Revisions, o: Observations) {
    (forall k1, k2 | SelectedRevision(rows, k1) && SelectedRevision(rows, k2) && k1.owner == k2.owner :: k1 == k2) &&
    forall k :: MadeExactlyWhenSelected(rows, v, o, k)
  }

  lemma AuthoritativeExtractions(rows: ExtractionRows, e: Extractions, o: Observations)
    requires forall k1, k2 | SelectedExtraction(rows, k1) && SelectedExtraction(rows, k2) && k1.id == k2.id :: k1 == k2
    requires forall r: Registration :: StoredExactlyWhenSelected(rows, e, o, r)
    ensures ExtractionSelectionIsAuthoritative(rows, e, o)
  {
  }

  lemma AuthoritativeRevisions(rows: RevisionRows, v: Revisions, o: Observations)
    requires forall k1, k2 | SelectedRevision(rows, k1) && SelectedRevision(rows, k2) && k1.owner == k2.owner :: k1 == k2
    requires forall k :: MadeExactlyWhenSelected(rows, v, o, k)
    ensures RevisionSelectionIsAuthoritative(rows, v, o)
  {
  }

  /** Both "already exists with different content" branches that follow a selection are dead code. */
  lemma ContentNeverDiffersAfterSelection(s: State, r: Registration, now: int, c: Creation)
    requires Reachable(s)
    ensures RegisterExtraction(s, r, now).reply != Failed(ExtractionContentDiffers)
    ensures CreateRevision(s, c).reply != Failed(RevisionContentDiffers)
  {
    ReachableInv(s);
    RegistrationContentAgrees(s, r, now);
    CreationContentAgrees(s, c);
  }

  lemma RegistrationContentAgrees(s: State, r: Registration, now: int)
    requires Inv(s)
    ensures RegisterExtraction(s, r, now).reply != Failed(ExtractionContentDiffers)
  {
    hide RevisionLedger, Consumption, ControlLedger, RevisionNumbers, RestoreLedger;
    if r.extractionId in s.extractions && !OtherExtractionSelected(s.extractionPublications, r) {
      var k := ExtractionKey(r.extractionId, s.extractions[r.extractionId].trajectory.digest);
      assert SelectedExtraction(s.extractionPublications, k);
      assert s.extractionPublications[k].intent.registration == r;
    }
  }

  lemma CreationContentAgrees(s: State, c: Creation)
    requires Inv(s)
    ensures CreateRevision(s, c).reply != Failed(RevisionContentDiffers)
  {
    hide ExtractionLedger, Consumption, ControlLedger, RevisionNumbers, RestoreLedger, SameRevision, ConsumedBy;
    var owner := OwnerOf(c.source);
    if HasRevision(s.revisions, owner) && !OtherRevisionSelected(s.revisionPublications, c) {
      var r := RevisionOf(s.revisions, owner);
      var k := RowKey(s.revisions[r]);
      assert SelectedRevision(s.revisionPublications, k) && k.owner == owner;
      assert s.revisionPublications[k].intent == c;
    }
  }

  // ---- which tables an operation may write ----

  lemma ReserveExtractionFrame(s: State, intent: ExtractionIntent)
    ensures var out := ReserveExtraction(s, intent);
            out.state == s.(extractionPublications := out.state.extractionPublications) &&
            (out.reply.Failed? || out.reply.ExtractionPublished?)
  {
  }

  lemma ConfirmExtractionFrame(s: State, intent: ExtractionIntent)
    ensures var out := ConfirmExtraction(s, intent);
            out.state == s.(extractionPublications := out.state.extractionPublications) &&
            (out.reply.Failed? || out.reply.ExtractionPublished?)
  {
  }

  lemma RegistrationFrame(s: State, r: Registration, now: int)
    ensures var out := RegisterExtraction(s, r, now);
            out.state == s.(extractionPublications := out.state.extractionPublications,
                            extractions := out.state.extractions,
                            observations := out.state.observations) &&
            (out.reply.Failed? || out.reply.Registered?)
  {
    hide OtherExtractionSelected, SameExtraction, RegisterExtraction, ExtractionConfirmed;
    RegistrationCases(s, r, now);
  }

  lemma ReserveRevisionFrame(s: State, c: Creation)
    ensures var out := ReserveRevision(s, c);
            out.state == s.(revisionPublications := out.state.revisionPublications) &&
            (out.reply.Failed? || out.reply.RevisionPublished?)
  {
  }

  lemma ConfirmRevisionFrame(s: State, c: Creation)
    ensures var out := ConfirmRevision(s, c);
            out.state == s.(revisionPublications := out.state.revisionPublications) &&
            (out.reply.Failed? || out.reply.RevisionPublished?)
  {
  }

  lemma CreationTables(s: State, c: Creation)
    ensures var t := CreateRevision(s, c).state;
            t == s.(revisionPublications := t.revisionPublications, revisions := t.revisions,
                    observations := t.observations, active := t.active)
  {
    CreationFrame(s, c);
    hide CreateRevision, AddsRevision, Consume;
  }

  lemma RestoreFrame(s: State, op: Restore)
    ensures var out := RestoreTree(s, op);
            out.state == s.(restores := out.state.restores, active := out.state.active) &&
            (out.reply.Failed? || out.reply.Restored?)
  {
  }

  lemma ControlFrame(s: State, op: ControlChange, now: int)
    ensures var out := ChangeControl(s, op, now);
            out.state == s.(control := out.state.control, controlChanges := out.state.controlChanges) &&
            (out.reply.Failed? || out.reply.ControlChanged?)
  {
  }

  // ---- history only grows ----

  ghost predicate RevisionsKept(v: Revisions, o: Observations, v': Revisions, o': Observations) {
    forall r :: r in v ==> r in v' && v'[r] == v[r] && ConsumedBy(o', r) == ConsumedBy(o, r)
  }

  ghost predicate ExtractionSelectionsKept(rows: ExtractionRows, after: ExtractionRows) {
    forall k :: SelectedExtraction(rows, k) ==> k in after && after[k] == rows[k]
  }

  ghost predicate RevisionSelectionsKept(rows: RevisionRows, after: RevisionRows) {
    forall k :: SelectedRevision(rows, k) ==> k in after && after[k] == rows[k]
  }

  ghost predicate ObservationsKept(o: Observations, after: Observations) {
    forall id :: id in o ==>
      id in after && after[id].body == o[id].body && after[id].createdAt == o[id].createdAt &&
      (o[id].consumed.Some? ==> after[id] == o[id])
  }

  ghost predicate RowsKept<K, V>(rows: map<K, V>, after: map<K, V>) {
    forall k :: k in rows ==> k in after && after[k] == rows[k]
  }

  ghost predicate Extends(s: State, t: State) {
    RevisionsKept(s.revisions, s.observations, t.revisions, t.observations) &&
    ExtractionSelectionsKept(s.extractionPublications, t.extractionPublications) &&
    RevisionSelectionsKept(s.revisionPublications, t.revisionPublications) &&
    ObservationsKept(s.observations, t.observations) &&
    RowsKept(s.extractions, t.extractions) &&
    RowsKept(s.restores, t.restores) &&
    RowsKept(s.controlChanges, t.controlChanges)
  }

  lemma RegisterExtends(s: State, r: Registration, now: int)
    requires Inv(s)
    ensures Extends(s, RegisterExtraction(s, r, now).state)
  {
    assert s.observations.Keys <= s.extractions.Keys;
    hide Inv, ConsumedBy, RegisterExtraction, ExtractionSelectionsKept, ObservationsKept, RevisionSelectionsKept;
    RegistrationFrame(s, r, now);
    ExtendsItself(s);
    if r.extractionId in s.extractions {
      RegisterKnown(s, r, now);
      hide Extends;
    } else {
      RegisterNew(s, r, now);
    }
  }

  lemma RegisterKnown(s: State, r: Registration, now: int)
    requires Inv(s) && r.extractionId in s.extractions
    ensures RegisterExtraction(s, r, now).state == s
  {
    if RegisterExtraction(s, r, now).reply.Registered? {
      SelectedAgain(s, r);
    }
    hide Inv;
  }

  /** What a registration that finds no extraction does to the tables it may write. */
  ghost predicate NewlyRegistered(
    rows: ExtractionRows, e: Extractions, o: Observations, rows': ExtractionRows, e': Extractions, o': Observations)
  {
    (forall v: nat :: ConsumedBy(o', v) == ConsumedBy(o, v)) && ExtractionSelectionsKept(rows, rows') &&
    ObservationsKept(o, o') && RowsKept(e, e')
  }

  lemma RegisterNew(s: State, r: Registration, now: int)
    requires r.extractionId !in s.extractions && s.observations.Keys <= s.extractions.Keys
    ensures var t := RegisterExtraction(s, r, now).state;
            NewlyRegistered(s.extractionPublications, s.extractions, s.observations,
                            t.extractionPublications, t.extractions, t.observations)
  {
    hide OtherExtractionSelected, RegisterExtraction, NewlyRegistered, ExtractionConfirmed;
    RegistrationCases(s, r, now);
    NothingNew(s.extractionPublications, s.extractions, s.observations);
    if RegisterExtraction(s, r, now).reply.Registered? {
      RowsOfRegistration(s.extractionPublications, s.extractions, s.observations, r, now);
    }
  }

  lemma NothingNew(rows: ExtractionRows, e: Extractions, o: Observations)
    ensures NewlyRegistered(rows, e, o, rows, e, o)
  {
  }

  lemma RowsOfRegistration(rows: ExtractionRows, e: Extractions, o: Observations, r: Registration, now: int)
    requires ExtractionConfirmed(rows, r) && r.extractionId !in e && o.Keys <= e.Keys
    ensures NewlyRegistered(
              rows, e, o,
              rows[ExtractionKeyOf(r) := rows[ExtractionKeyOf(r)].(status := Selected)],
              e[r.extractionId := ExtractionRowOf(r, now)],
              WithObservation(o, r, now))
  {
    assert r.extractionId !in o;
    forall v: nat ensures ConsumedBy(WithObservation(o, r, now), v) == ConsumedBy(o, v) {
      if r.observation.Some? {
        NewObservation(o, r.extractionId, r.observation.value, now, v);
      }
    }
    hide ConsumedBy;
  }

  lemma CreateExtends(s: State, c: Creation)
    requires Inv(s)
    ensures Extends(s, CreateRevision(s, c).state)
  {
    CreationFrame(s, c);
    hide Inv, CreateRevision, AddsRevision, InsertRevision, SelectRevision, Extends;
    var out := CreateRevision(s, c);
    ExtendsItself(s);
    if out.reply.RevisionCreated? {
      if out.reply.created {
        CreatedExtends(s, c);
      } else {
        SelectRevisionAgain(s, c);
      }
    }
  }

  lemma ExtendsItself(s: State)
    ensures Extends(s, s)
  {
  }

  lemma SelectionKeepsSelections(rows: RevisionRows, c: Creation)
    requires RevisionConfirmed(rows, c)
    ensures RevisionSelectionsKept(rows, rows[RevisionKeyOf(c) := Publication(c, Selected)])
  {
  }

  lemma ConsumptionKeepsObservations(o: Observations, ids: seq<string>, next: nat)
    ensures ObservationsKept(o, Consume(o, ids, next))
  {
  }

  lemma CreatedRevisionsKept(s: State, c: Creation)
    requires Inv(s) && AddsRevision(s, c)
    ensures var t := InsertRevision(SelectRevision(s, c), c);
            RevisionsKept(s.revisions, s.observations, t.revisions, t.observations)
  {
    hide Inv, AddsRevision, ConsumedBy, Consume, InsertRevision, SelectRevision;
    var t := InsertRevision(SelectRevision(s, c), c);
    InsertedRevision(s, c);
    forall r | r in s.revisions ensures ConsumedBy(t.observations, r) == ConsumedBy(s.observations, r) {
      CreatedConsumption(s, c, r);
    }
  }

  lemma CreatedTables(s: State, c: Creation)
    ensures var t := InsertRevision(SelectRevision(s, c), c);
            var next := MaxRevision(s.revisions.Keys) + 1;
            t == s.(revisionPublications := s.revisionPublications[RevisionKeyOf(c) := Publication(c, Selected)],
                    revisions := s.revisions[next := RevisionRowOf(c)],
                    observations := if c.source.Maintenance? then Consume(s.observations, c.source.extractionIds, next)
                                    else s.observations,
                    active := next)
  {
    hide Consume;
  }

  lemma CreatedExtends(s: State, c: Creation)
    requires Inv(s) && AddsRevision(s, c)
    ensures Extends(s, InsertRevision(SelectRevision(s, c), c))
  {
    hide Inv, ConsumedBy, RevisionsKept, RevisionSelectionsKept, Consume, InsertRevision, SelectRevision,
         HasRevision, AllPending, RevisionConfirmed;
    CreatedRevisionsKept(s, c);
    SelectionKeepsSelections(s.revisionPublications, c);
    CreatedTables(s, c);
    if c.source.Maintenance? {
      ConsumptionKeepsObservations(s.observations, c.source.extractionIds, MaxRevision(s.revisions.Keys) + 1);
    }
  }

  lemma ApplyExtends(s: State, op: Operation)
    requires Inv(s)
    ensures Extends(s, Apply(s, op).state)
  {
    hide Inv, CreateRevision, RegisterExtraction, InputFor, ConsumedBy;
    match op
    case OpRegister(r, now) => RegisterExtends(s, r, now);
    case OpCreate(c) => CreateExtends(s, c);
    case OpReserveExtraction(intent) => ReserveExtractionExtends(s, intent);
    case OpConfirmExtraction(intent) => ConfirmExtractionExtends(s, intent);
    case OpReserveRevision(c) => ReserveRevisionExtends(s, c);
    case OpConfirmRevision(c) => ConfirmRevisionExtends(s, c);
    case OpRestore(o) => RestoreExtends(s, o);
    case OpControl(o, now) => ControlExtends(s, o, now);
    case OpGetInput(_) =>
  }

  lemma ReserveExtractionExtends(s: State, intent: ExtractionIntent)
    ensures Extends(s, ReserveExtraction(s, intent).state)
  {
    ReserveExtractionFrame(s, intent);
    hide ConsumedBy;
  }

  lemma ConfirmExtractionExtends(s: State, intent: ExtractionIntent)
    ensures Extends(s, ConfirmExtraction(s, intent).state)
  {
    ConfirmExtractionFrame(s, intent);
    hide ConsumedBy;
  }

  lemma ReserveRevisionExtends(s: State, c: Creation)
    ensures Extends(s, ReserveRevision(s, c).state)
  {
    ReserveRevisionFrame(s, c);
    hide ConsumedBy;
  }

  lemma ConfirmRevisionExtends(s: State, c: Creation)
    ensures Extends(s, ConfirmRevision(s, c).state)
  {
    ConfirmRevisionFrame(s, c);
    hide ConsumedBy;
  }

  lemma RestoreExtends(s: State, op: Restore)
    ensures Extends(s, RestoreTree(s, op).state)
  {
    RestoreFrame(s, op);
    hide ConsumedBy;
  }

  lemma ControlExtends(s: State, op: ControlChange, now: int)
    ensures Extends(s, ChangeControl(s, op, now).state)
  {
    ControlFrame(s, op, now);
    hide ConsumedBy;
  }

  lemma ExtendsTransitive(s: State, t: State, u: State)
    requires Extends(s, t) && Extends(t, u)
    ensures Extends(s, u)
  {
    hide ConsumedBy;
  }

  lemma {:induction false} RunExtends(s: State, ops: seq<Operation>)
    requires Inv(s)
    ensures Extends(s, Run(s, ops))
    decreases |ops|
  {
    if ops != [] {
      hide Inv;
      var t := Apply(s, ops[0]).state;
      ApplyKeeps(s, ops[0]);
      ApplyExtends(s, ops[0]);
      RunExtends(t, ops[1..]);
      ExtendsTransitive(s, t, Run(t, ops[1..]));
      hide Extends, Apply;
    } else {
      hide Inv;
    }
  }

  lemma {:induction false} RunSnoc(s: State, ops: seq<Operation>, op: Operation)
    ensures Run(s, ops + [op]) == Apply(Run(s, ops), op).state
    decreases |ops|
  {
    hide Apply;
    if ops == [] {
      assert Run(s, [op]) == Run(Apply(s, op).state, []);
    } else {
      assert (ops + [op])[1..] == ops[1..] + [op];
      RunSnoc(Apply(s, ops[0]).state, ops[1..], op);
    }
  }

  lemma {:induction false} RunSplit(s: State, ops: seq<Operation>, n: nat)
    requires n <= |ops|
    ensures Run(s, ops) == Run(Run(s, ops[..n]), ops[n..])
    decreases |ops|
  {
    hide Apply;
    if n > 0 {
      assert ops[..n][1..] == ops[1..][..n - 1] && ops[n..] == ops[1..][n - 1..];
      RunSplit(Apply(s, ops[0]).state, ops[1..], n - 1);
    } else {
      assert ops[0..] == ops;
    }
  }

  // ---- replay ----

  /** The reply a committed operation records, as a later repetition sees it. */
  function Replayed(reply: Reply): Reply {
    match reply
    case RevisionCreated(_, r, owner) => RevisionCreated(false, r, owner)
    case Restored(_, active, id) => Restored(false, active, id)
    case ControlChanged(_, control) => ControlChanged(false, control)
    case Registered(_) => Registered(false)
    case _ => reply
  }

  predicate Committed(reply: Reply) {
    match reply
    case RevisionCreated(created, _, _) => created
    case Restored(created, _, _) => created
    case ControlChanged(created, _) => created
    case Registered(created) => created
    case _ => false
  }

  ghost predicate CreationRecorded(s: State, c: Creation, r: nat) {
    var k := RevisionKeyOf(c);
    SelectedRevision(s.revisionPublications, k) && s.revisionPublications[k].intent == c &&
    PublishedAs(s.revisions, r, k)
  }

  lemma RecordedCreationReplays(s: State, c: Creation, r: nat)
    requires Inv(s) && CreationRecorded(s, c, r)
    ensures CreateRevision(s, c) == Outcome(s, RevisionCreated(false, r, OwnerOf(c.source)))
  {
    hide ExtractionLedger, Consumption, ControlLedger, RevisionNumbers, RestoreLedger, SameRevision, ConsumedBy;
    var owner := OwnerOf(c.source);
    var k := RevisionKeyOf(c);
    assert HasRevision(s.revisions, owner);
    assert RevisionOf(s.revisions, owner) == r;
    if OtherRevisionSelected(s.revisionPublications, c) {
      var k' :| k' in s.revisionPublications && k'.owner == owner &&
                s.revisionPublications[k'].status == Selected && s.revisionPublications[k'].intent != c;
      OneRevisionSelected(s, k, k');
    }
    CreationContentAgrees(s, c);
    SelectRevisionAgain(s, c);
  }

  lemma CreationIsRecorded(s: State, c: Creation)
    requires Inv(s) && RevisionMade(CreateRevision(s, c).reply)
    ensures CreationRecorded(CreateRevision(s, c).state, c, CreateRevision(s, c).reply.revision)
  {
    CreationFrame(s, c);
    hide Inv, CreateRevision, AddsRevision, CreationRecorded, InsertRevision, SelectRevision;
    InsertedIsRecorded(s, c);
  }

  lemma InsertedIsRecorded(s: State, c: Creation)
    ensures CreationRecorded(InsertRevision(SelectRevision(s, c), c), c, MaxRevision(s.revisions.Keys) + 1)
  {
    hide Consume;
  }

  lemma RegistrationReplays(s: State, r: Registration, now: int)
    requires Inv(s) && SelectedExtraction(s.extractionPublications, ExtractionKeyOf(r))
    requires s.extractionPublications[ExtractionKeyOf(r)].intent.registration == r
    ensures RegisterExtraction(s, r, now) == Outcome(s, Registered(false))
  {
    hide RevisionLedger, Consumption, ControlLedger, RevisionNumbers, RestoreLedger;
    if OtherExtractionSelected(s.extractionPublications, r) {
      var k :| k in s.extractionPublications && k.id == r.extractionId &&
               s.extractionPublications[k].status == Selected && s.extractionPublications[k].intent.registration != r;
      OneExtractionSelected(s, k, ExtractionKeyOf(r));
    }
    RegistrationContentAgrees(s, r, now);
    SelectedAgain(s, r);
  }

  /** The same request again, at whatever time. */
  predicate SameRequest(a: Operation, b: Operation) {
    match (a, b)
    case (OpRegister(r1, _), OpRegister(r2, _)) => r1 == r2
    case (OpControl(c1, _), OpControl(c2, _)) => c1 == c2
    case _ => a == b
  }

  lemma CreationReplays(s: State, c: Creation, t: State)
    requires Inv(s) && Inv(t) && Committed(CreateRevision(s, c).reply) && Extends(CreateRevision(s, c).state, t)
    ensures CreateRevision(t, c) == Outcome(t, Replayed(CreateRevision(s, c).reply))
  {
    CreationFrame(s, c);
    CreationIsRecorded(s, c);
    var s1 := CreateRevision(s, c).state;
    var r := CreateRevision(s, c).reply.revision;
    hide Inv, CreateRevision, InsertRevision, SelectRevision, AddsRevision;
    RevisionIsKept(s1, t, r);
    RecordedCreationReplays(t, c, r);
  }

  lemma RegistrationIsRecorded(s: State, r: Registration, now: int, t: State)
    requires Committed(RegisterExtraction(s, r, now).reply) && Extends(RegisterExtraction(s, r, now).state, t)
    ensures SelectedExtraction(t.extractionPublications, ExtractionKeyOf(r)) &&
            t.extractionPublications[ExtractionKeyOf(r)].intent.registration == r
    ensures Replayed(RegisterExtraction(s, r, now).reply) == Registered(false)
  {
    hide RevisionsKept, RevisionSelectionsKept, ObservationsKept, RowsKept, OtherExtractionSelected;
    assert SelectedExtraction(RegisterExtraction(s, r, now).state.extractionPublications, ExtractionKeyOf(r));
  }

  lemma ReplaysInExtension(s: State, op: Operation, t: State, again: Operation)
    requires Inv(s) && Inv(t) && Extends(Apply(s, op).state, t)
    requires Committed(Apply(s, op).reply) && SameRequest(op, again)
    ensures Apply(t, again) == Outcome(t, Replayed(Apply(s, op).reply))
  {
    hide Inv, Extends, RegisterExtraction, CreateRevision, RestoreTree, ChangeControl, InputFor, Replayed,
         ReserveExtraction, ConfirmExtraction, ReserveRevision, ConfirmRevision;
    match op
    case OpCreate(c) => CreationReplays(s, c, t);
    case OpRegister(r, now) =>
      RegistrationIsRecorded(s, r, now, t);
      RegistrationReplays(t, r, again.now);
    case OpRestore(o) => RestoreReplays(s, o, t);
    case OpControl(o, now) => ControlReplays(s, o, now, t, again.now);
    case _ => NeverCommits(s, op);
  }

  /**
   * Once a registration, creation, restore or control change has committed, repeating it after any
   * later operations answers with the recorded result and `created=false`, and changes nothing.
   */
  lemma ReplayIsIdempotent(s: State, op: Operation, later: seq<Operation>, again: Operation)
    requires Reachable(s) && Committed(Apply(s, op).reply) && SameRequest(op, again)
    ensures var t := Run(Apply(s, op).state, later);
            Apply(t, again) == Outcome(t, Replayed(Apply(s, op).reply))
  {
    ReachableInv(s);
    ApplyKeeps(s, op);
    var s1 := Apply(s, op).state;
    RunKeeps(s1, later);
    RunExtends(s1, later);
    hide *;
    ReplaysInExtension(s, op, Run(s1, later), again);
  }

  lemma NeverCommits(s: State, op: Operation)
    requires !op.OpCreate? && !op.OpRegister? && !op.OpRestore? && !op.OpControl?
    ensures !Committed(Apply(s, op).reply)
  {
    hide InputFor, CreateRevision, RegisterExtraction, RestoreTree, ChangeControl;
  }

  lemma RestoreReplays(s: State, op: Restore, t: State)
    requires Committed(RestoreTree(s, op).reply) && Extends(RestoreTree(s, op).state, t)
    ensures RestoreTree(t, op) == Outcome(t, Replayed(RestoreTree(s, op).reply))
  {
    hide RevisionsKept, ExtractionSelectionsKept, RevisionSelectionsKept, ObservationsKept;
    assert op.operationId in RestoreTree(s, op).state.restores;
  }

  lemma ControlReplays(s: State, op: ControlChange, now: int, t: State, later: int)
    requires Committed(ChangeControl(s, op, now).reply) && Extends(ChangeControl(s, op, now).state, t)
    ensures ChangeControl(t, op, later) == Outcome(t, Replayed(ChangeControl(s, op, now).reply))
  {
    hide RevisionsKept, ExtractionSelectionsKept, RevisionSelectionsKept, ObservationsKept;
    assert op.operationId in ChangeControl(s, op, now).state.controlChanges;
  }

  lemma RevisionIsKept(s: State, t: State, r: nat)
    requires RevisionsKept(s.revisions, s.observations, t.revisions, t.observations) && r in s.revisions
    ensures r in t.revisions && t.revisions[r] == s.revisions[r]
    ensures ConsumedBy(t.observations, r) == ConsumedBy(s.observations, r)
  {
  }

  // ---- consumption ----

  /** Once consumed, an observation belongs to that one revision in every later state. */
  lemma ConsumedForever(s: State, ops: seq<Operation>, id: string)
    requires Reachable(s) && id in s.observations && s.observations[id].consumed.Some?
    ensures id in Run(s, ops).observations && Run(s, ops).observations[id] == s.observations[id]
  {
    ReachableInv(s);
    RunExtends(s, ops);
    hide RevisionsKept, ExtractionSelectionsKept, RevisionSelectionsKept, RowsKept;
  }

  /**
   * A maintenance revision has consumed exactly the ids its selected intent lists, without
   * repetition; an operator revision has consumed nothing.
   */
  lemma RevisionConsumesItsIntent(s: State, r: nat)
    requires Reachable(s) && r in s.revisions
    ensures var k := RowKey(s.revisions[r]);
            SelectedRevision(s.revisionPublications, k) &&
            match s.revisionPublications[k].intent.source
            case Maintenance(_, ids, _) => Distinct(ids) && ConsumedBy(s.observations, r) == Elements(ids)
            case Operator(_, _) => ConsumedBy(s.observations, r) == {}
  {
    ReachableInv(s);
    hide ExtractionLedger, ControlLedger, RevisionNumbers, RestoreLedger;
    var k := RowKey(s.revisions[r]);
    assert SelectedRevision(s.revisionPublications, k);
  }

  /**
   * What one operation does to consumption: a maintenance creation moves exactly its listed ids
   * from pending to the new revision; every other operation consumes nothing.
   */
  lemma OperationConsumes(s: State, op: Operation, id: string)
    requires Inv(s) && id in s.observations
    ensures id in Apply(s, op).state.observations
    ensures ConsumptionStep(s.observations[id], Apply(s, op).state.observations[id], op, Apply(s, op).reply, id)
  {
    hide Inv, InsertRevision, RegisterExtraction, CreateRevision, InputFor, AddsRevision, RestoreTree, ChangeControl,
         ReserveExtraction, ConfirmExtraction, ReserveRevision, ConfirmRevision;
    match op
    case OpCreate(c) => CreationConsumes(s, c, id);
    case OpRegister(r, now) => RegistrationConsumesNothing(s, r, now);
    case OpReserveExtraction(intent) => ReserveExtractionFrame(s, intent);
    case OpConfirmExtraction(intent) => ConfirmExtractionFrame(s, intent);
    case OpReserveRevision(c) => ReserveRevisionFrame(s, c);
    case OpConfirmRevision(c) => ConfirmRevisionFrame(s, c);
    case OpRestore(o) => RestoreFrame(s, o);
    case OpControl(o, now) => ControlFrame(s, o, now);
    case OpGetInput(_) =>
  }

  /** One observation before and after an operation. */
  ghost predicate ConsumptionStep(before: Observation, after: Observation, op: Operation, reply: Reply, id: string) {
    if op.OpCreate? && op.creation.source.Maintenance? && RevisionMade(reply) && id in op.creation.source.extractionIds then
      before.consumed == None && after == before.(consumed := Some(reply.revision))
    else after == before
  }

  predicate RevisionMade(reply: Reply) {
    reply.RevisionCreated? && reply.created
  }

  lemma CreationConsumes(s: State, c: Creation, id: string)
    requires Inv(s) && id in s.observations
    ensures id in CreateRevision(s, c).state.observations
    ensures ConsumptionStep(s.observations[id], CreateRevision(s, c).state.observations[id], OpCreate(c),
                            CreateRevision(s, c).reply, id)
  {
    CreationFrame(s, c);
    hide Inv, CreateRevision, InsertRevision, AddsRevision;
    if RevisionMade(CreateRevision(s, c).reply) {
      CreatedConsumes(s, c, id);
    }
  }

  lemma CreatedConsumes(s: State, c: Creation, id: string)
    requires AddsRevision(s, c) && id in s.observations
    ensures id in InsertRevision(SelectRevision(s, c), c).observations
    ensures ConsumptionStep(s.observations[id], InsertRevision(SelectRevision(s, c), c).observations[id], OpCreate(c),
                            RevisionCreated(true, MaxRevision(s.revisions.Keys) + 1, OwnerOf(c.source)), id)
  {
    if c.source.Maintenance? && id in c.source.extractionIds {
      assert id in PendingAmong(s.observations, c.source.extractionIds);
    }
    hide AllPending, HasRevision, RevisionConfirmed, SelectRevision;
  }

  lemma RegistrationConsumesNothing(s: State, r: Registration, now: int)
    requires Inv(s)
    ensures forall id :: id in s.observations ==>
              id in RegisterExtraction(s, r, now).state.observations &&
              RegisterExtraction(s, r, now).state.observations[id] == s.observations[id]
  {
    if r.extractionId in s.extractions {
      RegisterKnown(s, r, now);
    } else {
      assert s.observations.Keys <= s.extractions.Keys;
      RegistersOnlyItself(s, r, now);
    }
    hide Inv, RegisterExtraction;
  }

  lemma RegistersOnlyItself(s: State, r: Registration, now: int)
    requires r.extractionId !in s.observations
    requires r.extractionId !in s.extractions
    ensures forall id :: id in s.observations ==>
              id in RegisterExtraction(s, r, now).state.observations &&
              RegisterExtraction(s, r, now).state.observations[id] == s.observations[id]
  {
    hide OtherExtractionSelected;
  }

  /**
   * A maintenance creation whose input has gone stale (the pointer moved, or an id it lists is
   * missing, consumed or repeated) changes nothing, unless it is a replay.
   */
  lemma StaleInputChangesNothing(s: State, c: Creation)
    requires Inv(s) && c.source.Maintenance?
    requires s.active != c.expectedActive || !Distinct(c.source.extractionIds) ||
             exists id :: id in c.source.extractionIds &&
                          !(id in s.observations && s.observations[id].consumed == None)
    ensures CreateRevision(s, c).state == s && !Committed(CreateRevision(s, c).reply)
  {
    hide Inv, CreateRevision, InsertRevision, SelectRevision, HasRevision;
    CreationFrame(s, c);
    var out := CreateRevision(s, c);
    if Committed(out.reply) {
      AllPendingIsDistinct(s.observations, c.source.extractionIds);
    } else if out.reply.RevisionCreated? {
      ReplaySelects(s, c);
    }
  }

  lemma ReplaySelects(s: State, c: Creation)
    requires Inv(s) && CreateRevision(s, c).reply.RevisionCreated? && !CreateRevision(s, c).reply.created
    ensures SelectRevision(s, c) == s
  {
    hide Inv, SameRevision, ConsumedBy;
    SelectRevisionAgain(s, c);
  }

  // ---- revision numbers and the pointer's walk ----

  /** A revision and its predecessors, newest first. */
  ghost function Lineage(revisions: Revisions, r: nat): (q: seq<nat>)
    requires Predecessors(revisions) && r in revisions
    requires forall m: nat :: m in revisions <==> 1 <= m <= |revisions|
    ensures |q| > 0 && q[0] == r && q[|q| - 1] == 1
    ensures forall i :: 0 <= i < |q| ==> q[i] in revisions
    ensures forall i :: 0 <= i < |q| - 1 ==> revisions[q[i]].predecessor == Some(q[i + 1]) && q[i + 1] < q[i]
    decreases r
  {
    match revisions[r].predecessor
    case None => [r]
    case Some(p) => [r] + Lineage(revisions, p)
  }

  /** Revisions are 1..n; only the first has no predecessor, and every lineage goes down to it. */
  ghost predicate Numbered(revisions: Revisions, active: nat) {
    (forall r: nat :: r in revisions <==> 1 <= r <= |revisions|) && Predecessors(revisions) &&
    (forall r :: r in revisions ==> (revisions[r].predecessor == None <==> r == 1)) &&
    (forall r :: r in revisions ==> var q := Lineage(revisions, r); q[|q| - 1] == 1) &&
    (active == 0 <==> |revisions| == 0) && (active != 0 ==> active in revisions)
  }

  lemma RevisionsAreNumbered(s: State)
    requires Reachable(s)
    ensures Numbered(s.revisions, s.active)
  {
    ReachableInv(s);
    NumbersAreNumbered(s.revisions, s.active);
    hide Inv, Numbered;
  }

  lemma NumbersAreNumbered(revisions: Revisions, active: nat)
    requires RevisionNumbers(revisions, active)
    ensures Numbered(revisions, active)
  {
  }

  datatype Move = Move(expected: nat, reached: nat)

  /** The pointer moves a run commits, in order. */
  function FirstMove(op: Operation, reply: Reply): seq<Move> {
    match (op, reply)
    case (OpCreate(c), RevisionCreated(true, r, _)) => [Move(c.expectedActive, r)]
    case (OpRestore(o), Restored(true, r, _)) => [Move(o.expectedActive, r)]
    case _ => []
  }

  ghost function Moves(s: State, ops: seq<Operation>): seq<Move>
    decreases |ops|
  {
    if ops == [] then []
    else FirstMove(ops[0], Apply(s, ops[0]).reply) + Moves(Apply(s, ops[0]).state, ops[1..])
  }

  ghost predicate Walk(from: nat, moves: seq<Move>, to: nat)
    decreases |moves|
  {
    if moves == [] then from == to
    else moves[0].expected == from && Walk(moves[0].reached, moves[1..], to)
  }

  /** Committed creations and restores form a walk of the active pointer: each one starts where the last one ended. */
  lemma {:induction false} PointerWalks(s: State, ops: seq<Operation>)
    requires Inv(s)
    ensures Walk(s.active, Moves(s, ops), Run(s, ops).active)
    decreases |ops|
  {
    hide Inv, Apply, PointerMoves;
    if ops != [] {
      var out := Apply(s, ops[0]);
      ApplyKeeps(s, ops[0]);
      PointerWalks(out.state, ops[1..]);
      PointerStep(s, ops[0]);
      WalkStep(s, ops[0], out, Moves(out.state, ops[1..]), Run(out.state, ops[1..]).active);
    }
  }

  lemma WalkStep(s: State, op: Operation, out: Outcome, rest: seq<Move>, to: nat)
    requires PointerMoves(s.active, s.revisions, op, out) && Walk(out.state.active, rest, to)
    ensures Walk(s.active, FirstMove(op, out.reply) + rest, to)
  {
    var moves := FirstMove(op, out.reply) + rest;
    if FirstMove(op, out.reply) != [] {
      assert moves[1..] == rest;
    } else {
      assert moves == rest;
    }
  }

  /** How one operation moves the pointer, and what it makes sure of first. */
  ghost predicate PointerMoves(active: nat, revisions: Revisions, op: Operation, out: Outcome) {
    match out.reply
    case RevisionCreated(true, r, _) =>
      op.OpCreate? && op.creation.expectedActive == active && out.state.active == r == |revisions| + 1
    case Restored(true, r, _) =>
      op.OpRestore? && op.restore.expectedActive == active && out.state.active == r && r in revisions
    case _ => out.state.active == active && out.state.revisions == revisions
  }

  lemma PointerStep(s: State, op: Operation)
    requires Inv(s)
    ensures PointerMoves(s.active, s.revisions, op, Apply(s, op))
  {
    hide Inv, RegisterExtraction, CreateRevision, InputFor, RestoreTree, ChangeControl,
         ReserveExtraction, ConfirmExtraction, ReserveRevision, ConfirmRevision;
    match op
    case OpCreate(c) => CreationMovesPointer(s, c);
    case OpRegister(r, now) => RegistrationFrame(s, r, now);
    case OpReserveExtraction(intent) => ReserveExtractionFrame(s, intent);
    case OpConfirmExtraction(intent) => ConfirmExtractionFrame(s, intent);
    case OpReserveRevision(c) => ReserveRevisionFrame(s, c);
    case OpConfirmRevision(c) => ConfirmRevisionFrame(s, c);
    case OpRestore(o) => RestoreMovesPointer(s, o);
    case OpControl(o, now) => ControlFrame(s, o, now);
    case OpGetInput(_) =>
  }

  lemma CreationMovesPointer(s: State, c: Creation)
    requires Inv(s)
    ensures PointerMoves(s.active, s.revisions, OpCreate(c), CreateRevision(s, c))
  {
    RevisionNumbersGiveMaximum(s.revisions, s.active);
    InsertedActive(s, c);
    CreationFrame(s, c);
    hide Inv, CreateRevision, InsertRevision, SelectRevision, HasRevision, AllPending, RevisionConfirmed, Replayable;
  }

  lemma InsertedActive(s: State, c: Creation)
    ensures InsertRevision(SelectRevision(s, c), c).active == MaxRevision(s.revisions.Keys) + 1
    ensures SelectRevision(s, c).active == s.active && SelectRevision(s, c).revisions == s.revisions
  {
    hide Consume;
  }

  lemma RestoreMovesPointer(s: State, op: Restore)
    ensures PointerMoves(s.active, s.revisions, OpRestore(op), RestoreTree(s, op))
  {
  }

  // ---- control generations ----

  ghost function ControlCommits(s: State, ops: seq<Operation>): nat
    decreases |ops|
  {
    if ops == [] then 0
    else
      var out := Apply(s, ops[0]);
      (if out.reply.ControlChanged? && out.reply.created then 1 else 0) + ControlCommits(out.state, ops[1..])
  }

  lemma GenerationStep(s: State, op: Operation)
    ensures var out := Apply(s, op);
            out.state.control.generation ==
            s.control.generation + (if out.reply.ControlChanged? && out.reply.created then 1 else 0)
  {
    hide RegisterExtraction, CreateRevision, InputFor, RestoreTree,
         ReserveExtraction, ConfirmExtraction, ReserveRevision, ConfirmRevision;
    match op
    case OpCreate(c) =>
      CreationTables(s, c);
      CreationFrame(s, c);
    case OpRegister(r, now) => RegistrationFrame(s, r, now);
    case OpReserveExtraction(intent) => ReserveExtractionFrame(s, intent);
    case OpConfirmExtraction(intent) => ConfirmExtractionFrame(s, intent);
    case OpReserveRevision(c) => ReserveRevisionFrame(s, c);
    case OpConfirmRevision(c) => ConfirmRevisionFrame(s, c);
    case OpRestore(o) => RestoreFrame(s, o);
    case OpControl(o, now) =>
    case OpGetInput(_) =>
  }

  lemma {:induction false} GenerationCountsCommits(s: State, ops: seq<Operation>)
    ensures Run(s, ops).control.generation == s.control.generation + ControlCommits(s, ops)
    decreases |ops|
  {
    if ops != [] {
      GenerationStep(s, ops[0]);
      hide Apply;
      GenerationCountsCommits(Apply(s, ops[0]).state, ops[1..]);
    }
  }

  /** From a fresh catalog, the generation is the number of committed changes and its parity is the state. */
  lemma ControlFollowsGeneration(installedAt: int, ops: seq<Operation>)
    ensures var t := Run(InitialState(installedAt), ops);
            t.control.generation == ControlCommits(InitialState(installedAt), ops) == |t.controlChanges| &&
            (t.control.state == Enabled <==> t.control.generation % 2 == 0)
  {
    GenerationCountsCommits(InitialState(installedAt), ops);
    RunKeeps(InitialState(installedAt), ops);
    hide ExtractionLedger, RevisionLedger, Consumption, RevisionNumbers, RestoreLedger;
  }
}
