/** What each lock protects while its holder is still running, and that committed operations respect it. */
module CatalogProtection {
  import opened CatalogTypes
  import opened CatalogSpec
  import opened CatalogInvariant
  import opened CatalogHistory
  import opened CatalogTransactions
  import opened Ordering

  ghost predicate SameRow<K, V>(rows: map<K, V>, after: map<K, V>, k: K) {
    (k in rows <==> k in after) && (k in rows ==> after[k] == rows[k])
  }

  /** The owner's selected rows, its extraction and its observation's body cannot change. */
  ghost predicate ExtractionOwnerKept(s: State, t: State, id: string) {
    (forall k: ExtractionKey | k.id == id ::
       (SelectedExtraction(s.extractionPublications, k) <==> SelectedExtraction(t.extractionPublications, k)) &&
       (SelectedExtraction(s.extractionPublications, k) ==> t.extractionPublications[k] == s.extractionPublications[k])) &&
    SameRow(s.extractions, t.extractions, id) &&
    (id in s.observations <==> id in t.observations) &&
    (id in s.observations ==> t.observations[id].body == s.observations[id].body)
  }

  ghost predicate SelectionKept(rows: RevisionRows, after: RevisionRows, owner: Owner) {
    forall k: RevisionKey | k.owner == owner ::
      (SelectedRevision(rows, k) <==> SelectedRevision(after, k)) &&
      (SelectedRevision(rows, k) ==> after[k] == rows[k])
  }

  ghost predicate RevisionOwnerKept(s: State, t: State, owner: Owner) {
    SelectionKept(s.revisionPublications, t.revisionPublications, owner) &&
    (HasRevision(s.revisions, owner) <==> HasRevision(t.revisions, owner))
  }

  ghost predicate TreeKept(s: State, t: State) {
    t.revisions == s.revisions && t.active == s.active && t.restores == s.restores &&
    RowsKept(s.observations, t.observations)
  }

  ghost predicate Protected(l: Lock, s: State, t: State) {
    match l
    case ExtractionOwnerLock(id) => ExtractionOwnerKept(s, t, id)
    case RevisionOwnerLock(owner) => RevisionOwnerKept(s, t, owner)
    case ExtractionRowLock(k) => SameRow(s.extractionPublications, t.extractionPublications, k)
    case RevisionRowLock(k) => SameRow(s.revisionPublications, t.revisionPublications, k)
    case ControlLock => t.control == s.control && t.controlChanges == s.controlChanges
    case TreeLock => TreeKept(s, t)
    case ObservationLock(id) => true // its holder also holds the tree lock
  }

  /** Locks that cover everything an operation can write. */
  function Covering(op: Operation): set<Lock> {
    match op
    case OpReserveExtraction(intent) => {ExtractionRowLock(ExtractionKeyOf(intent.registration))}
    case OpConfirmExtraction(intent) => {ExtractionRowLock(ExtractionKeyOf(intent.registration))}
    case OpRegister(r, _) => {ExtractionOwnerLock(r.extractionId), ExtractionRowLock(ExtractionKeyOf(r))}
    case OpReserveRevision(c) => {RevisionRowLock(RevisionKeyOf(c))}
    case OpConfirmRevision(c) => {RevisionRowLock(RevisionKeyOf(c))}
    case OpCreate(c) => {RevisionOwnerLock(OwnerOf(c.source)), RevisionRowLock(RevisionKeyOf(c)), TreeLock}
    case OpRestore(_) => {TreeLock}
    case OpControl(_, _) => {ControlLock}
    case OpGetInput(_) => {}
  }

  // ---- an operation changes nothing that another transaction's lock protects ----

  lemma ExtractionRowChange(s: State, rows: ExtractionRows, k: ExtractionKey, l: Lock)
    requires forall k' :: k' != k ==> SameRow(s.extractionPublications, rows, k')
    requires SelectedExtraction(s.extractionPublications, k) <==> SelectedExtraction(rows, k)
    requires SelectedExtraction(s.extractionPublications, k) ==> rows[k] == s.extractionPublications[k]
    requires l != ExtractionRowLock(k)
    ensures Protected(l, s, s.(extractionPublications := rows))
  {
    hide HasRevision;
    forall k' ensures (SelectedExtraction(s.extractionPublications, k') <==> SelectedExtraction(rows, k')) &&
                      (SelectedExtraction(s.extractionPublications, k') ==> rows[k'] == s.extractionPublications[k'])
    {
      if k' != k {
        assert SameRow(s.extractionPublications, rows, k');
      }
    }
  }

  lemma ReserveExtractionProtects(s: State, intent: ExtractionIntent, l: Lock)
    requires l !in Covering(OpReserveExtraction(intent))
    ensures Protected(l, s, ReserveExtraction(s, intent).state)
  {
    hide Protected;
    ReserveExtractionFrame(s, intent);
    var k := ExtractionKeyOf(intent.registration);
    ExtractionRowChange(s, ReserveExtraction(s, intent).state.extractionPublications, k, l);
  }

  lemma ConfirmExtractionProtects(s: State, intent: ExtractionIntent, l: Lock)
    requires l !in Covering(OpConfirmExtraction(intent))
    ensures Protected(l, s, ConfirmExtraction(s, intent).state)
  {
    hide Protected;
    ConfirmExtractionFrame(s, intent);
    var k := ExtractionKeyOf(intent.registration);
    ExtractionRowChange(s, ConfirmExtraction(s, intent).state.extractionPublications, k, l);
  }

  lemma RevisionRowChange(s: State, rows: RevisionRows, k: RevisionKey, l: Lock)
    requires forall k' :: k' != k ==> SameRow(s.revisionPublications, rows, k')
    requires SelectedRevision(s.revisionPublications, k) <==> SelectedRevision(rows, k)
    requires SelectedRevision(s.revisionPublications, k) ==> rows[k] == s.revisionPublications[k]
    requires l != RevisionRowLock(k)
    ensures Protected(l, s, s.(revisionPublications := rows))
  {
    hide HasRevision;
    forall k' ensures (SelectedRevision(s.revisionPublications, k') <==> SelectedRevision(rows, k')) &&
                      (SelectedRevision(s.revisionPublications, k') ==> rows[k'] == s.revisionPublications[k'])
    {
      if k' != k {
        assert SameRow(s.revisionPublications, rows, k');
      }
    }
  }

  lemma ReserveRevisionProtects(s: State, c: Creation, l: Lock)
    requires l !in Covering(OpReserveRevision(c))
    ensures Protected(l, s, ReserveRevision(s, c).state)
  {
    hide Protected;
    ReserveRevisionFrame(s, c);
    RevisionRowChange(s, ReserveRevision(s, c).state.revisionPublications, RevisionKeyOf(c), l);
  }

  lemma ConfirmRevisionProtects(s: State, c: Creation, l: Lock)
    requires l !in Covering(OpConfirmRevision(c))
    ensures Protected(l, s, ConfirmRevision(s, c).state)
  {
    hide Protected;
    ConfirmRevisionFrame(s, c);
    RevisionRowChange(s, ConfirmRevision(s, c).state.revisionPublications, RevisionKeyOf(c), l);
  }

  lemma NothingChanges(s: State, l: Lock)
    ensures Protected(l, s, s)
  {
    hide HasRevision;
  }

  lemma NewExtractionProtects(s: State, r: Registration, now: int, l: Lock)
    requires ExtractionConfirmed(s.extractionPublications, r)
    requires r.extractionId !in s.extractions && r.extractionId !in s.observations
    requires l !in Covering(OpRegister(r, now))
    ensures Protected(l, s, InsertExtraction(SelectExtraction(s, r), r, now))
  {
    hide HasRevision;
  }

  lemma RegisterProtects(s: State, r: Registration, now: int, l: Lock)
    requires Inv(s) && l !in Covering(OpRegister(r, now))
    ensures Protected(l, s, RegisterExtraction(s, r, now).state)
  {
    if r.extractionId in s.extractions {
      hide Inv, Protected;
      RegisterKnown(s, r, now);
      NothingChanges(s, l);
    } else {
      assert r.extractionId !in s.observations;
      hide Inv, Protected, InsertExtraction;
      if RegisterExtraction(s, r, now).reply.Failed? {
        NothingChanges(s, l);
      } else {
        NewExtractionProtects(s, r, now, l);
      }
    }
  }

  lemma OtherOwnersKeepRevisions(v: Revisions, next: nat, row: Revision, owner: Owner)
    requires next !in v && OwnerOfRevision(row) != owner
    ensures HasRevision(v, owner) <==> HasRevision(v[next := row], owner)
  {
    var v' := v[next := row];
    if HasRevision(v, owner) {
      var r :| r in v && OwnerOfRevision(v[r]) == owner;
      assert r in v' && OwnerOfRevision(v'[r]) == owner;
    }
  }

  lemma OtherOwnersKeepSelection(rows: RevisionRows, c: Creation, owner: Owner)
    requires owner != OwnerOf(c.source)
    ensures SelectionKept(rows, rows[RevisionKeyOf(c) := Publication(c, Selected)], owner)
  {
  }

  lemma NewRevisionKeepsOwner(s: State, c: Creation, owner: Owner)
    requires Inv(s) && owner != OwnerOf(c.source)
    ensures RevisionOwnerKept(s, InsertRevision(SelectRevision(s, c), c), owner)
  {
    hide Inv, InsertRevision, SelectRevision, HasRevision, SelectionKept, RevisionKeyOf, Consume;
    InsertedRevision(s, c);
    CreatedTables(s, c);
    OtherOwnersKeepSelection(s.revisionPublications, c, owner);
    OtherOwnersKeepRevisions(s.revisions, |s.revisions| + 1, RevisionRowOf(c), owner);
  }

  lemma NewRevisionKeepsExtractions(s: State, c: Creation, id: string)
    ensures ExtractionOwnerKept(s, InsertRevision(SelectRevision(s, c), c), id)
  {
    hide InsertRevision, SelectRevision, RevisionKeyOf;
    CreatedTables(s, c);
  }

  lemma NewRevisionProtects(s: State, c: Creation, l: Lock)
    requires Inv(s) && l !in Covering(OpCreate(c))
    ensures Protected(l, s, InsertRevision(SelectRevision(s, c), c))
  {
    hide Inv, InsertRevision, SelectRevision, RevisionOwnerKept, ExtractionOwnerKept, RevisionKeyOf, Consume;
    match l
    case RevisionOwnerLock(owner) => NewRevisionKeepsOwner(s, c, owner);
    case ExtractionOwnerLock(id) => NewRevisionKeepsExtractions(s, c, id);
    case _ => CreatedTables(s, c);
  }

  lemma CreateProtects(s: State, c: Creation, l: Lock)
    requires Inv(s) && l !in Covering(OpCreate(c))
    ensures Protected(l, s, CreateRevision(s, c).state)
  {
    hide Inv, Protected, InsertRevision, SelectRevision, AddsRevision;
    CreationFrame(s, c);
    NothingChanges(s, l);
    if Committed(CreateRevision(s, c).reply) {
      NewRevisionProtects(s, c, l);
    } else if CreateRevision(s, c).reply.RevisionCreated? {
      ReplaySelects(s, c);
    }
  }

  lemma RestoreProtects(s: State, o: Restore, l: Lock)
    requires l != TreeLock
    ensures Protected(l, s, RestoreTree(s, o).state)
  {
    hide HasRevision, RestoreTree;
    RestoreFrame(s, o);
  }

  lemma ControlProtects(s: State, o: ControlChange, now: int, l: Lock)
    requires l != ControlLock
    ensures Protected(l, s, ChangeControl(s, o, now).state)
  {
    hide HasRevision, ChangeControl;
    ControlFrame(s, o, now);
  }

  /** A committed operation changes nothing that a lock outside its covering set protects. */
  lemma CommitRespectsLocks(s: State, op: Operation, l: Lock)
    requires Inv(s) && l !in Covering(op)
    ensures Protected(l, s, Apply(s, op).state)
  {
    hide Inv, Protected, ReserveExtraction, ConfirmExtraction, RegisterExtraction, ReserveRevision, ConfirmRevision,
         CreateRevision, RestoreTree, ChangeControl, InputFor;
    match op
    case OpReserveExtraction(intent) => ReserveExtractionProtects(s, intent, l);
    case OpConfirmExtraction(intent) => ConfirmExtractionProtects(s, intent, l);
    case OpRegister(r, now) => RegisterProtects(s, r, now, l);
    case OpReserveRevision(c) => ReserveRevisionProtects(s, c, l);
    case OpConfirmRevision(c) => ConfirmRevisionProtects(s, c, l);
    case OpCreate(c) => CreateProtects(s, c, l);
    case OpRestore(o) => RestoreProtects(s, o, l);
    case OpControl(o, now) => ControlProtects(s, o, now, l);
    case OpGetInput(_) => NothingChanges(s, l);
  }

  // ---- and everything it leaves stays ----

  ghost predicate KeysGrow(s: State, t: State) {
    s.extractionPublications.Keys <= t.extractionPublications.Keys &&
    (forall k :: k in s.extractionPublications ==> t.extractionPublications[k].intent == s.extractionPublications[k].intent) &&
    s.revisionPublications.Keys <= t.revisionPublications.Keys &&
    (forall k :: k in s.revisionPublications ==> t.revisionPublications[k].intent == s.revisionPublications[k].intent)
  }

  lemma RegisterKeysGrow(s: State, r: Registration, now: int)
    ensures KeysGrow(s, RegisterExtraction(s, r, now).state)
  {
    RegistrationRows(s, r, now);
    hide RegisterExtraction, ExtractionConfirmed;
    if RegisterExtraction(s, r, now).state != s {
      assert ExtractionConfirmed(s.extractionPublications, r);
    }
  }

  lemma RegistrationRows(s: State, r: Registration, now: int)
    ensures var t := RegisterExtraction(s, r, now).state;
            t == s || (ExtractionConfirmed(s.extractionPublications, r) &&
                       t.extractionPublications == SelectExtraction(s, r).extractionPublications &&
                       t.revisionPublications == s.revisionPublications)
  {
    hide OtherExtractionSelected, SameExtraction, ExtractionConfirmed, SelectExtraction;
    SelectionKeepsRevisions(s, r);
  }

  lemma SelectionKeepsRevisions(s: State, r: Registration)
    ensures ExtractionConfirmed(s.extractionPublications, r) ==>
              SelectExtraction(s, r).revisionPublications == s.revisionPublications
  {
  }

  lemma CreateKeysGrow(s: State, c: Creation)
    ensures KeysGrow(s, CreateRevision(s, c).state)
  {
    CreationFrame(s, c);
    CreatedTables(s, c);
    if CreateRevision(s, c).reply.RevisionCreated? {
      assert RevisionConfirmed(s.revisionPublications, c);
    }
    hide CreateRevision, InsertRevision, AddsRevision, Consume;
  }

  lemma ApplyKeysGrow(s: State, op: Operation)
    ensures KeysGrow(s, Apply(s, op).state)
  {
    hide RegisterExtraction, CreateRevision, RestoreTree, ChangeControl, InputFor;
    match op
    case OpRegister(r, now) => RegisterKeysGrow(s, r, now);
    case OpCreate(c) => CreateKeysGrow(s, c);
    case OpReserveExtraction(intent) => ReserveExtractionFrame(s, intent);
    case OpConfirmExtraction(intent) => ConfirmExtractionFrame(s, intent);
    case OpReserveRevision(c) => ReserveRevisionFrame(s, c);
    case OpConfirmRevision(c) => ConfirmRevisionFrame(s, c);
    case OpRestore(o) => RestoreFrame(s, o);
    case OpControl(o, now) => ControlFrame(s, o, now);
    case OpGetInput(_) =>
  }
}
