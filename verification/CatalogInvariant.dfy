/** What holds of the catalog's tables in every reachable state. */
module CatalogInvariant {
  import opened Basics
  import opened CatalogTypes
  import opened CatalogSpec
  import opened Ordering

  type Extractions = map<string, Extraction>
  type Observations = map<string, Observation>
  type Revisions = map<nat, Revision>

  // ---- the extraction ledger against the authoritative extractions ----

  ghost predicate ExtractionKeysAgree(rows: ExtractionRows) {
    forall k :: k in rows ==> k == ExtractionKeyOf(rows[k].intent.registration)
  }

  ghost predicate SelectedExtraction(rows: ExtractionRows, k: ExtractionKey) {
    k in rows && rows[k].status == Selected
  }

  ghost predicate SelectedHaveExtraction(rows: ExtractionRows, extractions: Extractions, observations: Observations) {
    forall k :: SelectedExtraction(rows, k) ==>
      k.id in extractions && SameExtraction(extractions[k.id], observations, rows[k].intent.registration)
  }

  ghost predicate ExtractionsAreSelected(rows: ExtractionRows, extractions: Extractions) {
    forall id :: id in extractions ==> SelectedExtraction(rows, ExtractionKey(id, extractions[id].trajectory.digest))
  }

  ghost predicate ExtractionLedger(rows: ExtractionRows, extractions: Extractions, observations: Observations) {
    ExtractionKeysAgree(rows) &&
    SelectedHaveExtraction(rows, extractions, observations) &&
    ExtractionsAreSelected(rows, extractions) &&
    observations.Keys <= extractions.Keys
  }

  // ---- the revision ledger against the authoritative revisions ----

  ghost predicate RevisionKeysAgree(rows: RevisionRows) {
    forall k :: k in rows ==> k == RevisionKeyOf(rows[k].intent)
  }

  /** The unique maintenance and operation ids. */
  ghost predicate OwnersUnique(revisions: Revisions) {
    forall r1, r2 | r1 in revisions && r2 in revisions ::
      OwnerOfRevision(revisions[r1]) == OwnerOfRevision(revisions[r2]) ==> r1 == r2
  }

  ghost predicate SelectedRevision(rows: RevisionRows, k: RevisionKey) {
    k in rows && rows[k].status == Selected
  }

  /** The ledger key a revision row was published under. */
  function RowKey(row: Revision): RevisionKey {
    RevisionKey(OwnerOfRevision(row), row.tree.digest,
                if row.source.ByMaintenance? then row.source.trajectory.digest else "")
  }

  ghost predicate PublishedAs(revisions: Revisions, r: nat, k: RevisionKey) {
    r in revisions && RowKey(revisions[r]) == k
  }

  ghost predicate SelectedHaveRevision(rows: RevisionRows, revisions: Revisions) {
    forall k :: SelectedRevision(rows, k) ==> exists r :: PublishedAs(revisions, r, k)
  }

  ghost predicate RevisionsAreSelected(rows: RevisionRows, revisions: Revisions, observations: Observations) {
    forall r :: r in revisions ==>
      SelectedRevision(rows, RowKey(revisions[r])) &&
      SameRevision(revisions[r], ConsumedBy(observations, r), rows[RowKey(revisions[r])].intent)
  }

  ghost predicate RevisionLedger(rows: RevisionRows, revisions: Revisions, observations: Observations) {
    RevisionKeysAgree(rows) &&
    OwnersUnique(revisions) &&
    SelectedHaveRevision(rows, revisions) &&
    RevisionsAreSelected(rows, revisions, observations)
  }

  // ---- numbering, consumption, pointer and the two operation ledgers ----

  ghost predicate Predecessors(revisions: Revisions) {
    forall r :: r in revisions ==>
      match revisions[r].predecessor
      case None => r == 1
      case Some(p) => 1 <= p < r
  }

  ghost predicate RevisionNumbers(revisions: Revisions, active: nat) {
    (forall r: nat :: r in revisions <==> 1 <= r <= |revisions|) &&
    Predecessors(revisions) &&
    active <= |revisions| &&
    (active == 0 <==> |revisions| == 0)
  }

  ghost predicate Consumption(observations: Observations, revisions: Revisions) {
    forall id :: id in observations && observations[id].consumed.Some? ==>
      var r := observations[id].consumed.value;
      r in revisions && revisions[r].source.ByMaintenance?
  }

  ghost predicate RestoreLedger(restores: map<string, RestoreRow>, revisions: Revisions) {
    forall op :: op in restores ==>
      restores[op].restoredRevision in revisions && restores[op].expectedActive in revisions
  }

  function StateAt(generation: nat): ControlState {
    if generation % 2 == 0 then Enabled else Paused
  }

  ghost predicate ControlRowSound(row: ControlRow, generation: nat) {
    row.result.generation == row.expectedGeneration + 1 <= generation &&
    row.result.state == row.target == StateAt(row.result.generation) &&
    row.result.changedBy == row.actor
  }

  ghost predicate ControlLedger(control: Control, changes: map<string, ControlRow>) {
    control.generation == |changes| &&
    control.state == StateAt(control.generation) &&
    (forall op :: op in changes ==> ControlRowSound(changes[op], control.generation)) &&
    (forall a, b | a in changes && b in changes ::
       changes[a].result.generation == changes[b].result.generation ==> a == b)
  }

  ghost predicate Inv(s: State) {
    ExtractionLedger(s.extractionPublications, s.extractions, s.observations) &&
    RevisionLedger(s.revisionPublications, s.revisions, s.observations) &&
    RevisionNumbers(s.revisions, s.active) &&
    Consumption(s.observations, s.revisions) &&
    RestoreLedger(s.restores, s.revisions) &&
    ControlLedger(s.control, s.controlChanges)
  }

  // ---- writing one ledger row without changing what is selected ----

  lemma ExtractionRowWritten(rows: ExtractionRows, intent: ExtractionIntent, status: Status, e: Extractions, o: Observations)
    requires ExtractionLedger(rows, e, o)
    requires var k := ExtractionKeyOf(intent.registration);
             if k in rows then rows[k].intent == intent && (rows[k].status == Selected <==> status == Selected)
             else status != Selected
    ensures ExtractionLedger(rows[ExtractionKeyOf(intent.registration) := Publication(intent, status)], e, o)
  {
    var after := rows[ExtractionKeyOf(intent.registration) := Publication(intent, status)];
    assert forall k :: SelectedExtraction(rows, k) <==> SelectedExtraction(after, k);
  }

  lemma RevisionRowWritten(rows: RevisionRows, c: Creation, status: Status, v: Revisions, o: Observations)
    requires RevisionLedger(rows, v, o)
    requires var k := RevisionKeyOf(c);
             if k in rows then rows[k].intent == c && (rows[k].status == Selected <==> status == Selected)
             else status != Selected
    ensures RevisionLedger(rows[RevisionKeyOf(c) := Publication(c, status)], v, o)
  {
    var after := rows[RevisionKeyOf(c) := Publication(c, status)];
    assert forall k :: SelectedRevision(rows, k) <==> SelectedRevision(after, k);
  }

  lemma ReserveExtractionKeeps(s: State, intent: ExtractionIntent)
    requires Inv(s)
    ensures Inv(ReserveExtraction(s, intent).state)
  {
    hide ExtractionLedger, RevisionLedger, Consumption, ControlLedger, RevisionNumbers, RestoreLedger;
    if ExtractionKeyOf(intent.registration) !in s.extractionPublications {
      ExtractionRowWritten(s.extractionPublications, intent, Reserved, s.extractions, s.observations);
    }
  }

  lemma ConfirmExtractionKeeps(s: State, intent: ExtractionIntent)
    requires Inv(s)
    ensures Inv(ConfirmExtraction(s, intent).state)
  {
    hide ExtractionLedger, RevisionLedger, Consumption, ControlLedger, RevisionNumbers, RestoreLedger;
    var out := ConfirmExtraction(s, intent);
    if out.reply.ExtractionPublished? {
      ExtractionRowWritten(s.extractionPublications, intent, out.reply.extractionStatus, s.extractions, s.observations);
    }
  }

  lemma ReserveRevisionKeeps(s: State, c: Creation)
    requires Inv(s)
    ensures Inv(ReserveRevision(s, c).state)
  {
    hide ExtractionLedger, RevisionLedger, Consumption, ControlLedger, RevisionNumbers, RestoreLedger;
    if RevisionKeyOf(c) !in s.revisionPublications {
      RevisionRowWritten(s.revisionPublications, c, Reserved, s.revisions, s.observations);
    }
  }

  lemma ConfirmRevisionKeeps(s: State, c: Creation)
    requires Inv(s)
    ensures Inv(ConfirmRevision(s, c).state)
  {
    hide ExtractionLedger, RevisionLedger, Consumption, ControlLedger, RevisionNumbers, RestoreLedger;
    var out := ConfirmRevision(s, c);
    if out.reply.RevisionPublished? {
      RevisionRowWritten(s.revisionPublications, c, out.reply.revisionStatus, s.revisions, s.observations);
    }
  }

  // ---- registration ----

  lemma SelectedAgain(s: State, r: Registration)
    requires Inv(s) && ExtractionConfirmed(s.extractionPublications, r)
    requires r.extractionId in s.extractions && SameExtraction(s.extractions[r.extractionId], s.observations, r)
    ensures SelectedExtraction(s.extractionPublications, ExtractionKeyOf(r)) && SelectExtraction(s, r) == s
  {
    assert SelectedExtraction(s.extractionPublications, ExtractionKey(r.extractionId, s.extractions[r.extractionId].trajectory.digest));
    assert SelectExtraction(s, r).extractionPublications == s.extractionPublications;
  }

  /** The observation table gains at most the registered row; nobody has consumed it. */
  lemma NewObservation(o: Observations, id: string, body: string, now: int, revision: nat)
    requires id !in o
    ensures ConsumedBy(o[id := Observation(body, None, now)], revision) == ConsumedBy(o, revision)
  {
  }

  lemma NewExtractionLedger(s: State, r: Registration, now: int)
    requires Inv(s) && ExtractionConfirmed(s.extractionPublications, r)
    requires !OtherExtractionSelected(s.extractionPublications, r) && r.extractionId !in s.extractions
    ensures var t := InsertExtraction(SelectExtraction(s, r), r, now);
            ExtractionLedger(t.extractionPublications, t.extractions, t.observations)
  {
    LedgerGains(s.extractionPublications, s.extractions, s.observations, r, now);
    hide Inv, ExtractionLedger, OtherExtractionSelected;
  }

  function WithObservation(o: Observations, r: Registration, now: int): Observations {
    match r.observation
    case None => o
    case Some(body) => o[r.extractionId := Observation(body, None, now)]
  }

  lemma LedgerGains(rows: ExtractionRows, e: Extractions, o: Observations, r: Registration, now: int)
    requires ExtractionLedger(rows, e, o) && ExtractionConfirmed(rows, r)
    requires !OtherExtractionSelected(rows, r) && r.extractionId !in e
    ensures ExtractionLedger(
              rows[ExtractionKeyOf(r) := rows[ExtractionKeyOf(r)].(status := Selected)],
              e[r.extractionId := ExtractionRowOf(r, now)],
              WithObservation(o, r, now))
  {
    var rows' := rows[ExtractionKeyOf(r) := rows[ExtractionKeyOf(r)].(status := Selected)];
    var e' := e[r.extractionId := ExtractionRowOf(r, now)];
    var o' := WithObservation(o, r, now);
    forall k | SelectedExtraction(rows', k)
      ensures k.id in e' && SameExtraction(e'[k.id], o', rows'[k].intent.registration)
    {
      if k != ExtractionKeyOf(r) {
        assert SelectedExtraction(rows, k);
        assert k.id != r.extractionId;
        OtherObservation(o, r, now, e[k.id], rows[k].intent.registration);
      }
    }
    forall id | id in e' ensures SelectedExtraction(rows', ExtractionKey(id, e'[id].trajectory.digest)) {
      if id in e {
        assert SelectedExtraction(rows, ExtractionKey(id, e[id].trajectory.digest));
      }
    }
    hide SelectedHaveExtraction, ExtractionsAreSelected, SameExtraction, OtherExtractionSelected;
    assert SelectedHaveExtraction(rows', e', o') by { HaveExtractions(rows', e', o'); }
    assert ExtractionsAreSelected(rows', e') by { AreSelected(rows', e'); }
  }

  lemma OtherObservation(o: Observations, r: Registration, now: int, row: Extraction, other: Registration)
    requires other.extractionId != r.extractionId && SameExtraction(row, o, other)
    ensures SameExtraction(row, WithObservation(o, r, now), other)
  {
  }

  lemma HaveExtractions(rows: ExtractionRows, e: Extractions, o: Observations)
    requires forall k :: SelectedExtraction(rows, k) ==>
               k.id in e && SameExtraction(e[k.id], o, rows[k].intent.registration)
    ensures SelectedHaveExtraction(rows, e, o)
  {
  }

  lemma AreSelected(rows: ExtractionRows, e: Extractions)
    requires forall id :: id in e ==> SelectedExtraction(rows, ExtractionKey(id, e[id].trajectory.digest))
    ensures ExtractionsAreSelected(rows, e)
  {
  }

  lemma NewExtractionRest(s: State, r: Registration, now: int)
    requires Inv(s) && ExtractionConfirmed(s.extractionPublications, r) && r.extractionId !in s.extractions
    ensures var t := InsertExtraction(SelectExtraction(s, r), r, now);
            RevisionLedger(t.revisionPublications, t.revisions, t.observations) && Consumption(t.observations, t.revisions)
  {
    hide RevisionLedger, Consumption, RevisionNumbers, RestoreLedger, ControlLedger, ExtractionConfirmed;
    assert r.extractionId !in s.observations;
    hide ExtractionLedger;
    RevisionsIgnoreObservation(s.revisionPublications, s.revisions, s.observations, r, now);
  }

  /** An observation nobody has consumed is nothing to the revision ledger. */
  lemma RevisionsIgnoreObservation(rows: RevisionRows, v: Revisions, o: Observations, r: Registration, now: int)
    requires RevisionLedger(rows, v, o) && Consumption(o, v) && r.extractionId !in o
    ensures RevisionLedger(rows, v, WithObservation(o, r, now)) && Consumption(WithObservation(o, r, now), v)
  {
    hide SameRevision, RevisionKeysAgree, OwnersUnique, SelectedHaveRevision;
    forall revision | revision in v
      ensures ConsumedBy(WithObservation(o, r, now), revision) == ConsumedBy(o, revision)
    {
      if r.observation.Some? {
        NewObservation(o, r.extractionId, r.observation.value, now, revision);
      }
    }
    hide ConsumedBy;
  }

  /** A registration fails and changes nothing, or inserts its rows, or finds them. */
  lemma RegistrationCases(s: State, r: Registration, now: int)
    ensures var out := RegisterExtraction(s, r, now);
            match out.reply
            case Failed(_) => out.state == s
            case Registered(created) =>
              ExtractionConfirmed(s.extractionPublications, r) &&
              if created then
                !OtherExtractionSelected(s.extractionPublications, r) && r.extractionId !in s.extractions &&
                out.state == InsertExtraction(SelectExtraction(s, r), r, now)
              else
                r.extractionId in s.extractions &&
                SameExtraction(s.extractions[r.extractionId], s.observations, r) && out.state == SelectExtraction(s, r)
            case _ => false
  {
    hide OtherExtractionSelected, ExtractionConfirmed, SameExtraction, InsertExtraction;
    SelectionTouchesOneTable(s, r);
    hide SelectExtraction;
  }

  lemma SelectionTouchesOneTable(s: State, r: Registration)
    ensures ExtractionConfirmed(s.extractionPublications, r) ==>
              SelectExtraction(s, r).extractions == s.extractions && SelectExtraction(s, r).observations == s.observations
  {
  }

  lemma InsertedExtractionKeeps(s: State, r: Registration, now: int)
    requires Inv(s) && ExtractionConfirmed(s.extractionPublications, r)
    requires !OtherExtractionSelected(s.extractionPublications, r) && r.extractionId !in s.extractions
    ensures Inv(InsertExtraction(SelectExtraction(s, r), r, now))
  {
    NewExtractionLedger(s, r, now);
    NewExtractionRest(s, r, now);
    hide ExtractionLedger, RevisionLedger, Consumption, RevisionNumbers, RestoreLedger, ControlLedger,
         OtherExtractionSelected, WithObservation;
  }

  lemma RegisterExtractionKeeps(s: State, r: Registration, now: int)
    requires Inv(s)
    ensures Inv(RegisterExtraction(s, r, now).state)
  {
    hide Inv, RegisterExtraction, ExtractionConfirmed, SelectExtraction, InsertExtraction, OtherExtractionSelected,
         SameExtraction;
    RegistrationCases(s, r, now);
    var out := RegisterExtraction(s, r, now);
    if out.reply.Registered? {
      if out.reply.created {
        InsertedExtractionKeeps(s, r, now);
      } else {
        SelectedAgain(s, r);
      }
    }
  }

  // ---- creation ----

  lemma RevisionNumbersGiveMaximum(revisions: Revisions, active: nat)
    requires RevisionNumbers(revisions, active)
    ensures MaxRevision(revisions.Keys) == |revisions|
  {
    var n := |revisions|;
    if n > 0 {
      assert n in revisions.Keys;
    } else {
      assert revisions.Keys == {};
    }
  }

  lemma AllPendingIsDistinct(o: Observations, ids: seq<string>)
    requires AllPending(o, ids)
    ensures Distinct(ids) && PendingAmong(o, ids) == Elements(ids)
  {
    assert PendingAmong(o, ids) == Elements(ids);
    DistinctCount(ids);
  }

  lemma ConsumeExactly(o: Observations, revisions: Revisions, ids: seq<string>, next: nat, r: nat)
    requires AllPending(o, ids) && Consumption(o, revisions) && next !in revisions
    ensures ConsumedBy(Consume(o, ids, next), r) == if r == next then Elements(ids) else ConsumedBy(o, r)
  {
    AllPendingIsDistinct(o, ids);
    forall id ensures id in ConsumedBy(Consume(o, ids, next), r) <==> id in (if r == next then Elements(ids) else ConsumedBy(o, r)) {
      if id in ids {
        assert id in PendingAmong(o, ids);
      }
    }
  }

  /** A creation that adds a row: everything its guards have established. */
  ghost predicate AddsRevision(s: State, c: Creation) {
    RevisionConfirmed(s.revisionPublications, c) && !HasRevision(s.revisions, OwnerOf(c.source)) &&
    s.active == c.expectedActive &&
    (c.source.Maintenance? ==> AllPending(s.observations, c.source.extractionIds))
  }

  /** The state a creation leaves, with the revision number written out. */
  lemma InsertedRevision(s: State, c: Creation)
    requires Inv(s)
    ensures |s.revisions| + 1 !in s.revisions
    ensures InsertsAs(s, c, InsertRevision(SelectRevision(s, c), c), |s.revisions| + 1)
  {
    RevisionNumbersGiveMaximum(s.revisions, s.active);
    assert |s.revisions| + 1 !in s.revisions;
    InsertedAs(s, c);
    hide Inv;
  }

  ghost predicate InsertsAs(s: State, c: Creation, t: State, next: nat) {
    t.revisions == s.revisions[next := RevisionRowOf(c)] &&
    t.observations == (if c.source.Maintenance? then Consume(s.observations, c.source.extractionIds, next) else s.observations) &&
    t == SelectRevision(s, c).(revisions := t.revisions, observations := t.observations, active := next)
  }

  lemma InsertedAs(s: State, c: Creation)
    ensures InsertsAs(s, c, InsertRevision(SelectRevision(s, c), c), MaxRevision(s.revisions.Keys) + 1)
  {
    hide Consume;
  }

  lemma CreatedConsumption(s: State, c: Creation, r: nat)
    requires Inv(s) && AddsRevision(s, c)
    ensures var t := InsertRevision(SelectRevision(s, c), c);
            var next := |s.revisions| + 1;
            (r != next ==> ConsumedBy(t.observations, r) == ConsumedBy(s.observations, r)) &&
            (r == next ==> SameRevision(RevisionRowOf(c), ConsumedBy(t.observations, r), c))
  {
    InsertedRevision(s, c);
    var next := |s.revisions| + 1;
    if c.source.Maintenance? {
      ConsumeExactly(s.observations, s.revisions, c.source.extractionIds, next, r);
      AllPendingIsDistinct(s.observations, c.source.extractionIds);
    }
  }

  lemma RevisionRowInserted(
    rows: RevisionRows, v: Revisions, o: Observations, after: Observations, c: Creation, next: nat)
    requires RevisionLedger(rows, v, o) && next !in v
    requires RevisionConfirmed(rows, c) && !HasRevision(v, OwnerOf(c.source))
    requires forall r :: r in v ==> ConsumedBy(after, r) == ConsumedBy(o, r)
    requires SameRevision(RevisionRowOf(c), ConsumedBy(after, next), c)
    ensures RevisionLedger(rows[RevisionKeyOf(c) := Publication(c, Selected)], v[next := RevisionRowOf(c)], after)
  {
    hide ConsumedBy, SameIds;
    var key := RevisionKeyOf(c);
    var rows' := rows[key := Publication(c, Selected)];
    var v' := v[next := RevisionRowOf(c)];
    assert RowKey(RevisionRowOf(c)) == key && OwnerOfRevision(RevisionRowOf(c)) == OwnerOf(c.source);
    forall k | SelectedRevision(rows', k) ensures exists r :: PublishedAs(v', r, k) {
      if k == key {
        assert PublishedAs(v', next, k);
      } else {
        assert SelectedRevision(rows, k);
        var r :| PublishedAs(v, r, k);
        assert PublishedAs(v', r, k);
      }
    }
    assert RevisionsAreSelected(rows', v', after) by {
      forall r | r in v && r != next ensures RowKey(v[r]) != key {
        assert OwnerOfRevision(v[r]) != OwnerOf(c.source);
      }
    }
  }

  lemma CreatedLedger(s: State, c: Creation)
    requires Inv(s) && AddsRevision(s, c)
    ensures var t := InsertRevision(SelectRevision(s, c), c);
            RevisionLedger(t.revisionPublications, t.revisions, t.observations)
  {
    InsertedRevision(s, c);
    hide ConsumedBy, SameRevision, RevisionLedger, ExtractionLedger, ControlLedger, RestoreLedger, Consumption, AllPending, RevisionNumbers, Consume, HasRevision, RevisionConfirmed;
    var t := InsertRevision(SelectRevision(s, c), c);
    var next := |s.revisions| + 1;
    forall r | r in s.revisions ensures ConsumedBy(t.observations, r) == ConsumedBy(s.observations, r) {
      CreatedConsumption(s, c, r);
    }
    CreatedConsumption(s, c, next);
    RevisionRowInserted(s.revisionPublications, s.revisions, s.observations, t.observations, c, next);
  }

  lemma CreatedRest(s: State, c: Creation)
    requires Inv(s) && AddsRevision(s, c)
    ensures var t := InsertRevision(SelectRevision(s, c), c);
            ExtractionLedger(t.extractionPublications, t.extractions, t.observations) &&
            RevisionNumbers(t.revisions, t.active) && Consumption(t.observations, t.revisions) &&
            RestoreLedger(t.restores, t.revisions)
  {
    hide InsertRevision, SelectRevision, Consume, ExtractionLedger, RestoreLedger, Consumption, RevisionLedger, ControlLedger,
         RevisionNumbers, InsertsAs, HasRevision, RevisionConfirmed, AllPending;
    var t := InsertRevision(SelectRevision(s, c), c);
    InsertedRevision(s, c);
    UntouchedByInsertion(s, c, t, |s.revisions| + 1);
    ConsumptionInserted(s.observations, s.revisions, c, |s.revisions| + 1);
    LedgerAfterConsumption(s.extractionPublications, s.extractions, s.observations, t.observations);
    NumbersAfterInsertion(s.revisions, s.active, c);
    RestoresAfterInsertion(s.restores, s.revisions, RevisionRowOf(c), |s.revisions| + 1);
  }

  lemma UntouchedByInsertion(s: State, c: Creation, t: State, next: nat)
    requires InsertsAs(s, c, t, next)
    ensures t.extractionPublications == s.extractionPublications && t.extractions == s.extractions && t.restores == s.restores
    ensures t.revisions == s.revisions[next := RevisionRowOf(c)] && t.active == next
    ensures t.observations == if c.source.Maintenance? then Consume(s.observations, c.source.extractionIds, next) else s.observations
  {
    hide Consume, RevisionRowOf, RevisionKeyOf;
  }

  lemma ConsumptionInserted(o: Observations, v: Revisions, c: Creation, next: nat)
    requires Consumption(o, v) && next !in v
    ensures var after := if c.source.Maintenance? then Consume(o, c.source.extractionIds, next) else o;
            Consumption(after, v[next := RevisionRowOf(c)]) && after.Keys == o.Keys &&
            forall id :: id in o ==> after[id].body == o[id].body
  {
  }

  /** The extraction ledger looks at the bodies of observations only. */
  lemma LedgerAfterConsumption(rows: ExtractionRows, e: Extractions, o: Observations, after: Observations)
    requires ExtractionLedger(rows, e, o) && after.Keys == o.Keys && forall id :: id in o ==> after[id].body == o[id].body
    ensures ExtractionLedger(rows, e, after)
  {
    assert forall id :: id in after <==> id in o;
  }

  lemma NumbersAfterInsertion(v: Revisions, active: nat, c: Creation)
    requires RevisionNumbers(v, active) && active == c.expectedActive && |v| + 1 !in v
    ensures RevisionNumbers(v[|v| + 1 := RevisionRowOf(c)], |v| + 1)
  {
  }

  lemma RestoresAfterInsertion(restores: map<string, RestoreRow>, v: Revisions, row: Revision, next: nat)
    requires RestoreLedger(restores, v)
    ensures RestoreLedger(restores, v[next := row])
  {
  }

  lemma SelectRevisionAgain(s: State, c: Creation)
    requires Inv(s) && RevisionConfirmed(s.revisionPublications, c) && HasRevision(s.revisions, OwnerOf(c.source))
    requires var r := RevisionOf(s.revisions, OwnerOf(c.source));
             SameRevision(s.revisions[r], ConsumedBy(s.observations, r), c)
    ensures SelectedRevision(s.revisionPublications, RevisionKeyOf(c)) && SelectRevision(s, c) == s
  {
    hide ExtractionLedger, Consumption, ControlLedger, RevisionNumbers, RestoreLedger, SelectedHaveRevision, SameIds;
    var r := RevisionOf(s.revisions, OwnerOf(c.source));
    assert RowKey(s.revisions[r]) == RevisionKeyOf(c);
    assert SelectRevision(s, c).revisionPublications == s.revisionPublications;
  }

  /** A creation finds the revision it would have made. */
  ghost predicate Replayable(s: State, c: Creation) {
    RevisionConfirmed(s.revisionPublications, c) && HasRevision(s.revisions, OwnerOf(c.source)) &&
    var r := RevisionOf(s.revisions, OwnerOf(c.source));
    SameRevision(s.revisions[r], ConsumedBy(s.observations, r), c)
  }

  /** A creation fails and changes nothing, or adds a revision, or replays one. */
  lemma CreationFrame(s: State, c: Creation)
    ensures var out := CreateRevision(s, c);
            match out.reply
            case Failed(_) => out.state == s
            case RevisionCreated(created, r, owner) =>
              owner == OwnerOf(c.source) &&
              if created then
                AddsRevision(s, c) && out.state == InsertRevision(SelectRevision(s, c), c) &&
                r == MaxRevision(s.revisions.Keys) + 1
              else Replayable(s, c) && out.state == SelectRevision(s, c)
            case _ => false
  {
    hide OtherRevisionSelected, RevisionConfirmed, HasRevision, SameRevision, AllPending, InsertRevision, ConsumedBy;
  }

  lemma CreatedKeeps(s: State, c: Creation)
    requires Inv(s) && AddsRevision(s, c)
    ensures Inv(InsertRevision(SelectRevision(s, c), c))
  {
    CreatedLedger(s, c);
    CreatedRest(s, c);
    CreatedControl(s, c);
    hide AddsRevision, InsertRevision, SelectRevision, ExtractionLedger, RevisionLedger, RevisionNumbers, Consumption,
         RestoreLedger, ControlLedger;
  }

  lemma CreatedControl(s: State, c: Creation)
    requires Inv(s)
    ensures var t := InsertRevision(SelectRevision(s, c), c); ControlLedger(t.control, t.controlChanges)
  {
    hide ExtractionLedger, RevisionLedger, RevisionNumbers, Consumption, RestoreLedger, ControlLedger, Consume;
  }

  lemma CreateRevisionKeeps(s: State, c: Creation)
    requires Inv(s)
    ensures Inv(CreateRevision(s, c).state)
  {
    CreationFrame(s, c);
    hide Inv, CreateRevision, AddsRevision, InsertRevision, SelectRevision;
    var out := CreateRevision(s, c);
    if out.reply.RevisionCreated? {
      if out.reply.created {
        CreatedKeeps(s, c);
      } else {
        SelectRevisionAgain(s, c);
      }
    }
  }

  lemma RestoreTreeKeeps(s: State, op: Restore)
    requires Inv(s)
    ensures Inv(RestoreTree(s, op).state)
  {
    hide ExtractionLedger, RevisionLedger, Consumption, ControlLedger, Predecessors;
  }

  lemma ChangeControlKeeps(s: State, op: ControlChange, now: int)
    requires Inv(s)
    ensures Inv(ChangeControl(s, op, now).state)
  {
    hide ExtractionLedger, RevisionLedger, Consumption, RevisionNumbers, RestoreLedger, ControlLedger;
    if ControlMoves(ChangeControl(s, op, now).reply) {
      ControlAdvances(s.control, s.controlChanges, op, now);
    }
  }

  predicate ControlMoves(reply: Reply) {
    reply.ControlChanged? && reply.created
  }

  lemma ControlAdvances(control: Control, changes: map<string, ControlRow>, op: ControlChange, now: int)
    requires ControlLedger(control, changes) && op.operationId !in changes && control.generation == op.expectedGeneration
    requires control.state == (if op.target == Paused then Enabled else Paused)
    ensures var result := Control(op.target, control.generation + 1, op.actor, now);
            ControlLedger(result, changes[op.operationId := ControlRow(op.target, op.expectedGeneration, op.actor, result)])
  {
  }

  // ---- runs ----

  lemma InitialInv(installedAt: int)
    ensures Inv(InitialState(installedAt))
  {
  }

  lemma ApplyKeeps(s: State, op: Operation)
    requires Inv(s)
    ensures Inv(Apply(s, op).state)
  {
    hide Inv, ReserveExtraction, ConfirmExtraction, RegisterExtraction, ReserveRevision, ConfirmRevision, CreateRevision, RestoreTree, ChangeControl;
    match op
    case OpReserveExtraction(intent) => ReserveExtractionKeeps(s, intent);
    case OpConfirmExtraction(intent) => ConfirmExtractionKeeps(s, intent);
    case OpRegister(r, now) => RegisterExtractionKeeps(s, r, now);
    case OpReserveRevision(c) => ReserveRevisionKeeps(s, c);
    case OpConfirmRevision(c) => ConfirmRevisionKeeps(s, c);
    case OpCreate(c) => CreateRevisionKeeps(s, c);
    case OpRestore(op) => RestoreTreeKeeps(s, op);
    case OpControl(op, now) => ChangeControlKeeps(s, op, now);
    case OpGetInput(limit) =>
  }

  lemma {:induction false} RunKeeps(s: State, ops: seq<Operation>)
    requires Inv(s)
    ensures Inv(Run(s, ops))
    decreases |ops|
  {
    if ops != [] {
      ApplyKeeps(s, ops[0]);
      RunKeeps(Apply(s, ops[0]).state, ops[1..]);
    }
  }

  /** Every reachable state satisfies the invariant. */
  lemma ReachableInv(s: State)
    requires Reachable(s)
    ensures Inv(s)
  {
    var installedAt: int, ops: seq<Operation> :| s == Run(InitialState(installedAt), ops);
    RunKeeps(InitialState(installedAt), ops);
  }
}
