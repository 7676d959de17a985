/**
 * What an open transaction knows about the committed rows, statement by statement: its guards still
 * hold, because the locks it has taken protect what they read.
 */
module CatalogSerial {
  import opened Basics
  import opened CatalogTypes
  import opened CatalogSpec
  import opened CatalogInvariant
  import opened CatalogHistory
  import opened CatalogTransactions
  import opened CatalogProtection
  import opened Ordering

  ghost predicate Idle(t: Transaction) {
    t.locks == {} && t.writes == NoWrites && t.reply == None
  }

  /** A later committed state, as far as a transaction holding `locks` can tell. */
  ghost predicate Follows(s: State, t: State, locks: set<Lock>) {
    Inv(s) && Inv(t) && Extends(s, t) && KeysGrow(s, t) && forall l :: l in locks ==> Protected(l, s, t)
  }

  function Acquiring(t: Transaction, v: State): Transaction {
    t.(locks := t.locks + Wanted(t, v))
  }

  // ---- reserving and confirming an extraction publication ----

  ghost predicate ReservingExtraction(t: Transaction, s: State, intent: ExtractionIntent) {
    var k := ExtractionKeyOf(intent.registration);
    var inserted := After(NoWrites, WriteExtractionRow(k, Publication(intent, Reserved)));
    match t.reply
    case None =>
      if t.at == 0 then Idle(t)
      else
        t.at == 1 &&
        ((t.locks == {} && t.writes == NoWrites && k in s.extractionPublications) ||
         (t.locks == {ExtractionRowLock(k)} && t.writes == inserted && k !in s.extractionPublications))
    case Some(reply) =>
      t.locks == {ExtractionRowLock(k)} &&
      ((t.writes == NoWrites && k in s.extractionPublications && s.extractionPublications[k].intent == intent &&
        reply == ExtractionPublished(intent, s.extractionPublications[k].status)) ||
       (t.writes == inserted && k !in s.extractionPublications && reply == ExtractionPublished(intent, Reserved)))
  }

  ghost predicate ConfirmingExtraction(t: Transaction, s: State, intent: ExtractionIntent) {
    var k := ExtractionKeyOf(intent.registration);
    match t.reply
    case None => t.at == 0 && Idle(t)
    case Some(reply) =>
      t.locks == {ExtractionRowLock(k)} && k in s.extractionPublications && s.extractionPublications[k].intent == intent &&
      var status := if s.extractionPublications[k].status == Selected then Selected else Present;
      t.writes == After(NoWrites, WriteExtractionRow(k, Publication(intent, status))) &&
      reply == ExtractionPublished(intent, status)
  }

  lemma ReservingExtractionStays(t: Transaction, s: State, s': State, intent: ExtractionIntent)
    requires ReservingExtraction(t, s, intent) && Follows(s, s', t.locks)
    ensures ReservingExtraction(t, s', intent)
  {
    hide Inv, Extends;
    var k := ExtractionKeyOf(intent.registration);
    assert ExtractionRowLock(k) in t.locks ==> Protected(ExtractionRowLock(k), s, s');
  }

  lemma ConfirmingExtractionStays(t: Transaction, s: State, s': State, intent: ExtractionIntent)
    requires ConfirmingExtraction(t, s, intent) && Follows(s, s', t.locks)
    ensures ConfirmingExtraction(t, s', intent)
  {
    hide Inv, Extends, KeysGrow;
    var k := ExtractionKeyOf(intent.registration);
    assert ExtractionRowLock(k) in t.locks ==> Protected(ExtractionRowLock(k), s, s');
  }

  lemma ReservingExtractionSteps(t: Transaction, s: State, intent: ExtractionIntent)
    requires t.op == OpReserveExtraction(intent) && ReservingExtraction(t, s, intent) && t.reply == None
    ensures var v := View(s, t.writes);
            var e := ReserveExtractionStatement(Acquiring(t, v), v, intent);
            (e.Proceeds? ==> e.transaction.op == t.op && ReservingExtraction(e.transaction, s, intent)) &&
            (e.Throws? ==> ReserveExtraction(s, intent) == Fail(s, e.failure))
  {
  }

  lemma ConfirmingExtractionSteps(t: Transaction, s: State, intent: ExtractionIntent)
    requires t.op == OpConfirmExtraction(intent) && ConfirmingExtraction(t, s, intent) && t.reply == None
    ensures var v := View(s, t.writes);
            var e := ConfirmExtractionStatement(Acquiring(t, v), v, intent);
            (e.Proceeds? ==> e.transaction.op == t.op && ConfirmingExtraction(e.transaction, s, intent)) &&
            (e.Throws? ==> ConfirmExtraction(s, intent) == Fail(s, e.failure))
  {
  }

  lemma ReservingExtractionCommits(t: Transaction, s: State, intent: ExtractionIntent)
    requires ReservingExtraction(t, s, intent) && t.reply.Some?
    ensures Outcome(View(s, t.writes), t.reply.value) == ReserveExtraction(s, intent)
    ensures t.locks == Covering(OpReserveExtraction(intent))
  {
  }

  lemma ConfirmingExtractionCommits(t: Transaction, s: State, intent: ExtractionIntent)
    requires ConfirmingExtraction(t, s, intent) && t.reply.Some?
    ensures Outcome(View(s, t.writes), t.reply.value) == ConfirmExtraction(s, intent)
    ensures t.locks == Covering(OpConfirmExtraction(intent))
  {
  }

  // ---- reserving and confirming a revision publication ----

  ghost predicate ReservingRevision(t: Transaction, s: State, c: Creation) {
    var k := RevisionKeyOf(c);
    var inserted := After(NoWrites, WriteRevisionRow(k, Publication(c, Reserved)));
    match t.reply
    case None =>
      if t.at == 0 then Idle(t)
      else
        t.at == 1 &&
        ((t.locks == {} && t.writes == NoWrites && k in s.revisionPublications) ||
         (t.locks == {RevisionRowLock(k)} && t.writes == inserted && k !in s.revisionPublications))
    case Some(reply) =>
      t.locks == {RevisionRowLock(k)} &&
      ((t.writes == NoWrites && k in s.revisionPublications && s.revisionPublications[k].intent == c &&
        reply == RevisionReply(c, s.revisionPublications[k].status)) ||
       (t.writes == inserted && k !in s.revisionPublications && reply == RevisionReply(c, Reserved)))
  }

  ghost predicate ConfirmingRevision(t: Transaction, s: State, c: Creation) {
    var k := RevisionKeyOf(c);
    match t.reply
    case None => t.at == 0 && Idle(t)
    case Some(reply) =>
      t.locks == {RevisionRowLock(k)} && k in s.revisionPublications && s.revisionPublications[k].intent == c &&
      var status := if s.revisionPublications[k].status == Selected then Selected else Present;
      t.writes == After(NoWrites, WriteRevisionRow(k, Publication(c, status))) &&
      reply == RevisionReply(c, status)
  }

  lemma ReservingRevisionStays(t: Transaction, s: State, s': State, c: Creation)
    requires ReservingRevision(t, s, c) && Follows(s, s', t.locks)
    ensures ReservingRevision(t, s', c)
  {
    hide Inv, Extends;
    assert RevisionRowLock(RevisionKeyOf(c)) in t.locks ==> Protected(RevisionRowLock(RevisionKeyOf(c)), s, s');
  }

  lemma ConfirmingRevisionStays(t: Transaction, s: State, s': State, c: Creation)
    requires ConfirmingRevision(t, s, c) && Follows(s, s', t.locks)
    ensures ConfirmingRevision(t, s', c)
  {
    hide Inv, Extends, KeysGrow;
    assert RevisionRowLock(RevisionKeyOf(c)) in t.locks ==> Protected(RevisionRowLock(RevisionKeyOf(c)), s, s');
  }

  lemma ReservingRevisionSteps(t: Transaction, s: State, c: Creation)
    requires t.op == OpReserveRevision(c) && ReservingRevision(t, s, c) && t.reply == None
    ensures var v := View(s, t.writes);
            var e := ReserveRevisionStatement(Acquiring(t, v), v, c);
            (e.Proceeds? ==> e.transaction.op == t.op && ReservingRevision(e.transaction, s, c)) &&
            (e.Throws? ==> ReserveRevision(s, c) == Fail(s, e.failure))
  {
  }

  lemma ConfirmingRevisionSteps(t: Transaction, s: State, c: Creation)
    requires t.op == OpConfirmRevision(c) && ConfirmingRevision(t, s, c) && t.reply == None
    ensures var v := View(s, t.writes);
            var e := ConfirmRevisionStatement(Acquiring(t, v), v, c);
            (e.Proceeds? ==> e.transaction.op == t.op && ConfirmingRevision(e.transaction, s, c)) &&
            (e.Throws? ==> ConfirmRevision(s, c) == Fail(s, e.failure))
  {
  }

  lemma ReservingRevisionCommits(t: Transaction, s: State, c: Creation)
    requires ReservingRevision(t, s, c) && t.reply.Some?
    ensures Outcome(View(s, t.writes), t.reply.value) == ReserveRevision(s, c)
    ensures t.locks == Covering(OpReserveRevision(c))
  {
  }

  lemma ConfirmingRevisionCommits(t: Transaction, s: State, c: Creation)
    requires ConfirmingRevision(t, s, c) && t.reply.Some?
    ensures Outcome(View(s, t.writes), t.reply.value) == ConfirmRevision(s, c)
    ensures t.locks == Covering(OpConfirmRevision(c))
  {
  }

  // ---- registering an extraction ----

  function MarkExtraction(rows: ExtractionRows, r: Registration): Writes
    requires ExtractionKeyOf(r) in rows
  {
    After(NoWrites, WriteExtractionRow(ExtractionKeyOf(r), rows[ExtractionKeyOf(r)].(status := Selected)))
  }

  function InsertedExtractionWrites(rows: ExtractionRows, r: Registration, now: int): Writes
    requires ExtractionKeyOf(r) in rows
  {
    After(MarkExtraction(rows, r), WriteExtraction(r.extractionId, ExtractionRowOf(r, now)))
  }

  function RegisteredWrites(rows: ExtractionRows, r: Registration, now: int): Writes
    requires ExtractionKeyOf(r) in rows
  {
    match r.observation
    case None => InsertedExtractionWrites(rows, r, now)
    case Some(body) =>
      After(InsertedExtractionWrites(rows, r, now), WriteObservations(map[r.extractionId := Observation(body, None, now)]))
  }

  ghost predicate RegisteringRow(t: Transaction, s: State, r: Registration, now: int) {
    t.locks == {ExtractionOwnerLock(r.extractionId), ExtractionRowLock(ExtractionKeyOf(r))} &&
    !OtherExtractionSelected(s.extractionPublications, r) && ExtractionConfirmed(s.extractionPublications, r) &&
    match t.reply
    case None =>
      if t.at == 3 then t.writes == NoWrites
      else if t.at == 4 then t.writes == MarkExtraction(s.extractionPublications, r)
      else if t.at == 5 then
        r.extractionId !in s.extractions && t.writes == InsertedExtractionWrites(s.extractionPublications, r, now)
      else
        t.at == 6 && r.extractionId in s.extractions && t.writes == MarkExtraction(s.extractionPublications, r)
    case Some(reply) =>
      if r.extractionId in s.extractions then
        SameExtraction(s.extractions[r.extractionId], s.observations, r) && reply == Registered(false) &&
        t.writes == MarkExtraction(s.extractionPublications, r)
      else
        reply == Registered(true) && t.writes == RegisteredWrites(s.extractionPublications, r, now)
  }

  ghost predicate Registering(t: Transaction, s: State, r: Registration, now: int) {
    if t.reply == None && t.at == 0 then Idle(t)
    else if t.reply == None && t.at <= 2 then
      t.locks == {ExtractionOwnerLock(r.extractionId)} && t.writes == NoWrites &&
      (t.at == 2 ==> !OtherExtractionSelected(s.extractionPublications, r))
    else RegisteringRow(t, s, r, now)
  }

  lemma OwnerSelectionStays(s: State, s': State, r: Registration)
    requires ExtractionOwnerKept(s, s', r.extractionId)
    ensures OtherExtractionSelected(s.extractionPublications, r) <==> OtherExtractionSelected(s'.extractionPublications, r)
  {
    if OtherExtractionSelected(s.extractionPublications, r) {
      var k :| k in s.extractionPublications && k.id == r.extractionId &&
               s.extractionPublications[k].status == Selected && s.extractionPublications[k].intent.registration != r;
      assert SelectedExtraction(s.extractionPublications, k);
    }
    if OtherExtractionSelected(s'.extractionPublications, r) {
      var k :| k in s'.extractionPublications && k.id == r.extractionId &&
               s'.extractionPublications[k].status == Selected && s'.extractionPublications[k].intent.registration != r;
      assert SelectedExtraction(s'.extractionPublications, k);
    }
  }

  lemma RegisteringStays(t: Transaction, s: State, s': State, r: Registration, now: int)
    requires Registering(t, s, r, now) && Follows(s, s', t.locks)
    ensures Registering(t, s', r, now)
  {
    hide Inv, Extends, KeysGrow, OtherExtractionSelected;
    if t.locks != {} {
      assert Protected(ExtractionOwnerLock(r.extractionId), s, s');
      OwnerSelectionStays(s, s', r);
      if ExtractionRowLock(ExtractionKeyOf(r)) in t.locks {
        assert Protected(ExtractionRowLock(ExtractionKeyOf(r)), s, s');
      }
    }
  }

  /** A statement keeps the transaction's knowledge, or throws exactly what the atomic operation throws. */
  ghost predicate RegisterStepSound(t: Transaction, s: State, r: Registration, now: int) {
    var v := View(s, t.writes);
    var e := RegisterStatement(Acquiring(t, v), v, r, now);
    (e.Proceeds? ==> e.transaction.op == t.op && Registering(e.transaction, s, r, now)) &&
    (e.Throws? ==> RegisterExtraction(s, r, now) == Fail(s, e.failure))
  }

  lemma RegisteringChecks(t: Transaction, s: State, r: Registration, now: int)
    requires t.op == OpRegister(r, now) && Registering(t, s, r, now) && t.reply == None && t.at <= 3
    ensures RegisterStepSound(t, s, r, now)
  {
    hide OtherExtractionSelected, SameExtraction, InsertExtraction;
  }

  lemma RegisteringWrites(t: Transaction, s: State, r: Registration, now: int)
    requires t.op == OpRegister(r, now) && Registering(t, s, r, now) && t.reply == None && 4 <= t.at <= 5
    ensures RegisterStepSound(t, s, r, now)
  {
    hide OtherExtractionSelected, SameExtraction, RegisterExtraction;
    var marked := t.writes;
    if t.at == 5 {
      marked := t.writes.earlier;
      assert View(s, t.writes) == Written(View(s, marked), t.writes.last);
    }
    assert View(s, marked) == Written(s, marked.last);
    var v := View(s, t.writes);
    assert v.extractions == if t.at == 4 then s.extractions else s.extractions[r.extractionId := ExtractionRowOf(r, now)];
  }

  lemma RegisteringCompares(t: Transaction, s: State, r: Registration, now: int)
    requires t.op == OpRegister(r, now) && Registering(t, s, r, now) && t.reply == None && t.at == 6
    ensures RegisterStepSound(t, s, r, now)
  {
    hide OtherExtractionSelected, SameExtraction;
    assert View(s, t.writes) == Written(s, t.writes.last);
    var v := View(s, t.writes);
    assert v.extractions == s.extractions && v.observations == s.observations;
  }

  lemma RegisteringSteps(t: Transaction, s: State, r: Registration, now: int)
    requires t.op == OpRegister(r, now) && Registering(t, s, r, now) && t.reply == None
    ensures RegisterStepSound(t, s, r, now)
  {
    hide RegisterStepSound, OtherExtractionSelected, SameExtraction;
    if t.at <= 3 {
      RegisteringChecks(t, s, r, now);
    } else if t.at <= 5 {
      RegisteringWrites(t, s, r, now);
    } else {
      RegisteringCompares(t, s, r, now);
    }
  }

  lemma RegisteringCommits(t: Transaction, s: State, r: Registration, now: int)
    requires Registering(t, s, r, now) && t.reply.Some?
    ensures Outcome(View(s, t.writes), t.reply.value) == RegisterExtraction(s, r, now)
    ensures t.locks == Covering(OpRegister(r, now))
  {
    MarkedExtractionView(s, r);
    RegisteredView(s, r, now);
    RegistrationUnfolds(s, r, now);
    hide OtherExtractionSelected, SameExtraction, RegisterExtraction, View, SelectExtraction, InsertExtraction, MarkExtraction,
         RegisteredWrites;
  }

  lemma MarkedExtractionView(s: State, r: Registration)
    ensures ExtractionKeyOf(r) in s.extractionPublications && ExtractionConfirmed(s.extractionPublications, r) ==>
              View(s, MarkExtraction(s.extractionPublications, r)) == SelectExtraction(s, r)
  {
    if ExtractionKeyOf(r) in s.extractionPublications {
      var ws := MarkExtraction(s.extractionPublications, r);
      assert View(s, ws) == Written(View(s, ws.earlier), ws.last);
    }
  }

  /** Inserting the extraction row and then its observation, if any, is the specification's one insertion. */
  lemma InsertionInStatements(v: State, r: Registration, now: int)
    ensures var inserted := Written(v, WriteExtraction(r.extractionId, ExtractionRowOf(r, now)));
            InsertExtraction(v, r, now) ==
              match r.observation
              case None => inserted
              case Some(body) => Written(inserted, WriteObservations(map[r.extractionId := Observation(body, None, now)]))
  {
    hide ExtractionRowOf;
    if r.observation.Some? {
      var row := Observation(r.observation.value, None, now);
      assert v.observations + map[r.extractionId := row] == v.observations[r.extractionId := row];
    }
  }

  lemma ViewAfter(s: State, earlier: Writes, last: Write)
    ensures View(s, After(earlier, last)) == Written(View(s, earlier), last)
  {
    hide Written;
  }

  lemma RegisteredView(s: State, r: Registration, now: int)
    ensures ExtractionKeyOf(r) in s.extractionPublications && ExtractionConfirmed(s.extractionPublications, r) ==>
              View(s, RegisteredWrites(s.extractionPublications, r, now)) == InsertExtraction(SelectExtraction(s, r), r, now)
  {
    if ExtractionKeyOf(r) in s.extractionPublications && ExtractionConfirmed(s.extractionPublications, r) {
      RegisteredViewOf(s, r, now);
    }
  }

  lemma RegisteredViewOf(s: State, r: Registration, now: int)
    requires ExtractionKeyOf(r) in s.extractionPublications && ExtractionConfirmed(s.extractionPublications, r)
    ensures View(s, RegisteredWrites(s.extractionPublications, r, now)) == InsertExtraction(SelectExtraction(s, r), r, now)
  {
    hide Written, View, InsertExtraction, SelectExtraction, MarkExtraction, ExtractionConfirmed, ExtractionRowOf;
    var marked := MarkExtraction(s.extractionPublications, r);
    var inserted := InsertedExtractionWrites(s.extractionPublications, r, now);
    MarkedExtractionView(s, r);
    ViewAfter(s, marked, inserted.last);
    InsertionInStatements(SelectExtraction(s, r), r, now);
    if r.observation.Some? {
      ViewAfter(s, inserted, WriteObservations(map[r.extractionId := Observation(r.observation.value, None, now)]));
    }
  }

  lemma RegistrationUnfolds(s: State, r: Registration, now: int)
    ensures !OtherExtractionSelected(s.extractionPublications, r) && ExtractionConfirmed(s.extractionPublications, r) ==>
              (r.extractionId !in s.extractions ==>
                 RegisterExtraction(s, r, now) ==
                   Outcome(InsertExtraction(SelectExtraction(s, r), r, now), Registered(true))) &&
              (r.extractionId in s.extractions && SameExtraction(s.extractions[r.extractionId], s.observations, r) ==>
                 RegisterExtraction(s, r, now) == Outcome(SelectExtraction(s, r), Registered(false)))
  {
    hide OtherExtractionSelected, SameExtraction, ExtractionConfirmed, InsertExtraction, SelectExtraction;
  }
}
