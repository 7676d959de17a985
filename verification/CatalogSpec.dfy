/** Every catalog operation as one atomic step: the committed state it leaves and its reply. */
module CatalogSpec {
  import opened Basics
  import opened CatalogTypes
  import opened Ordering

  function Fail(s: State, failure: Failure): Outcome {
    Outcome(s, Failed(failure))
  }

  // ---- extraction ledger ----

  function ReserveExtraction(s: State, intent: ExtractionIntent): Outcome {
    var key := ExtractionKeyOf(intent.registration);
    var rows := if key in s.extractionPublications then s.extractionPublications
                else s.extractionPublications[key := Publication(intent, Reserved)];
    if rows[key].intent != intent then Fail(s, ExtractionIntentChanged)
    else Outcome(s.(extractionPublications := rows), ExtractionPublished(intent, rows[key].status))
  }

  function ConfirmExtraction(s: State, intent: ExtractionIntent): Outcome {
    var key := ExtractionKeyOf(intent.registration);
    if key !in s.extractionPublications || s.extractionPublications[key].intent != intent then
      Fail(s, ExtractionReservationRequired)
    else
      var status := if s.extractionPublications[key].status == Selected then Selected else Present;
      Outcome(
        s.(extractionPublications := s.extractionPublications[key := Publication(intent, status)]),
        ExtractionPublished(intent, status))
  }

  type ExtractionRows = map<ExtractionKey, Publication<ExtractionIntent>>

  predicate OtherExtractionSelected(rows: ExtractionRows, r: Registration) {
    exists k :: k in rows && k.id == r.extractionId && rows[k].status == Selected && rows[k].intent.registration != r
  }

  predicate ExtractionConfirmed(rows: ExtractionRows, r: Registration) {
    var key := ExtractionKeyOf(r);
    key in rows && rows[key].intent.registration == r && rows[key].status != Reserved
  }

  function SelectExtraction(s: State, r: Registration): State
    requires ExtractionConfirmed(s.extractionPublications, r)
  {
    var key := ExtractionKeyOf(r);
    s.(extractionPublications := s.extractionPublications[key := s.extractionPublications[key].(status := Selected)])
  }

  /** The `identical` column of the stored extraction joined with its observation. */
  predicate SameExtraction(row: Extraction, observations: map<string, Observation>, r: Registration) {
    row.(createdAt := 0) == ExtractionRowOf(r, 0) &&
    match r.observation
    case None => r.extractionId !in observations
    case Some(body) => r.extractionId in observations && observations[r.extractionId].body == body
  }

  function InsertExtraction(s: State, r: Registration, now: int): State {
    s.(extractions := s.extractions[r.extractionId := ExtractionRowOf(r, now)],
       observations := match r.observation
                       case None => s.observations
                       case Some(body) => s.observations[r.extractionId := Observation(body, None, now)])
  }

  function RegisterExtraction(s: State, r: Registration, now: int): Outcome {
    if OtherExtractionSelected(s.extractionPublications, r) then Fail(s, DifferentExtractionSelected)
    else if !ExtractionConfirmed(s.extractionPublications, r) then Fail(s, ExtractionConfirmationRequired)
    else if r.extractionId !in s.extractions then
      Outcome(InsertExtraction(SelectExtraction(s, r), r, now), Registered(true))
    else if !SameExtraction(s.extractions[r.extractionId], s.observations, r) then Fail(s, ExtractionContentDiffers)
    else Outcome(SelectExtraction(s, r), Registered(false))
  }

  // ---- revision ledger ----

  function RevisionReply(c: Creation, status: Status): Reply {
    RevisionPublished(c.expectedActive, c.tree, PublicSourceOf(c.source), status)
  }

  function ReserveRevision(s: State, c: Creation): Outcome {
    var key := RevisionKeyOf(c);
    var rows := if key in s.revisionPublications then s.revisionPublications
                else s.revisionPublications[key := Publication(c, Reserved)];
    if rows[key].intent != c then Fail(s, RevisionIntentChanged)
    else Outcome(s.(revisionPublications := rows), RevisionReply(c, rows[key].status))
  }

  function ConfirmRevision(s: State, c: Creation): Outcome {
    var key := RevisionKeyOf(c);
    if key !in s.revisionPublications || s.revisionPublications[key].intent != c then
      Fail(s, RevisionReservationRequired)
    else
      var status := if s.revisionPublications[key].status == Selected then Selected else Present;
      Outcome(
        s.(revisionPublications := s.revisionPublications[key := Publication(c, status)]),
        RevisionReply(c, status))
  }

  type RevisionRows = map<RevisionKey, Publication<Creation>>

  predicate OtherRevisionSelected(rows: RevisionRows, c: Creation) {
    exists k :: k in rows && k.owner == OwnerOf(c.source) && rows[k].status == Selected && rows[k].intent != c
  }

  predicate RevisionConfirmed(rows: RevisionRows, c: Creation) {
    var key := RevisionKeyOf(c);
    key in rows && rows[key].intent == c && rows[key].status != Reserved
  }

  function SelectRevision(s: State, c: Creation): State {
    s.(revisionPublications := s.revisionPublications[RevisionKeyOf(c) := Publication(c, Selected)])
  }

  predicate HasRevision(revisions: map<nat, Revision>, owner: Owner) {
    exists r :: r in revisions && OwnerOfRevision(revisions[r]) == owner
  }

  /** The row found by maintenance or operation id; the unique indexes allow only one. */
  ghost function RevisionOf(revisions: map<nat, Revision>, owner: Owner): (r: nat)
    requires HasRevision(revisions, owner)
    ensures r in revisions && OwnerOfRevision(revisions[r]) == owner
  {
    var r :| r in revisions && OwnerOfRevision(revisions[r]) == owner;
    r
  }

  function ConsumedBy(observations: map<string, Observation>, revision: nat): set<string> {
    set id | id in observations && observations[id].consumed == Some(revision)
  }

  /** The stored ids are exactly the requested ones, none of them requested twice. */
  predicate SameIds(ids: seq<string>, consumed: set<string>) {
    Distinct(ids) && Elements(ids) == consumed
  }

  /** The `identical` column of a stored revision, given the observations it consumed. */
  predicate SameRevision(row: Revision, consumed: set<string>, c: Creation) {
    row.predecessor == PredecessorOf(c.expectedActive) &&
    row.tree == c.tree &&
    match c.source
    case Maintenance(_, ids, trajectory) =>
      row.source.ByMaintenance? && row.source.trajectory == trajectory && SameIds(ids, consumed)
    case Operator(_, actor) =>
      row.source.ByOperator? && row.source.actor == actor
  }

  function PendingAmong(observations: map<string, Observation>, ids: seq<string>): set<string> {
    set id | id in ids && id in observations && observations[id].consumed == None
  }

  predicate AllPending(observations: map<string, Observation>, ids: seq<string>) {
    |PendingAmong(observations, ids)| == |ids| && forall id :: id in ids ==> id in PendingAmong(observations, ids)
  }

  /** `coalesce(max(revision), 0)` */
  function MaxRevision(revisions: set<nat>): (m: nat)
    ensures forall r :: r in revisions ==> r <= m
    ensures revisions == {} ==> m == 0
    ensures revisions != {} ==> m in revisions
  {
    if revisions == {} then 0
    else
      MaximumExists(revisions);
      MaximumIsUnique(revisions);
      var m :| m in revisions && IsMaximum(revisions, m);
      m
  }

  predicate IsMaximum(revisions: set<nat>, m: nat) {
    m in revisions && forall r :: r in revisions ==> r <= m
  }

  lemma {:induction false} MaximumExists(revisions: set<nat>)
    requires revisions != {}
    ensures exists m :: IsMaximum(revisions, m)
  {
    var x :| x in revisions;
    var rest := revisions - {x};
    if rest == {} {
      assert forall r :: r in revisions ==> r == x || r in rest;
      assert IsMaximum(revisions, x);
    } else {
      MaximumExists(rest);
      var m :| IsMaximum(rest, m);
      assert IsMaximum(revisions, if m < x then x else m) by { MaximumWith(revisions, x, m); }
    }
  }

  lemma MaximumWith(revisions: set<nat>, x: nat, m: nat)
    requires x in revisions && IsMaximum(revisions - {x}, m)
    ensures IsMaximum(revisions, if m < x then x else m)
  {
    forall r | r in revisions ensures r <= if m < x then x else m {
      if r != x {
        assert r in revisions - {x};
      }
    }
  }

  lemma MaximumIsUnique(revisions: set<nat>)
    ensures forall m, n :: IsMaximum(revisions, m) && IsMaximum(revisions, n) ==> m == n
  {
  }

  function Consume(observations: map<string, Observation>, ids: seq<string>, revision: nat): map<string, Observation> {
    map id | id in observations ::
      if id in ids && observations[id].consumed == None then observations[id].(consumed := Some(revision))
      else observations[id]
  }

  function InsertRevision(s: State, c: Creation): State {
    var next := MaxRevision(s.revisions.Keys) + 1;
    s.(revisions := s.revisions[next := RevisionRowOf(c)],
       observations := if c.source.Maintenance? then Consume(s.observations, c.source.extractionIds, next)
                       else s.observations,
       active := next)
  }

  /** The statements of a creation that follow the marking of its publication as selected. */
  ghost function CreateSelected(t: State, c: Creation): Outcome {
    var owner := OwnerOf(c.source);
    if HasRevision(t.revisions, owner) then
      var r := RevisionOf(t.revisions, owner);
      if !SameRevision(t.revisions[r], ConsumedBy(t.observations, r), c) then Fail(t, RevisionContentDiffers)
      else Outcome(t, RevisionCreated(false, r, owner))
    else if c.source.Maintenance? && t.control.state != Enabled then Fail(t, MaintenanceIsPaused)
    else if t.active != c.expectedActive then Fail(t, ActiveRevisionMoved)
    else if c.source.Maintenance? && !AllPending(t.observations, c.source.extractionIds) then
      Fail(t, ObservationsNotPending)
    else Outcome(InsertRevision(t, c), RevisionCreated(true, MaxRevision(t.revisions.Keys) + 1, owner))
  }

  ghost function CreateRevision(s: State, c: Creation): Outcome {
    if OtherRevisionSelected(s.revisionPublications, c) then Fail(s, DifferentRevisionSelected)
    else if !RevisionConfirmed(s.revisionPublications, c) then Fail(s, RevisionConfirmationRequired)
    else
      var out := CreateSelected(SelectRevision(s, c), c);
      if out.reply.Failed? then Fail(s, out.reply.failure) else out
  }

  // ---- restore ----

  function RestoreTree(s: State, op: Restore): Outcome {
    var row := RestoreRow(op.expectedActive, op.restoredRevision, op.actor);
    if op.operationId in s.restores then
      if s.restores[op.operationId] != row then Fail(s, RestoreContentDiffers)
      else Outcome(s, Restored(false, s.restores[op.operationId].restoredRevision, op.operationId))
    else if s.active != op.expectedActive then Fail(s, ActiveRevisionMoved)
    else if op.restoredRevision !in s.revisions then Fail(s, RestoredRevisionMissing)
    else
      Outcome(
        s.(restores := s.restores[op.operationId := row], active := op.restoredRevision),
        Restored(true, op.restoredRevision, op.operationId))
  }

  // ---- pause and resume ----

  function ChangeControl(s: State, op: ControlChange, now: int): Outcome {
    if op.operationId in s.controlChanges then
      var row := s.controlChanges[op.operationId];
      if row.target != op.target || row.expectedGeneration != op.expectedGeneration || row.actor != op.actor then
        Fail(s, ControlContentDiffers)
      else Outcome(s, ControlChanged(false, row.result))
    else if s.control.generation != op.expectedGeneration then Fail(s, ControlGenerationMoved)
    else if s.control.state != (if op.target == Paused then Enabled else Paused) then Fail(s, ControlTransitionIllegal)
    else
      var result := Control(op.target, s.control.generation + 1, op.actor, now);
      Outcome(
        s.(control := result,
           controlChanges := s.controlChanges[op.operationId :=
             ControlRow(op.target, op.expectedGeneration, op.actor, result)]),
        ControlChanged(true, result))
  }

  // ---- maintenance input ----

  function PendingKeys(observations: map<string, Observation>): (r: set<Key>)
    ensures forall k :: k in r <==> k.id in observations && observations[k.id].consumed == None &&
                                    k.at == observations[k.id].createdAt
  {
    var r := set id | id in observations && observations[id].consumed == None :: Key(observations[id].createdAt, id);
    assert forall k: Key :: k == Key(k.at, k.id);
    r
  }

  /** Pending observations, oldest first, at most `limit` of them. */
  function OldestPending(observations: map<string, Observation>, limit: nat): (q: seq<Key>)
    ensures forall k :: k in q ==> k in PendingKeys(observations)
  {
    var q := Sort(PendingKeys(observations));
    if |q| <= limit then q else q[..limit]
  }

  function ObservationView(observations: map<string, Observation>, q: seq<Key>): (r: seq<PendingObservation>)
    requires forall k :: k in q ==> k.id in observations
    ensures |r| == |q|
    ensures forall i :: 0 <= i < |q| ==> r[i] == PendingObservation(q[i].id, observations[q[i].id].body)
  {
    seq(|q|, i requires 0 <= i < |q| => PendingObservation(q[i].id, observations[q[i].id].body))
  }

  function ActiveTree(s: State): Option<ArtifactReference> {
    if s.active in s.revisions then Some(s.revisions[s.active].tree) else None
  }

  function InputFor(s: State, limit: nat): Option<MaintenanceInput> {
    var q := OldestPending(s.observations, limit);
    if q == [] then None else Some(MaintenanceInput(s.active, ActiveTree(s), ObservationView(s.observations, q)))
  }

  function GetInput(s: State, limit: nat): Outcome {
    Outcome(s, Input(InputFor(s, limit)))
  }

  // ---- runs ----

  datatype Operation =
    | OpReserveExtraction(extractionIntent: ExtractionIntent)
    | OpConfirmExtraction(extractionIntent: ExtractionIntent)
    | OpRegister(registration: Registration, now: int)
    | OpReserveRevision(creation: Creation)
    | OpConfirmRevision(creation: Creation)
    | OpCreate(creation: Creation)
    | OpRestore(restore: Restore)
    | OpControl(change: ControlChange, now: int)
    | OpGetInput(limit: nat)

  ghost function Apply(s: State, op: Operation): Outcome {
    match op
    case OpReserveExtraction(intent) => ReserveExtraction(s, intent)
    case OpConfirmExtraction(intent) => ConfirmExtraction(s, intent)
    case OpRegister(r, now) => RegisterExtraction(s, r, now)
    case OpReserveRevision(c) => ReserveRevision(s, c)
    case OpConfirmRevision(c) => ConfirmRevision(s, c)
    case OpCreate(c) => CreateRevision(s, c)
    case OpRestore(op) => RestoreTree(s, op)
    case OpControl(op, now) => ChangeControl(s, op, now)
    case OpGetInput(limit) => GetInput(s, limit)
  }

  ghost function Run(s: State, ops: seq<Operation>): State
    decreases |ops|
  {
    if ops == [] then s else Run(Apply(s, ops[0]).state, ops[1..])
  }

  ghost predicate Reachable(s: State) {
    exists installedAt: int, ops: seq<Operation> :: s == Run(InitialState(installedAt), ops)
  }
}
