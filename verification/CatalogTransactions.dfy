/**
 * The same operations as transactions of single statements under READ COMMITTED: a statement reads
 * the committed rows and the transaction's own writes, takes its locks, and holds them to the end.
 */
module CatalogTransactions {
  import opened Basics
  import opened CatalogTypes
  import opened CatalogSpec
  import opened Ordering

  /** Advisory locks on owners, and row locks. */
  datatype Lock =
    | ExtractionOwnerLock(id: string)
    | RevisionOwnerLock(owner: Owner)
    | ExtractionRowLock(extractionKey: ExtractionKey)
    | RevisionRowLock(revisionKey: RevisionKey)
    | ControlLock
    | TreeLock
    | ObservationLock(id: string)

  /** The order in which every transaction takes its locks. */
  function Rank(l: Lock): nat {
    match l
    case ExtractionOwnerLock(_) => 0
    case RevisionOwnerLock(_) => 0
    case ExtractionRowLock(_) => 1
    case RevisionRowLock(_) => 1
    case ControlLock => 2
    case TreeLock => 3
    case ObservationLock(_) => 4
  }

  // ---- uncommitted writes ----

  datatype Write =
    | WriteExtractionRow(extractionKey: ExtractionKey, extractionRow: Publication<ExtractionIntent>)
    | WriteExtraction(id: string, extraction: Extraction)
    | WriteObservations(observations: map<string, Observation>)
    | WriteRevisionRow(revisionKey: RevisionKey, revisionRow: Publication<Creation>)
    | WriteRevision(revision: nat, row: Revision)
    | WriteActive(revision: nat)
    | WriteRestore(id: string, restore: RestoreRow)
    | WriteControl(control: Control)
    | WriteControlChange(id: string, change: ControlRow)

  datatype Writes = NoWrites | After(earlier: Writes, last: Write)

  function Written(s: State, w: Write): State {
    match w
    case WriteExtractionRow(k, row) => s.(extractionPublications := s.extractionPublications[k := row])
    case WriteExtraction(id, row) => s.(extractions := s.extractions[id := row])
    case WriteObservations(rows) => s.(observations := s.observations + rows)
    case WriteRevisionRow(k, row) => s.(revisionPublications := s.revisionPublications[k := row])
    case WriteRevision(r, row) => s.(revisions := s.revisions[r := row])
    case WriteActive(r) => s.(active := r)
    case WriteRestore(id, row) => s.(restores := s.restores[id := row])
    case WriteControl(c) => s.(control := c)
    case WriteControlChange(id, row) => s.(controlChanges := s.controlChanges[id := row])
  }

  /** Committed rows overlaid with a transaction's own writes. */
  function View(s: State, ws: Writes): State {
    match ws
    case NoWrites => s
    case After(earlier, last) => Written(View(s, earlier), last)
  }

  // ---- transactions ----

  /**
   * `at` counts the statements already run; `next` and `seen` are the values a later statement
   * uses; once `reply` is set only the commit is left.
   */
  datatype Transaction = Transaction(
    op: Operation, at: nat, locks: set<Lock>, writes: Writes, next: nat, seen: seq<PendingObservation>,
    reply: Option<Reply>)

  function Started(op: Operation): Transaction {
    Transaction(op, 0, {}, NoWrites, 0, [], None)
  }

  datatype Effect = Proceeds(transaction: Transaction) | Throws(failure: Failure)

  function Goes(t: Transaction): Effect {
    Proceeds(t.(at := t.at + 1))
  }

  function Jumps(t: Transaction, at: nat): Effect {
    Proceeds(t.(at := at))
  }

  function GoesWriting(t: Transaction, w: Write): Effect {
    Proceeds(t.(at := t.at + 1, writes := After(t.writes, w)))
  }

  function Finishes(t: Transaction, reply: Reply): Effect {
    Proceeds(t.(at := t.at + 1, reply := Some(reply)))
  }

  function FinishesWriting(t: Transaction, w: Write, reply: Reply): Effect {
    Proceeds(t.(at := t.at + 1, writes := After(t.writes, w), reply := Some(reply)))
  }

  /** The locks the next statement has to obtain, given what it sees. */
  function Wanted(t: Transaction, v: State): set<Lock> {
    match t.op
    case OpReserveExtraction(intent) =>
      var key := ExtractionKeyOf(intent.registration);
      if t.at == 0 && key in v.extractionPublications then {} else {ExtractionRowLock(key)}
    case OpConfirmExtraction(intent) =>
      var key := ExtractionKeyOf(intent.registration);
      if key in v.extractionPublications && v.extractionPublications[key].intent == intent then {ExtractionRowLock(key)}
      else {}
    case OpRegister(r, _) =>
      if t.at == 0 then {ExtractionOwnerLock(r.extractionId)}
      else if t.at == 2 && ExtractionConfirmed(v.extractionPublications, r) then {ExtractionRowLock(ExtractionKeyOf(r))}
      else {}
    case OpReserveRevision(c) =>
      if t.at == 0 && RevisionKeyOf(c) in v.revisionPublications then {} else {RevisionRowLock(RevisionKeyOf(c))}
    case OpConfirmRevision(c) =>
      var key := RevisionKeyOf(c);
      if key in v.revisionPublications && v.revisionPublications[key].intent == c then {RevisionRowLock(key)} else {}
    case OpCreate(c) =>
      if t.at == 0 then {RevisionOwnerLock(OwnerOf(c.source))}
      else if t.at == 2 && RevisionConfirmed(v.revisionPublications, c) then {RevisionRowLock(RevisionKeyOf(c))}
      else if t.at == 5 && c.source.Maintenance? then {ControlLock}
      else if t.at == 6 then {TreeLock}
      else if t.at == 7 && c.source.Maintenance? then
        set id | id in PendingAmong(v.observations, c.source.extractionIds) :: ObservationLock(id)
      else {}
    case OpRestore(_) => if t.at == 1 then {TreeLock} else {}
    case OpControl(_, _) => if t.at == 1 then {ControlLock} else {}
    case OpGetInput(_) => {}
  }

  // ---- the statements of each operation ----

  function ReserveExtractionStatement(t: Transaction, v: State, intent: ExtractionIntent): Effect {
    var key := ExtractionKeyOf(intent.registration);
    if t.at == 0 then // insert ... on conflict do nothing
      if key in v.extractionPublications then Goes(t)
      else GoesWriting(t, WriteExtractionRow(key, Publication(intent, Reserved)))
    else // select ... for update
      if key !in v.extractionPublications || v.extractionPublications[key].intent != intent then Throws(ExtractionIntentChanged)
      else Finishes(t, ExtractionPublished(intent, v.extractionPublications[key].status))
  }

  function ConfirmExtractionStatement(t: Transaction, v: State, intent: ExtractionIntent): Effect {
    var key := ExtractionKeyOf(intent.registration);
    if key !in v.extractionPublications || v.extractionPublications[key].intent != intent then
      Throws(ExtractionReservationRequired)
    else
      var status := if v.extractionPublications[key].status == Selected then Selected else Present;
      FinishesWriting(t, WriteExtractionRow(key, Publication(intent, status)), ExtractionPublished(intent, status))
  }

  function RegisterStatement(t: Transaction, v: State, r: Registration, now: int): Effect {
    var key, id := ExtractionKeyOf(r), r.extractionId;
    if t.at == 0 then Goes(t) // pg_advisory_xact_lock
    else if t.at == 1 then // select ... status='selected' and registration <> $2
      if OtherExtractionSelected(v.extractionPublications, r) then Throws(DifferentExtractionSelected) else Goes(t)
    else if t.at == 2 then // select ... for update
      if !ExtractionConfirmed(v.extractionPublications, r) then Throws(ExtractionConfirmationRequired) else Goes(t)
    else if t.at == 3 then // update ... set status='selected'
      if key !in v.extractionPublications then Goes(t)
      else GoesWriting(t, WriteExtractionRow(key, v.extractionPublications[key].(status := Selected)))
    else if t.at == 4 then // insert into extractions ... on conflict do nothing
      if id in v.extractions then Jumps(t, 6) else GoesWriting(t, WriteExtraction(id, ExtractionRowOf(r, now)))
    else if t.at == 5 then // insert into observations
      match r.observation
      case None => Finishes(t, Registered(true))
      case Some(body) => FinishesWriting(t, WriteObservations(map[id := Observation(body, None, now)]), Registered(true))
    else // select ... as identical
      if id !in v.extractions || !SameExtraction(v.extractions[id], v.observations, r) then Throws(ExtractionContentDiffers)
      else Finishes(t, Registered(false))
  }

  function ReserveRevisionStatement(t: Transaction, v: State, c: Creation): Effect {
    var key := RevisionKeyOf(c);
    if t.at == 0 then
      if key in v.revisionPublications then Goes(t) else GoesWriting(t, WriteRevisionRow(key, Publication(c, Reserved)))
    else
      if key !in v.revisionPublications || v.revisionPublications[key].intent != c then Throws(RevisionIntentChanged)
      else Finishes(t, RevisionReply(c, v.revisionPublications[key].status))
  }

  function ConfirmRevisionStatement(t: Transaction, v: State, c: Creation): Effect {
    var key := RevisionKeyOf(c);
    if key !in v.revisionPublications || v.revisionPublications[key].intent != c then Throws(RevisionReservationRequired)
    else
      var status := if v.revisionPublications[key].status == Selected then Selected else Present;
      FinishesWriting(t, WriteRevisionRow(key, Publication(c, status)), RevisionReply(c, status))
  }

  function ConsumedRows(observations: map<string, Observation>, ids: seq<string>, next: nat): map<string, Observation> {
    map id | id in PendingAmong(observations, ids) :: observations[id].(consumed := Some(next))
  }

  ghost function CreateStatement(t: Transaction, v: State, c: Creation): Effect {
    var key, owner := RevisionKeyOf(c), OwnerOf(c.source);
    if t.at == 0 then Goes(t) // pg_advisory_xact_lock
    else if t.at == 1 then // select ... status='selected' and intent <> $3
      if OtherRevisionSelected(v.revisionPublications, c) then Throws(DifferentRevisionSelected) else Goes(t)
    else if t.at == 2 then // select ... for update
      if !RevisionConfirmed(v.revisionPublications, c) then Throws(RevisionConfirmationRequired) else Goes(t)
    else if t.at == 3 then // update ... set status='selected'
      GoesWriting(t, WriteRevisionRow(key, Publication(c, Selected)))
    else if t.at == 4 then // replay query
      if !HasRevision(v.revisions, owner) then Goes(t)
      else
        var r := RevisionOf(v.revisions, owner);
        if !SameRevision(v.revisions[r], ConsumedBy(v.observations, r), c) then Throws(RevisionContentDiffers)
        else Finishes(t, RevisionCreated(false, r, owner))
    else if t.at == 5 then // select state from maintenance_control for update
      if c.source.Maintenance? && v.control.state != Enabled then Throws(MaintenanceIsPaused) else Goes(t)
    else if t.at == 6 then // select active_revision for update
      if v.active != c.expectedActive then Throws(ActiveRevisionMoved) else Goes(t)
    else if t.at == 7 then // select extraction_id from observations for update
      if c.source.Maintenance? && !AllPending(v.observations, c.source.extractionIds) then Throws(ObservationsNotPending)
      else Goes(t)
    else if t.at == 8 then // select coalesce(max(revision), 0) + 1
      Proceeds(t.(at := 9, next := MaxRevision(v.revisions.Keys) + 1))
    else if t.at == 9 then // insert into memory_tree_revisions
      GoesWriting(t, WriteRevision(t.next, RevisionRowOf(c)))
    else if t.at == 10 then // update observations set consumed_revision
      if c.source.Maintenance? then
        GoesWriting(t, WriteObservations(ConsumedRows(v.observations, c.source.extractionIds, t.next)))
      else Goes(t)
    else // update memory_tree_state
      FinishesWriting(t, WriteActive(t.next), RevisionCreated(true, t.next, owner))
  }

  function RestoreStatement(t: Transaction, v: State, o: Restore): Effect {
    var row := RestoreRow(o.expectedActive, o.restoredRevision, o.actor);
    if t.at == 0 then // replay query, no lock
      if o.operationId !in v.restores then Goes(t)
      else if v.restores[o.operationId] != row then Throws(RestoreContentDiffers)
      else Finishes(t, Restored(false, o.restoredRevision, o.operationId))
    else if t.at == 1 then // select active_revision for update
      if v.active != o.expectedActive then Throws(ActiveRevisionMoved) else Goes(t)
    else if t.at == 2 then
      if o.restoredRevision !in v.revisions then Throws(RestoredRevisionMissing) else Goes(t)
    else if t.at == 3 then // insert; the primary key rejects a second row
      if o.operationId in v.restores then Throws(DuplicateKey) else GoesWriting(t, WriteRestore(o.operationId, row))
    else FinishesWriting(t, WriteActive(o.restoredRevision), Restored(true, o.restoredRevision, o.operationId))
  }

  function ControlStatement(t: Transaction, v: State, o: ControlChange, now: int): Effect {
    if t.at == 0 then // replay query, no lock
      if o.operationId !in v.controlChanges then Goes(t)
      else
        var row := v.controlChanges[o.operationId];
        if row.target != o.target || row.expectedGeneration != o.expectedGeneration || row.actor != o.actor then
          Throws(ControlContentDiffers)
        else Finishes(t, ControlChanged(false, row.result))
    else if t.at == 1 then // select state, generation for update
      if v.control.generation != o.expectedGeneration then Throws(ControlGenerationMoved)
      else if v.control.state != (if o.target == Paused then Enabled else Paused) then Throws(ControlTransitionIllegal)
      else Goes(t)
    else if t.at == 2 then // update ... returning
      GoesWriting(t, WriteControl(Control(o.target, v.control.generation + 1, o.actor, now)))
    else // insert; the primary key rejects a second row
      if o.operationId in v.controlChanges then Throws(DuplicateKey)
      else
        FinishesWriting(
          t,
          WriteControlChange(o.operationId, ControlRow(o.target, o.expectedGeneration, o.actor, v.control)),
          ControlChanged(true, v.control))
  }

  function InputStatement(t: Transaction, v: State, limit: nat): Effect {
    if t.at == 0 then
      var q := OldestPending(v.observations, limit);
      if q == [] then Finishes(t, Input(None)) else Proceeds(t.(at := 1, seen := ObservationView(v.observations, q)))
    else Finishes(t, Input(Some(MaintenanceInput(v.active, ActiveTree(v), t.seen))))
  }

  ghost function Statement(t: Transaction, v: State): Effect {
    match t.op
    case OpReserveExtraction(intent) => ReserveExtractionStatement(t, v, intent)
    case OpConfirmExtraction(intent) => ConfirmExtractionStatement(t, v, intent)
    case OpRegister(r, now) => RegisterStatement(t, v, r, now)
    case OpReserveRevision(c) => ReserveRevisionStatement(t, v, c)
    case OpConfirmRevision(c) => ConfirmRevisionStatement(t, v, c)
    case OpCreate(c) => CreateStatement(t, v, c)
    case OpRestore(o) => RestoreStatement(t, v, o)
    case OpControl(o, now) => ControlStatement(t, v, o, now)
    case OpGetInput(limit) => InputStatement(t, v, limit)
  }

  // ---- the database ----

  /** The committed rows, the open transactions, and the operations committed so far. */
  datatype Database = Database(committed: State, open: map<nat, Transaction>, history: seq<Operation>)

  datatype Event =
    | Begin(tid: nat, op: Operation)
    | Execute(tid: nat)
    | Commit(tid: nat)
    | Disconnect(tid: nat)

  predicate Free(db: Database, tid: nat, wanted: set<Lock>) {
    forall other :: other in db.open && other != tid ==> db.open[other].locks !! wanted
  }

  predicate CanTake(db: Database, e: Event) {
    match e
    case Begin(tid, _) => tid !in db.open
    case Execute(tid) =>
      tid in db.open && db.open[tid].reply.None? &&
      Free(db, tid, Wanted(db.open[tid], View(db.committed, db.open[tid].writes)))
    case Commit(tid) => tid in db.open && db.open[tid].reply.Some?
    case Disconnect(tid) => tid in db.open
  }

  /** A throwing statement rolls back: the transaction and everything it wrote are gone. */
  ghost function Take(db: Database, e: Event): Database
    requires CanTake(db, e)
  {
    match e
    case Begin(tid, op) => db.(open := db.open[tid := Started(op)])
    case Execute(tid) =>
      var t := db.open[tid];
      var v := View(db.committed, t.writes);
      (match Statement(t.(locks := t.locks + Wanted(t, v)), v)
       case Proceeds(t') => db.(open := db.open[tid := t'])
       case Throws(_) => db.(open := db.open - {tid}))
    case Commit(tid) =>
      db.(committed := View(db.committed, db.open[tid].writes),
          open := db.open - {tid},
          history := db.history + [db.open[tid].op])
    case Disconnect(tid) => db.(open := db.open - {tid})
  }

  ghost predicate Legal(db: Database, events: seq<Event>)
    decreases |events|
  {
    events == [] || (CanTake(db, events[0]) && Legal(Take(db, events[0]), events[1..]))
  }

  ghost function Reached(db: Database, events: seq<Event>): Database
    requires Legal(db, events)
    decreases |events|
  {
    if events == [] then db else Reached(Take(db, events[0]), events[1..])
  }

  function Fresh(installedAt: int): Database {
    Database(InitialState(installedAt), map[], [])
  }
}
