/**
 * The converse of serializability: an operation that runs while nobody else holds a lock ends as
 * its single step does, so interleaved and atomic catalogs reach exactly the same rows. And the one
 * reply that interleaving does change: the maintenance input.
 */
module CatalogCompleteness {
  import opened Basics
  import opened CatalogTypes
  import opened CatalogSpec
  import opened CatalogInvariant
  import opened CatalogHistory
  import opened CatalogTransactions
  import opened CatalogSerial
  import opened CatalogSerialTree
  import opened CatalogConcurrency
  import opened CatalogInput
  import opened Ordering
  import CatalogDrain

  /** Some legal events lead from one database to the other. */
  ghost predicate Connects(db: Database, end: Database) {
    exists events :: Legal(db, events) && Reached(db, events) == end
  }

  lemma ConnectsItself(db: Database)
    ensures Connects(db, db)
  {
    assert Legal(db, []) && Reached(db, []) == db;
  }

  lemma ConnectsAfter(db: Database, e: Event, end: Database)
    requires CanTake(db, e) && Connects(Take(db, e), end)
    ensures Connects(db, end)
  {
    hide Take, CanTake;
    var events :| Legal(Take(db, e), events) && Reached(Take(db, e), events) == end;
    assert ([e] + events)[1..] == events;
    assert Legal(db, [e] + events) && Reached(db, [e] + events) == end;
  }

  lemma {:induction false} ConnectsThrough(db: Database, events: seq<Event>, middle: Database, end: Database)
    requires Legal(db, events) && Reached(db, events) == middle && Connects(middle, end)
    ensures Connects(db, end)
    decreases |events|
  {
    hide Take, CanTake, Connects;
    if events != [] {
      ConnectsThrough(Take(db, events[0]), events[1..], middle, end);
      ConnectsAfter(db, events[0], end);
    }
  }

  lemma ConnectsTransitive(db: Database, middle: Database, end: Database)
    requires Connects(db, middle) && Connects(middle, end)
    ensures Connects(db, end)
  {
    var events :| Legal(db, events) && Reached(db, events) == middle;
    ConnectsThrough(db, events, middle, end);
  }

  ghost predicate OthersLockNothing(db: Database, tid: nat) {
    forall other :: other in db.open && other != tid ==> db.open[other].locks == {}
  }

  /** The replay query of a restore or control change was not outrun. */
  predicate NotOutrun(t: Transaction, s: State) {
    t.reply.Some? || t.at == 0 || !AlreadyRecorded(t.op, s)
  }

  /** A replay query that finds the row answers or throws at once. */
  lemma ReplayEndsAtOnce(t: Transaction, s: State)
    requires Knows(t, s) && t.reply == None && t.at == 0 && AlreadyRecorded(t.op, s)
    ensures var v := View(s, t.writes);
            var e := Statement(Acquiring(t, v), v);
            e.Proceeds? ==> e.transaction.reply.Some?
  {
    hide ReserveExtractionStatement, ConfirmExtractionStatement, RegisterStatement, ReserveRevisionStatement,
         ConfirmRevisionStatement, CreateStatement, InputStatement, ReservingExtraction, ConfirmingExtraction, Registering,
         ReservingRevision, ConfirmingRevision, Creating, Reading;
  }

  /** One more statement of a transaction nobody blocks. */
  lemma NextStatement(db: Database, tid: nat)
    requires Sound(db) && tid in db.open && db.open[tid].reply == None && OthersLockNothing(db, tid)
    requires NotOutrun(db.open[tid], db.committed)
    ensures CanTake(db, Execute(tid))
    ensures var next := Take(db, Execute(tid));
            Sound(next) && next.committed == db.committed && next.history == db.history &&
            if tid in next.open then
              next.open == db.open[tid := next.open[tid]] && next.open[tid].op == db.open[tid].op &&
              next.open[tid].at > db.open[tid].at && NotOutrun(next.open[tid], db.committed)
            else
              next.open == db.open - {tid} && Apply(db.committed, db.open[tid].op).state == db.committed
  {
    hide Inv, Knows, View, Statement, Wanted, Apply;
    var t, s := db.open[tid], db.committed;
    StatementSound(t, s);
    StatementKeepsLocks(Acquiring(t, View(s, t.writes)), View(s, t.writes));
    if t.at == 0 && AlreadyRecorded(t.op, s) {
      ReplayEndsAtOnce(t, s);
    }
    ExecuteKeeps(db, tid);
    hide Sound, AlreadyRecorded;
  }

  /** Run to its end with nobody in the way, a transaction does what its operation does in one step. */
  lemma {:induction false} RunsAlone(db: Database, tid: nat) returns (end: Database)
    requires Sound(db) && tid in db.open && OthersLockNothing(db, tid) && NotOutrun(db.open[tid], db.committed)
    ensures Connects(db, end) && Sound(end) && end.open == db.open - {tid}
    ensures end.committed == Apply(db.committed, db.open[tid].op).state
    ensures end.history == db.history || end.history == db.history + [db.open[tid].op]
    decreases if db.open[tid].reply == None then 13 - db.open[tid].at else -1
  {
    hide Sound, Apply, Take, CanTake, Connects, NotOutrun;
    if db.open[tid].reply != None {
      CommitsAlone(db, tid);
      end := Take(db, Commit(tid));
      ConnectsItself(end);
      ConnectsAfter(db, Commit(tid), end);
    } else {
      NextStatement(db, tid);
      StaysShort(db, tid);
      var next := Take(db, Execute(tid));
      if tid in next.open {
        assert OthersLockNothing(next, tid);
        end := RunsAlone(next, tid);
        assert next.open - {tid} == db.open - {tid};
      } else {
        end := next;
        ConnectsItself(end);
      }
      ConnectsAfter(db, Execute(tid), end);
    }
  }

  lemma StaysShort(db: Database, tid: nat)
    requires Sound(db) && tid in db.open && db.open[tid].reply == None
    ensures db.open[tid].at <= 12
  {
    hide Inv, Knows;
    OpenIsShort(db.open[tid], db.committed);
  }

  lemma CommitsAlone(db: Database, tid: nat)
    requires Sound(db) && tid in db.open && db.open[tid].reply != None
    ensures CanTake(db, Commit(tid))
    ensures var end := Take(db, Commit(tid));
            Sound(end) && end.open == db.open - {tid} &&
            end.committed == Apply(db.committed, db.open[tid].op).state &&
            end.history == db.history + [db.open[tid].op]
  {
    hide Sound, Apply, View;
    TakeKeeps(db, Commit(tid));
  }

  /** One operation from beginning to end beside transactions that hold no lock. */
  lemma OperationAlone(db: Database, tid: nat, op: Operation) returns (end: Database)
    requires Sound(db) && tid !in db.open && OthersLockNothing(db, tid)
    ensures Connects(db, end) && Sound(end) && end.open == db.open && end.committed == Apply(db.committed, op).state
    ensures db.history <= end.history
  {
    BeginsAlone(db, tid, op);
    hide Sound, Apply, Connects, Take, CanTake, OthersLockNothing, NotOutrun;
    var begun := Take(db, Begin(tid, op));
    assert begun.open[tid].op == op;
    end := RunsAlone(begun, tid);
    ConnectsAfter(db, Begin(tid, op), end);
  }

  lemma BeginsAlone(db: Database, tid: nat, op: Operation)
    requires Sound(db) && tid !in db.open && OthersLockNothing(db, tid)
    ensures CanTake(db, Begin(tid, op))
    ensures Sound(Take(db, Begin(tid, op)))
    ensures Take(db, Begin(tid, op)) == db.(open := db.open[tid := Started(op)])
    ensures OthersLockNothing(Take(db, Begin(tid, op)), tid)
    ensures db.open[tid := Started(op)] - {tid} == db.open
    ensures NotOutrun(Started(op), db.committed)
  {
    hide Sound, AlreadyRecorded;
    BeginKeeps(db, tid, op);
    AddedAndRemoved(db.open, tid, Started(op));
  }

  lemma AddedAndRemoved(open: map<nat, Transaction>, tid: nat, t: Transaction)
    requires tid !in open
    ensures open[tid := t] - {tid} == open
  {
  }

  lemma {:induction false} OperationsAlone(db: Database, tid: nat, ops: seq<Operation>) returns (end: Database)
    requires Sound(db) && tid !in db.open && OthersLockNothing(db, tid)
    ensures Connects(db, end) && Sound(end) && end.open == db.open && end.committed == Run(db.committed, ops)
    ensures db.history <= end.history
    decreases |ops|
  {
    hide Sound, Apply, Connects;
    if ops == [] {
      end := db;
      ConnectsItself(db);
    } else {
      var middle := OperationAlone(db, tid, ops[0]);
      end := OperationsAlone(middle, tid, ops[1..]);
      ConnectsTransitive(db, middle, end);
    }
  }

  /** The rows that interleavings can leave are exactly the rows that atomic runs can leave. */
  lemma InterleavingsReachAtomicStates(installedAt: int, s: State)
    ensures (exists db :: Possible(installedAt, db) && db.committed == s) <==>
            (exists ops :: s == Run(InitialState(installedAt), ops))
  {
    hide Run, Legal, Reached, Sound;
    if db :| Possible(installedAt, db) && db.committed == s {
      EveryInterleavingIsSerial(installedAt, db);
    }
    if ops :| s == Run(InitialState(installedAt), ops) {
      var db := SerialDatabase(installedAt, ops);
    }
  }

  lemma SerialDatabase(installedAt: int, ops: seq<Operation>) returns (db: Database)
    ensures Possible(installedAt, db) && Sound(db)
    ensures db.open == map[] && db.committed == Run(InitialState(installedAt), ops)
  {
    FreshIsSound(installedAt);
    hide Run, Sound, Legal, Reached;
    db := OperationsAlone(Fresh(installedAt), 0, ops);
  }

  // ---- a torn maintenance input ----

  ghost function RoundOperations(c: Creation): seq<Operation> {
    [OpReserveRevision(c), OpConfirmRevision(c), OpCreate(c)]
  }

  lemma RoundRuns(s: State, limit: nat, a: CatalogDrain.Attempt, c: Creation)
    requires CatalogDrain.RoundCreation(s, limit, a, c)
    ensures Run(s, RoundOperations(c)) == CatalogDrain.Round(s, limit, a).state
  {
    hide ReserveRevision, ConfirmRevision, CreateRevision, InputFor, CatalogDrain.CreationFor;
    RunThree(s, OpReserveRevision(c), OpConfirmRevision(c), OpCreate(c));
  }

  lemma RunThree(s: State, first: Operation, second: Operation, third: Operation)
    ensures Run(s, [first, second, third]) == Apply(Apply(Apply(s, first).state, second).state, third).state
  {
    hide Apply;
    var s1 := Apply(s, first).state;
    var s2 := Apply(s1, second).state;
    assert Run(s, [first, second, third]) == Run(s1, [second, third]);
    assert Run(s1, [second, third]) == Run(s2, [third]);
    assert Run(s2, [third]) == Run(Apply(s2, third).state, []);
  }

  /** Observations are pending, maintenance may run, and the attempt brings a fresh id. */
  ghost predicate RoundPossible(s: State, limit: nat, a: CatalogDrain.Attempt) {
    s.control.state == Enabled && InputFor(s, limit).Some? && CatalogDrain.Fresh(s.revisionPublications, a.maintenanceId)
  }

  /** The reader is about to return what no read of a single state, from the given one on, would have given. */
  ghost predicate TornReader(installedAt: int, since: nat, db: Database, limit: nat) {
    0 in db.open && CanTake(db, Commit(0)) && db.open[0].op == OpGetInput(limit) && db.open[0].reply.value.Input? &&
    forall n: nat :: since <= n <= |db.history| ==>
      db.open[0].reply.value.input != InputFor(StateAfter(installedAt, db.history, n), limit)
  }

  /**
   * Interleaving really shows in this reply: wherever observations are pending and maintenance is
   * enabled, a reader that is overtaken by one round returns an input that no committed state gives,
   * from the one before the round to the one after it.
   */
  lemma TornInputHappens(installedAt: int, ops: seq<Operation>, limit: nat, a: CatalogDrain.Attempt)
    requires RoundPossible(Run(InitialState(installedAt), ops), limit, a)
    ensures exists db, since: nat ::
              Possible(installedAt, db) && since <= |db.history| &&
              StateAfter(installedAt, db.history, since) == Run(InitialState(installedAt), ops) &&
              TornReader(installedAt, since, db, limit)
  {
    hide Run, Legal, Reached, Sound, RoundPossible, TornReader;
    var empty := SerialDatabase(installedAt, ops);
    var db := OvertakenReader(empty, limit, a);
    assert Connects(Fresh(installedAt), empty);
    ConnectsTransitive(Fresh(installedAt), empty, db);
    assert Possible(installedAt, db);
    EveryInterleavingIsSerial(installedAt, empty);
    EveryInterleavingIsSerial(installedAt, db);
    assert db.history[..|empty.history|] == empty.history;
    OvertakenIsTorn(installedAt, empty, db, limit, a);
  }

  /** The reader saw the oldest observations before the round and the pointer after it. */
  ghost predicate OvertakenBy(db: Database, s: State, limit: nat, a: CatalogDrain.Attempt) {
    db.committed == CatalogDrain.Round(s, limit, a).state && 0 in db.open && db.open[0].op == OpGetInput(limit) &&
    db.open[0].reply == Some(Input(JoinedInput(s, db.committed, limit)))
  }

  lemma OvertakenReader(empty: Database, limit: nat, a: CatalogDrain.Attempt) returns (db: Database)
    requires Sound(empty) && empty.open == map[] && RoundPossible(empty.committed, limit, a)
    ensures Connects(empty, db) && OvertakenBy(db, empty.committed, limit, a) && empty.history <= db.history
  {
    hide Sound, Run, Connects, InputFor, JoinedInput, CatalogDrain.CreationFor, CatalogDrain.Round, CatalogDrain.Fresh, Take, Inv;
    var s := empty.committed;
    var c := CatalogDrain.CreationFor(InputFor(s, limit).value, a);
    var round := Overtaken(empty, limit, a, c);
    db := ReadsTwice(round, s, limit);
    ConnectsTransitive(empty, round, db);
  }

  lemma OvertakenIsTorn(installedAt: int, empty: Database, db: Database, limit: nat, a: CatalogDrain.Attempt)
    requires Inv(empty.committed) && RoundPossible(empty.committed, limit, a) && OvertakenBy(db, empty.committed, limit, a)
    requires empty.history <= db.history && empty.committed == Run(InitialState(installedAt), empty.history)
    requires db.committed == Run(InitialState(installedAt), db.history)
    ensures TornReader(installedAt, |empty.history|, db, limit)
  {
    hide Run, Inv, Extends, InputFor, JoinedInput, OldestPending, CatalogDrain.Round, CatalogDrain.Fresh,
         CatalogDrain.CreationFor, ReadableAt;
    var s, since := empty.committed, |empty.history|;
    var c := CatalogDrain.CreationFor(InputFor(s, limit).value, a);
    RoundConsumesOldest(s, limit, a, c);
    assert db.history[..since] == empty.history && db.history[..|db.history|] == db.history;
    forall n: nat | since <= n <= |db.history|
      ensures JoinedInput(s, db.committed, limit) != InputFor(StateAfter(installedAt, db.history, n), limit)
    {
      PrefixesExtend(installedAt, db.history, since, n);
      PrefixesExtend(installedAt, db.history, n, |db.history|);
      JoinedIsAtomic(s, StateAfter(installedAt, db.history, n), db.committed, limit);
      NotReadableBetween(s, StateAfter(installedAt, db.history, n), db.committed, limit);
    }
  }

  /** The round moved the pointer to the revision that consumed the oldest observation. */
  ghost predicate OldestConsumed(s: State, t: State, limit: nat) {
    var q := OldestPending(s.observations, limit);
    q != [] && t.active > 0 && q[0].id in ConsumedBy(t.observations, t.active)
  }

  lemma RoundConsumesOldest(s: State, limit: nat, a: CatalogDrain.Attempt, c: Creation)
    requires Inv(s) && s.control.state == Enabled && CatalogDrain.Fresh(s.revisionPublications, a.maintenanceId)
    requires CatalogDrain.RoundCreation(s, limit, a, c)
    ensures OldestConsumed(s, CatalogDrain.Round(s, limit, a).state, limit)
  {
    hide Inv, CatalogDrain.Fresh, CatalogDrain.Round, CatalogDrain.CreationFor, OldestPending;
    RoundMovesPointer(s, limit, a, c);
    CatalogDrain.RoundReady(s, limit, a, c);
    CatalogDrain.RoundTables(s, limit, a, c);
    var q := OldestPending(s.observations, limit);
    assert q[0] in q && c.source.extractionIds[0] == q[0].id;
    assert q[0].id in c.source.extractionIds;
  }

  /** Where the pointer is already the round's, the oldest observation is no longer pending. */
  lemma NotReadableBetween(s: State, at: State, t: State, limit: nat)
    requires Inv(at) && Extends(at, t) && OldestConsumed(s, t, limit)
    ensures !ReadableAt(OldestPending(s.observations, limit), at, t, limit)
  {
    hide ExtractionLedger, RevisionLedger, Consumption, RestoreLedger, ControlLedger, OldestPending, Predecessors,
         ExtractionSelectionsKept, RevisionSelectionsKept, ObservationsKept, RowsKept, PendingKeys;
    var q := OldestPending(s.observations, limit);
    if at.active == t.active {
      assert ConsumedBy(at.observations, at.active) == ConsumedBy(t.observations, t.active);
      assert q[0] in q && q[0].id in ConsumedBy(at.observations, at.active);
    }
  }

  lemma CommittedIsSound(db: Database)
    requires Sound(db)
    ensures Inv(db.committed)
  {
  }

  lemma Overtaken(empty: Database, limit: nat, a: CatalogDrain.Attempt, c: Creation) returns (round: Database)
    requires Sound(empty) && empty.open == map[] && CatalogDrain.RoundCreation(empty.committed, limit, a, c)
    ensures Connects(empty, round) && round.open == map[0 := ReaderAt(empty.committed, limit)]
    ensures empty.history <= round.history
    ensures round.committed == CatalogDrain.Round(empty.committed, limit, a).state
  {
    hide Sound, Run, Connects, InputFor, CatalogDrain.Round, CatalogDrain.RoundCreation, RoundOperations, ReaderAt,
         OthersLockNothing;
    RoundHasInput(empty.committed, limit, a, c);
    RoundRuns(empty.committed, limit, a, c);
    var once := ReadsOnce(empty, limit);
    ReaderLocksNothing(once, empty.committed, limit);
    round := OperationsAlone(once, 1, RoundOperations(c));
    ConnectsTransitive(empty, once, round);
  }

  lemma ReaderLocksNothing(once: Database, s: State, limit: nat)
    requires once.open == map[0 := ReaderAt(s, limit)]
    ensures OthersLockNothing(once, 1)
  {
  }

  lemma RoundHasInput(s: State, limit: nat, a: CatalogDrain.Attempt, c: Creation)
    requires CatalogDrain.RoundCreation(s, limit, a, c)
    ensures InputFor(s, limit).Some?
  {
  }

  lemma ReadsOnce(empty: Database, limit: nat) returns (once: Database)
    requires Sound(empty) && empty.open == map[] && InputFor(empty.committed, limit).Some?
    ensures Connects(empty, once) && Sound(once) && once.committed == empty.committed && once.history == empty.history
    ensures once.open == map[0 := ReaderAt(empty.committed, limit)]
  {
    BeginsAlone(empty, 0, OpGetInput(limit));
    var begun := Take(empty, Begin(0, OpGetInput(limit)));
    assert begun.open[0] == Started(OpGetInput(limit));
    hide Sound, Connects, Started;
    FirstRead(begun, limit);
    hide Take, CanTake;
    once := Take(begun, Execute(0));
    ConnectsItself(once);
    ConnectsAfter(begun, Execute(0), once);
    ConnectsAfter(empty, Begin(0, OpGetInput(limit)), once);
  }

  lemma FirstRead(begun: Database, limit: nat)
    requires Sound(begun) && begun.open == map[0 := Started(OpGetInput(limit))]
    requires InputFor(begun.committed, limit).Some?
    ensures CanTake(begun, Execute(0))
    ensures var once := Take(begun, Execute(0));
            Sound(once) && once.committed == begun.committed && once.history == begun.history &&
            once.open == map[0 := ReaderAt(begun.committed, limit)]
  {
    hide Inv, Knows, OldestPending;
    var t := begun.open[0];
    assert View(begun.committed, t.writes) == begun.committed;
    assert t.(locks := t.locks + {}) == t;
    ExecuteKeeps(begun, 0);
  }

  /** A reader between its two statements. */
  function ReaderAt(s: State, limit: nat): Transaction {
    Started(OpGetInput(limit)).(at := 1, seen := ObservationView(s.observations, OldestPending(s.observations, limit)))
  }

  lemma ReadsTwice(round: Database, s: State, limit: nat) returns (db: Database)
    requires round.open == map[0 := ReaderAt(s, limit)] && InputFor(s, limit).Some?
    ensures Connects(round, db) && db.committed == round.committed && db.history == round.history
    ensures 0 in db.open && db.open[0].op == OpGetInput(limit)
    ensures db.open[0].reply == Some(Input(JoinedInput(s, round.committed, limit)))
  {
    hide Connects, OldestPending;
    var t := round.open[0];
    assert View(round.committed, t.writes) == round.committed;
    assert t.(locks := t.locks + {}) == t;
    assert CanTake(round, Execute(0));
    db := Take(round, Execute(0));
    ConnectsItself(db);
    ConnectsAfter(round, Execute(0), db);
  }

  lemma RoundMovesPointer(s: State, limit: nat, a: CatalogDrain.Attempt, c: Creation)
    requires Inv(s) && s.control.state == Enabled && CatalogDrain.Fresh(s.revisionPublications, a.maintenanceId)
    requires CatalogDrain.RoundCreation(s, limit, a, c)
    ensures CatalogDrain.Round(s, limit, a).state.active == MaxRevision(s.revisions.Keys) + 1
  {
    hide Inv, CatalogDrain.Fresh, CatalogDrain.Round, CatalogDrain.RoundCreation, Consume;
    CatalogDrain.RoundCommits(s, limit, a, c);
  }

  // ---- an outrun replay query ----

  /** A transaction about to fail although its operation has been recorded since it asked. */
  ghost predicate OutrunReplay(db: Database, tid: nat, op: Operation) {
    tid in db.open && db.open[tid].op == op && db.open[tid].at > 0 && AlreadyRecorded(op, db.committed) &&
    CanTake(db, Execute(tid)) && Throwing(db, tid)
  }

  /**
   * The exception to atomic errors occurs wherever it can: after any run that lets a restore or a
   * control change commit, a second transaction of the same operation can ask, be overtaken by the
   * first and fail, while as one step it would answer with the recorded result.
   */
  lemma OutrunReplayHappens(installedAt: int, ops: seq<Operation>, op: Operation)
    requires op.OpRestore? || op.OpControl?
    requires Committed(Apply(Run(InitialState(installedAt), ops), op).reply)
    ensures exists db ::
              Possible(installedAt, db) && OutrunReplay(db, 0, op) &&
              Apply(db.committed, op) ==
              Outcome(db.committed, Replayed(Apply(Run(InitialState(installedAt), ops), op).reply))
  {
    hide Run, Legal, Reached, Sound, OutrunReplay, Apply, Replayed, Committed, Inv;
    var empty := SerialDatabase(installedAt, ops);
    CommittedIsSound(empty);
    var s := empty.committed;
    NotRecordedYet(s, op);
    var asked := Asks(empty, op);
    var overtaken := OperationAlone(asked, 1, op);
    CommittedIsSound(overtaken);
    ApplyKeeps(s, op);
    ExtendsItself(Apply(s, op).state);
    hide Extends;
    ReplaysInExtension(s, op, Apply(s, op).state, op);
    var db := Outrun(overtaken, s, op);
    ConnectsTransitive(empty, asked, overtaken);
    ConnectsTransitive(empty, overtaken, db);
    assert Connects(Fresh(installedAt), empty);
    ConnectsTransitive(Fresh(installedAt), empty, db);
    assert Possible(installedAt, db);
  }

  lemma NotRecordedYet(s: State, op: Operation)
    requires (op.OpRestore? || op.OpControl?) && Committed(Apply(s, op).reply)
    ensures !AlreadyRecorded(op, s) && SameRequest(op, op)
  {
  }

  /** A transaction whose replay query found nothing. */
  function AskedOnce(op: Operation): Transaction {
    Started(op).(at := 1)
  }

  lemma Asks(empty: Database, op: Operation) returns (asked: Database)
    requires Sound(empty) && empty.open == map[] && (op.OpRestore? || op.OpControl?)
    requires !AlreadyRecorded(op, empty.committed)
    ensures Connects(empty, asked) && Sound(asked) && asked.committed == empty.committed
    ensures asked.open == map[0 := AskedOnce(op)] && OthersLockNothing(asked, 1)
  {
    hide Sound, Connects, AlreadyRecorded, Inv;
    BeginsAlone(empty, 0, op);
    var begun := Take(empty, Begin(0, op));
    assert begun.open[0] == Started(op);
    FirstQuery(begun, op);
    hide Take, CanTake;
    asked := Take(begun, Execute(0));
    ConnectsItself(asked);
    ConnectsAfter(begun, Execute(0), asked);
    ConnectsAfter(empty, Begin(0, op), asked);
  }

  lemma FirstQuery(begun: Database, op: Operation)
    requires Sound(begun) && begun.open == map[0 := Started(op)] && (op.OpRestore? || op.OpControl?)
    requires !AlreadyRecorded(op, begun.committed)
    ensures CanTake(begun, Execute(0))
    ensures var asked := Take(begun, Execute(0));
            Sound(asked) && asked.committed == begun.committed && asked.open == map[0 := AskedOnce(op)]
  {
    hide Inv, Knows;
    var t := begun.open[0];
    assert View(begun.committed, t.writes) == begun.committed;
    assert t.(locks := t.locks + {}) == t;
    ExecuteKeeps(begun, 0);
  }

  /** The overtaken transaction goes on to the statement that fails. */
  lemma Outrun(overtaken: Database, s: State, op: Operation) returns (db: Database)
    requires overtaken.open == map[0 := AskedOnce(op)] && (op.OpRestore? || op.OpControl?)
    requires overtaken.committed == Apply(s, op).state && Committed(Apply(s, op).reply)
    ensures Connects(overtaken, db) && db.committed == overtaken.committed && OutrunReplay(db, 0, op)
  {
    hide Connects;
    if op.OpRestore? && op.restore.expectedActive == op.restore.restoredRevision {
      db := SecondRow(overtaken, op.restore);
    } else {
      db := overtaken;
      ConnectsItself(db);
      MovedMeanwhile(db, s, op);
    }
  }

  lemma MovedMeanwhile(db: Database, s: State, op: Operation)
    requires db.open == map[0 := AskedOnce(op)] && (op.OpRestore? || op.OpControl?)
    requires db.committed == Apply(s, op).state && Committed(Apply(s, op).reply)
    requires op.OpRestore? ==> op.restore.expectedActive != op.restore.restoredRevision
    ensures OutrunReplay(db, 0, op)
  {
    assert View(db.committed, db.open[0].writes) == db.committed;
  }

  /** A restore of the active revision itself passes every check until its row is there already. */
  lemma SecondRow(overtaken: Database, o: Restore) returns (db: Database)
    requires overtaken.open == map[0 := AskedOnce(OpRestore(o))] && o.operationId in overtaken.committed.restores
    requires overtaken.committed.active == o.expectedActive == o.restoredRevision
    requires o.restoredRevision in overtaken.committed.revisions
    ensures Connects(overtaken, db) && db.committed == overtaken.committed && OutrunReplay(db, 0, OpRestore(o))
  {
    hide Connects;
    var locked := PassesCheck(overtaken, o, 1, {});
    assert {} + {TreeLock} == {TreeLock};
    db := PassesCheck(locked, o, 2, {TreeLock});
    ConnectsItself(db);
    ConnectsTransitive(overtaken, locked, db);
    assert View(db.committed, db.open[0].writes) == db.committed;
  }

  lemma PassesCheck(before: Database, o: Restore, at: nat, locks: set<Lock>) returns (after: Database)
    requires before.open == map[0 := Started(OpRestore(o)).(at := at, locks := locks)] && 1 <= at <= 2
    requires before.committed.active == o.expectedActive == o.restoredRevision
    requires o.restoredRevision in before.committed.revisions
    ensures Connects(before, after) && after.committed == before.committed
    ensures after.open == map[0 := Started(OpRestore(o)).(at := at + 1, locks := locks + if at == 1 then {TreeLock} else {})]
  {
    hide Connects;
    assert View(before.committed, before.open[0].writes) == before.committed;
    assert CanTake(before, Execute(0));
    after := Take(before, Execute(0));
    ConnectsItself(after);
    ConnectsAfter(before, Execute(0), after);
  }
}
