/** Any interleaving of catalog transactions: serializable in commit order, traceless aborts, no deadlock. */
module CatalogConcurrency {
  import opened Basics
  import opened CatalogTypes
  import opened CatalogSpec
  import opened CatalogInvariant
  import opened CatalogHistory
  import opened CatalogTransactions
  import opened CatalogProtection
  import opened CatalogSerial
  import opened CatalogSerialTree
  import opened Ordering

  /** What an open transaction knows, whatever its operation. */
  ghost predicate Knows(t: Transaction, s: State) {
    match t.op
    case OpReserveExtraction(intent) => ReservingExtraction(t, s, intent)
    case OpConfirmExtraction(intent) => ConfirmingExtraction(t, s, intent)
    case OpRegister(r, now) => Registering(t, s, r, now)
    case OpReserveRevision(c) => ReservingRevision(t, s, c)
    case OpConfirmRevision(c) => ConfirmingRevision(t, s, c)
    case OpCreate(c) => Creating(t, s, c)
    case OpRestore(o) => Restoring(t, s, o)
    case OpControl(o, now) => Controlling(t, s, o, now)
    case OpGetInput(limit) => Reading(t)
  }

  ghost predicate Exclusive(open: map<nat, Transaction>) {
    forall a, b :: a in open && b in open && a != b ==> open[a].locks !! open[b].locks
  }

  ghost predicate Sound(db: Database) {
    Inv(db.committed) && Exclusive(db.open) && forall tid :: tid in db.open ==> Knows(db.open[tid], db.committed)
  }

  // ---- one statement ----

  /** The operation id already has its row: a repetition has committed. */
  predicate AlreadyRecorded(op: Operation, s: State) {
    match op
    case OpRestore(o) => o.operationId in s.restores
    case OpControl(o, _) => o.operationId in s.controlChanges
    case _ => false
  }

  lemma StatementSound(t: Transaction, s: State)
    requires Knows(t, s) && t.reply == None && Inv(s)
    ensures var v := View(s, t.writes);
            var e := Statement(Acquiring(t, v), v);
            (e.Proceeds? ==> e.transaction.op == t.op && Knows(e.transaction, s)) &&
            (e.Throws? ==> (Apply(s, t.op) == Fail(s, e.failure) <==> t.at == 0 || !AlreadyRecorded(t.op, s)))
  {
    hide Inv, View, Wanted, ReserveExtraction, ConfirmExtraction, RegisterExtraction, ReserveRevision, ConfirmRevision,
         CreateRevision, RestoreTree, ChangeControl, InputFor, ReserveExtractionStatement, ConfirmExtractionStatement,
         RegisterStatement, ReserveRevisionStatement, ConfirmRevisionStatement, CreateStatement, RestoreStatement,
         ControlStatement, InputStatement, ReservingExtraction, ConfirmingExtraction, Registering, ReservingRevision,
         ConfirmingRevision, Creating, Restoring, Controlling, Reading;
    match t.op
    case OpReserveExtraction(intent) => ReservingExtractionSteps(t, s, intent);
    case OpConfirmExtraction(intent) => ConfirmingExtractionSteps(t, s, intent);
    case OpRegister(r, now) => RegisteringSteps(t, s, r, now);
    case OpReserveRevision(c) => ReservingRevisionSteps(t, s, c);
    case OpConfirmRevision(c) => ConfirmingRevisionSteps(t, s, c);
    case OpCreate(c) => CreatingSteps(t, s, c);
    case OpRestore(o) => RestoringSteps(t, s, o);
    case OpControl(o, now) => ControllingSteps(t, s, o, now);
    case OpGetInput(limit) => ReadingSteps(t, s, limit);
  }

  lemma StatementKeepsLocks(t: Transaction, v: State)
    ensures KeepsLocks(t, Statement(t, v))
  {
    hide ReserveExtractionStatement, ConfirmExtractionStatement, RegisterStatement, ReserveRevisionStatement,
         ConfirmRevisionStatement, CreateStatement, RestoreStatement, ControlStatement, InputStatement;
    match t.op
    case OpReserveExtraction(intent) => ReserveExtractionKeepsLocks(t, v, intent);
    case OpConfirmExtraction(intent) => ConfirmExtractionKeepsLocks(t, v, intent);
    case OpRegister(r, now) => RegisterKeepsLocks(t, v, r, now);
    case OpReserveRevision(c) => ReserveRevisionKeepsLocks(t, v, c);
    case OpConfirmRevision(c) => ConfirmRevisionKeepsLocks(t, v, c);
    case OpCreate(c) => CreateKeepsLocks(t, v, c);
    case OpRestore(o) => RestoreKeepsLocks(t, v, o);
    case OpControl(o, now) => ControlKeepsLocks(t, v, o, now);
    case OpGetInput(limit) => InputKeepsLocks(t, v, limit);
  }

  predicate KeepsLocks(t: Transaction, e: Effect) {
    e.Proceeds? ==> e.transaction.locks == t.locks && e.transaction.at > t.at
  }

  lemma ReserveExtractionKeepsLocks(t: Transaction, v: State, intent: ExtractionIntent)
    ensures KeepsLocks(t, ReserveExtractionStatement(t, v, intent))
  {
  }

  lemma ConfirmExtractionKeepsLocks(t: Transaction, v: State, intent: ExtractionIntent)
    ensures KeepsLocks(t, ConfirmExtractionStatement(t, v, intent))
  {
  }

  lemma RegisterKeepsLocks(t: Transaction, v: State, r: Registration, now: int)
    ensures KeepsLocks(t, RegisterStatement(t, v, r, now))
  {
    hide OtherExtractionSelected, ExtractionConfirmed, SameExtraction;
  }

  lemma ReserveRevisionKeepsLocks(t: Transaction, v: State, c: Creation)
    ensures KeepsLocks(t, ReserveRevisionStatement(t, v, c))
  {
  }

  lemma ConfirmRevisionKeepsLocks(t: Transaction, v: State, c: Creation)
    ensures KeepsLocks(t, ConfirmRevisionStatement(t, v, c))
  {
  }

  lemma CreateKeepsLocks(t: Transaction, v: State, c: Creation)
    ensures KeepsLocks(t, CreateStatement(t, v, c))
  {
    hide OtherRevisionSelected, RevisionConfirmed, HasRevision, SameRevision, ConsumedBy, AllPending, ConsumedRows, MaxRevision;
  }

  lemma RestoreKeepsLocks(t: Transaction, v: State, o: Restore)
    ensures KeepsLocks(t, RestoreStatement(t, v, o))
  {
  }

  lemma ControlKeepsLocks(t: Transaction, v: State, o: ControlChange, now: int)
    ensures KeepsLocks(t, ControlStatement(t, v, o, now))
  {
  }

  lemma InputKeepsLocks(t: Transaction, v: State, limit: nat)
    ensures KeepsLocks(t, InputStatement(t, v, limit))
  {
    hide OldestPending;
  }

  // ---- the commit ----

  lemma CommitSound(t: Transaction, s: State)
    requires Knows(t, s) && t.reply.Some? && Inv(s)
    ensures View(s, t.writes) == Apply(s, t.op).state
    ensures !t.op.OpGetInput? ==> t.reply.value == Apply(s, t.op).reply
    ensures Covering(t.op) <= t.locks || Apply(s, t.op).state == s
  {
    hide Inv, View, ReserveExtraction, ConfirmExtraction, RegisterExtraction, ReserveRevision, ConfirmRevision,
         CreateRevision, RestoreTree, ChangeControl, InputFor, ReservingExtraction, ConfirmingExtraction, Registering,
         ReservingRevision, ConfirmingRevision, Creating, Restoring, Controlling, Covering;
    match t.op
    case OpReserveExtraction(intent) => ReservingExtractionCommits(t, s, intent);
    case OpConfirmExtraction(intent) => ConfirmingExtractionCommits(t, s, intent);
    case OpRegister(r, now) => RegisteringCommits(t, s, r, now);
    case OpReserveRevision(c) => ReservingRevisionCommits(t, s, c);
    case OpConfirmRevision(c) => ConfirmingRevisionCommits(t, s, c);
    case OpCreate(c) => CreatingCommits(t, s, c);
    case OpRestore(o) => RestoringCommits(t, s, o);
    case OpControl(o, now) => ControllingCommits(t, s, o, now);
    case OpGetInput(limit) => ReadingCommits(t, s, limit);
  }

  lemma ReadingCommits(t: Transaction, s: State, limit: nat)
    requires Reading(t)
    ensures View(s, t.writes) == s == GetInput(s, limit).state
  {
    hide InputFor;
  }

  lemma KnowledgeStays(t: Transaction, s: State, s': State)
    requires Knows(t, s) && Follows(s, s', t.locks)
    ensures Knows(t, s')
  {
    hide Follows, ReservingExtraction, ConfirmingExtraction, Registering, ReservingRevision,
         ConfirmingRevision, Creating, Restoring, Controlling, Reading;
    match t.op
    case OpReserveExtraction(intent) => ReservingExtractionStays(t, s, s', intent);
    case OpConfirmExtraction(intent) => ConfirmingExtractionStays(t, s, s', intent);
    case OpRegister(r, now) => RegisteringStays(t, s, s', r, now);
    case OpReserveRevision(c) => ReservingRevisionStays(t, s, s', c);
    case OpConfirmRevision(c) => ConfirmingRevisionStays(t, s, s', c);
    case OpCreate(c) => CreatingStays(t, s, s', c);
    case OpRestore(o) => RestoringStays(t, s, s', o);
    case OpControl(o, now) => ControllingStays(t, s, s', o, now);
    case OpGetInput(limit) =>
  }

  /** What one transaction commits is invisible to everything another one has locked. */
  lemma OthersFollow(u: Transaction, t: Transaction, s: State)
    requires Inv(s) && Knows(u, s) && u.reply.Some? && u.locks !! t.locks
    ensures Follows(s, View(s, u.writes), t.locks)
  {
    hide Inv, Knows, Apply, View, Covering, Protected, Extends, KeysGrow;
    CommitSound(u, s);
    var s' := Apply(s, u.op).state;
    ApplyKeeps(s, u.op);
    ApplyExtends(s, u.op);
    ApplyKeysGrow(s, u.op);
    forall l | l in t.locks ensures Protected(l, s, s') {
      if s' == s {
        NothingChanges(s, l);
      } else {
        CommitRespectsLocks(s, u.op, l);
      }
    }
  }

  // ---- every event keeps the database sound ----

  lemma BeginKeeps(db: Database, tid: nat, op: Operation)
    requires Sound(db) && tid !in db.open
    ensures Sound(Take(db, Begin(tid, op)))
  {
    hide Inv;
    var open' := db.open[tid := Started(op)];
    assert Idle(open'[tid]);
    assert Knows(open'[tid], db.committed);
  }

  lemma ExecuteKeeps(db: Database, tid: nat)
    requires Sound(db) && CanTake(db, Execute(tid))
    ensures Sound(Take(db, Execute(tid)))
  {
    hide Inv, Knows, Statement, View, Wanted;
    var t, s := db.open[tid], db.committed;
    StatementSound(t, s);
    StatementKeepsLocks(Acquiring(t, View(s, t.writes)), View(s, t.writes));
  }

  lemma CommitKeeps(db: Database, tid: nat)
    requires Sound(db) && CanTake(db, Commit(tid))
    ensures Sound(Take(db, Commit(tid)))
    ensures Take(db, Commit(tid)).committed == Apply(db.committed, db.open[tid].op).state
  {
    hide Inv, Knows, Apply, View, Follows;
    var t, s := db.open[tid], db.committed;
    CommitSound(t, s);
    ApplyKeeps(s, t.op);
    var s' := View(s, t.writes);
    forall other | other in db.open && other != tid ensures Knows(db.open[other], s') {
      OthersFollow(t, db.open[other], s);
      KnowledgeStays(db.open[other], s, s');
    }
  }

  lemma TakeKeeps(db: Database, e: Event)
    requires Sound(db) && CanTake(db, e)
    ensures Sound(Take(db, e))
    ensures if e.Commit? then
              Take(db, e).committed == Apply(db.committed, db.open[e.tid].op).state &&
              Take(db, e).history == db.history + [db.open[e.tid].op]
            else Take(db, e).committed == db.committed && Take(db, e).history == db.history
  {
    hide Inv, Knows, Apply, View, Statement, Wanted;
    match e
    case Begin(tid, op) => BeginKeeps(db, tid, op);
    case Execute(tid) => ExecuteKeeps(db, tid);
    case Commit(tid) => CommitKeeps(db, tid);
    case Disconnect(tid) =>
  }

  // ---- serializability ----

  lemma {:induction false} InterleavingsAreSerial(start: State, db: Database, events: seq<Event>)
    requires Legal(db, events) && Sound(db) && db.committed == Run(start, db.history)
    ensures var end := Reached(db, events); Sound(end) && end.committed == Run(start, end.history)
    decreases |events|
  {
    hide Sound, Apply, Take, CanTake;
    if events != [] {
      TakeKeeps(db, events[0]);
      if events[0].Commit? {
        OpenToCommit(db, events[0].tid);
        RunSnoc(start, db.history, db.open[events[0].tid].op);
      }
      InterleavingsAreSerial(start, Take(db, events[0]), events[1..]);
    }
  }

  lemma OpenToCommit(db: Database, tid: nat)
    requires CanTake(db, Commit(tid))
    ensures tid in db.open
  {
  }

  /** A database some legal interleaving leads to. */
  ghost predicate Possible(installedAt: int, db: Database) {
    exists events :: Legal(Fresh(installedAt), events) && Reached(Fresh(installedAt), events) == db
  }

  /**
   * Whatever the interleaving, the committed rows are those left by running the committed
   * operations one after another, each as a single step, in the order of their commits.
   */
  lemma EveryInterleavingIsSerial(installedAt: int, db: Database)
    requires Possible(installedAt, db)
    ensures db.committed == Run(InitialState(installedAt), db.history)
    ensures Sound(db)
  {
    var events :| Legal(Fresh(installedAt), events) && Reached(Fresh(installedAt), events) == db;
    FreshIsSound(installedAt);
    InterleavingsAreSerial(InitialState(installedAt), Fresh(installedAt), events);
  }

  lemma FreshIsSound(installedAt: int)
    ensures Sound(Fresh(installedAt)) && Fresh(installedAt).committed == Run(InitialState(installedAt), [])
  {
    InitialInv(installedAt);
    hide Inv;
  }

  /** A transaction that reaches its commit answers what its operation answers as one step on the committed rows. */
  lemma CommittedReplyIsAtomic(installedAt: int, db: Database, tid: nat)
    requires Possible(installedAt, db) && CanTake(db, Commit(tid)) && !db.open[tid].op.OpGetInput?
    ensures Outcome(Take(db, Commit(tid)).committed, db.open[tid].reply.value) ==
            Apply(Run(InitialState(installedAt), db.history), db.open[tid].op)
  {
    EveryInterleavingIsSerial(installedAt, db);
    hide Inv, Knows, Apply, View, Run, Possible;
    CommitSound(db.open[tid], db.committed);
  }

  /**
   * A statement that throws, and a lost connection, leave no trace: the committed rows and every
   * other transaction stay as they are. The error is the one the operation as a single step gives on
   * the rows committed at that moment, unless the operation is a restore or control change whose
   * repetition has committed since its unlocked replay query, and then it is not.
   */
  lemma AbortsLeaveNoTrace(installedAt: int, db: Database, tid: nat)
    requires Possible(installedAt, db) && tid in db.open
    ensures Take(db, Disconnect(tid)) == db.(open := db.open - {tid})
    ensures CanTake(db, Execute(tid)) && Throwing(db, tid) ==>
              Take(db, Execute(tid)) == db.(open := db.open - {tid}) &&
              (Apply(db.committed, db.open[tid].op) == Fail(db.committed, ThrownBy(db, tid)) <==>
                 db.open[tid].at == 0 || !AlreadyRecorded(db.open[tid].op, db.committed))
  {
    EveryInterleavingIsSerial(installedAt, db);
    hide Inv, Knows, Apply, View, Run, Possible, Statement, Wanted;
    if CanTake(db, Execute(tid)) {
      StatementSound(db.open[tid], db.committed);
    }
  }

  ghost predicate Throwing(db: Database, tid: nat)
    requires tid in db.open
  {
    var t := db.open[tid];
    var v := View(db.committed, t.writes);
    Statement(Acquiring(t, v), v).Throws?
  }

  ghost function ThrownBy(db: Database, tid: nat): Failure
    requires tid in db.open && Throwing(db, tid)
  {
    var t := db.open[tid];
    var v := View(db.committed, t.writes);
    Statement(Acquiring(t, v), v).failure
  }

  // ---- deadlock ----

  lemma LocksAreOrdered(t: Transaction, s: State, held: Lock, wanted: Lock)
    requires Knows(t, s) && t.reply == None && held in t.locks && wanted in Wanted(t, View(s, t.writes))
    ensures wanted in t.locks || Rank(held) < Rank(wanted)
  {
    hide View, OtherExtractionSelected, ExtractionConfirmed, SameExtraction, OtherRevisionSelected, RevisionConfirmed,
         HasRevision, AllPending, CreationWrites, CreationGuards, PendingAmong;
  }

  /** The transaction cannot run its next statement now. */
  ghost predicate Blocked(db: Database, tid: nat)
    requires tid in db.open
  {
    var t := db.open[tid];
    t.reply.None? && !Free(db, tid, Wanted(t, View(db.committed, t.writes)))
  }

  ghost predicate WaitsFor(db: Database, tid: nat, holder: nat, l: Lock) {
    tid in db.open && holder in db.open && tid != holder && l in db.open[holder].locks &&
    l in Wanted(db.open[tid], View(db.committed, db.open[tid].writes))
  }

  lemma BlockedWaits(db: Database, tid: nat) returns (holder: nat, l: Lock)
    requires tid in db.open && Blocked(db, tid)
    ensures WaitsFor(db, tid, holder, l)
  {
    hide View, Wanted;
    var wanted := Wanted(db.open[tid], View(db.committed, db.open[tid].writes));
    holder :| holder in db.open && holder != tid && !(db.open[holder].locks !! wanted);
    l :| l in db.open[holder].locks && l in wanted;
  }

  /** Following waits climbs the lock order, so it cannot go on. */
  lemma {:induction false} WaitsEnd(db: Database, tid: nat, holder: nat, l: Lock)
    requires Sound(db) && WaitsFor(db, tid, holder, l)
    ensures exists free :: free in db.open && !Blocked(db, free)
    decreases 4 - Rank(l)
  {
    hide Inv, Knows, View, Wanted;
    if Blocked(db, holder) {
      var next, l' := BlockedWaits(db, holder);
      LocksAreOrdered(db.open[holder], db.committed, l, l');
      assert l' !in db.open[holder].locks;
      WaitsEnd(db, holder, next, l');
    }
  }

  /** In every reachable database with an open transaction, some transaction can go on: there is no deadlock. */
  lemma NoDeadlock(installedAt: int, db: Database)
    requires Possible(installedAt, db) && db.open != map[]
    ensures exists tid :: tid in db.open && (CanTake(db, Execute(tid)) || CanTake(db, Commit(tid)))
  {
    hide Sound, Run, Possible, Blocked, CanTake;
    EveryInterleavingIsSerial(installedAt, db);
    var free := SomeoneIsFree(db);
    FreeGoesOn(db, free);
  }

  lemma SomeoneIsFree(db: Database) returns (free: nat)
    requires Sound(db) && db.open != map[]
    ensures free in db.open && !Blocked(db, free)
  {
    hide Sound, Blocked, WaitsFor;
    var tid :| tid in db.open.Keys;
    free := tid;
    if Blocked(db, tid) {
      var holder, l := BlockedWaits(db, tid);
      WaitsEnd(db, tid, holder, l);
      free :| free in db.open && !Blocked(db, free);
    }
  }

  lemma FreeGoesOn(db: Database, tid: nat)
    requires tid in db.open && !Blocked(db, tid)
    ensures CanTake(db, Execute(tid)) || CanTake(db, Commit(tid))
  {
    hide View, Wanted, Free;
  }

  // ---- who waits for whom ----

  /** The rows and owners an operation may lock, by what it names. */
  ghost predicate LocksFor(op: Operation, l: Lock) {
    match l
    case ExtractionOwnerLock(id) => op.OpRegister? && op.registration.extractionId == id
    case RevisionOwnerLock(owner) => op.OpCreate? && OwnerOf(op.creation.source) == owner
    case ExtractionRowLock(key) =>
      (op.OpRegister? && ExtractionKeyOf(op.registration) == key) ||
      ((op.OpReserveExtraction? || op.OpConfirmExtraction?) && ExtractionKeyOf(op.extractionIntent.registration) == key)
    case RevisionRowLock(key) =>
      (op.OpReserveRevision? || op.OpConfirmRevision? || op.OpCreate?) && RevisionKeyOf(op.creation) == key
    case ControlLock => op.OpControl? || (op.OpCreate? && op.creation.source.Maintenance?)
    case TreeLock => op.OpCreate? || op.OpRestore?
    case ObservationLock(id) =>
      op.OpCreate? && op.creation.source.Maintenance? && id in op.creation.source.extractionIds
  }

  lemma WantedIsNamed(t: Transaction, v: State, l: Lock)
    requires l in Wanted(t, v)
    ensures LocksFor(t.op, l)
  {
    hide ExtractionConfirmed, RevisionConfirmed, ExtractionKeyOf, RevisionKeyOf, OwnerOf;
  }

  lemma HeldIsNamed(t: Transaction, s: State, l: Lock)
    requires Knows(t, s) && l in t.locks
    ensures LocksFor(t.op, l)
  {
    hide View, OtherExtractionSelected, ExtractionConfirmed, SameExtraction, OtherRevisionSelected, RevisionConfirmed,
         HasRevision, AllPending, CreationWrites, CreationGuards, ExtractionKeyOf, RevisionKeyOf, OwnerOf, CreationRecorded;
  }

  /**
   * A transaction waits for another only at a row or owner that both of their requests name: a reader
   * of the input never waits, nor do transactions for different owners unless both write the pointer.
   */
  lemma WaitersCompete(installedAt: int, db: Database, tid: nat, holder: nat, l: Lock)
    requires Possible(installedAt, db) && WaitsFor(db, tid, holder, l)
    ensures LocksFor(db.open[tid].op, l) && LocksFor(db.open[holder].op, l)
    ensures !db.open[tid].op.OpGetInput?
  {
    hide Inv, Knows, View, Run, Possible, Wanted, LocksFor;
    EveryInterleavingIsSerial(installedAt, db);
    WantedIsNamed(db.open[tid], View(db.committed, db.open[tid].writes), l);
    HeldIsNamed(db.open[holder], db.committed, l);
    NoLockForReaders(db.open[tid].op, l);
  }

  lemma NoLockForReaders(op: Operation, l: Lock)
    requires LocksFor(op, l)
    ensures !op.OpGetInput?
  {
  }

  /** Every transaction runs at most thirteen statements. */
  lemma StatementsAreFinite(installedAt: int, db: Database, tid: nat)
    requires Possible(installedAt, db) && tid in db.open
    ensures db.open[tid].reply == None ==> db.open[tid].at <= 12
    ensures CanTake(db, Execute(tid)) && !Throwing(db, tid) ==>
              Take(db, Execute(tid)).open[tid].at > db.open[tid].at
  {
    EveryInterleavingIsSerial(installedAt, db);
    if db.open[tid].reply == None {
      OpenIsShort(db.open[tid], db.committed);
    }
    hide Inv, Knows, View, Wanted, Run, Possible, Statement;
    var t, v := db.open[tid], View(db.committed, db.open[tid].writes);
    StatementKeepsLocks(Acquiring(t, v), v);
  }

  lemma OpenIsShort(t: Transaction, s: State)
    requires Knows(t, s) && t.reply == None
    ensures t.at <= 12
  {
    hide CreationGuards, CreationWrites, HoldsCreationLocks;
  }
}
