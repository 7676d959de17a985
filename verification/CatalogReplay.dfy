/** What a repeated request is recognised by: exactly the requests that committed before. */
module CatalogReplay {
  import opened Basics
  import opened CatalogTypes
  import opened CatalogSpec
  import opened CatalogInvariant
  import opened CatalogHistory
  import opened CatalogMeaning

  /** The answer to a request that is already recorded: `created=false`. */
  predicate Recognised(reply: Reply) {
    match reply
    case RevisionCreated(created, _, _) => !created
    case Restored(created, _, _) => !created
    case ControlChanged(created, _) => !created
    case Registered(created) => !created
    case _ => false
  }

  /** The request is recorded in the tables. */
  ghost predicate Recorded(s: State, op: Operation) {
    match op
    case OpRegister(r, _) => ExtractionHeld(s.extractionPublications, r, Selected)
    case OpCreate(c) => RevisionHeld(s.revisionPublications, c, Selected)
    case OpRestore(o) => RestoreHeld(s.restores, o)
    case OpControl(o, _) => ControlHeld(s.controlChanges, o)
    case _ => false
  }

  lemma RecognisedIsRecorded(s: State, op: Operation)
    requires Inv(s)
    ensures Recognised(Apply(s, op).reply) ==> Recorded(s, op)
  {
    hide Inv, RegisterExtraction, CreateRevision, RestoreTree, ChangeControl, InputFor, ExtractionHeld, RevisionHeld,
         RestoreHeld, ControlHeld, AnotherSelected, AnotherRevisionSelected;
    match op
    case OpRegister(r, now) => RegistrationFrame(s, r, now); RegistrationDecides(s, r, now);
    case OpCreate(c) => CreationFrame(s, c); CreationDecides(s, c);
    case OpRestore(o) => RestoreFrame(s, o); RestoreDecides(s, o);
    case OpControl(o, now) => ControlFrame(s, o, now); ControlDecides(s, o, now);
    case _ =>
  }

  // ---- only its own commit records a request ----

  lemma NewRegistration(s: State, last: Operation, r: Registration)
    requires Inv(s) && !ExtractionHeld(s.extractionPublications, r, Selected)
    requires ExtractionHeld(Apply(s, last).state.extractionPublications, r, Selected)
    ensures last.OpRegister? && last.registration == r && Committed(Apply(s, last).reply)
  {
    hide Inv, RegisterExtraction, CreateRevision, RestoreTree, ChangeControl, InputFor;
    match last
    case OpRegister(r', now) => RegistrationSelects(s, r', now, r);
    case OpReserveExtraction(_) =>
    case OpConfirmExtraction(_) =>
    case OpReserveRevision(_) =>
    case OpConfirmRevision(_) =>
    case OpCreate(c) => CreationTables(s, c);
    case OpRestore(o) => RestoreFrame(s, o);
    case OpControl(o, now) => ControlFrame(s, o, now);
    case OpGetInput(_) =>
  }

  lemma RegistrationSelects(s: State, r': Registration, now: int, r: Registration)
    requires Inv(s) && !ExtractionHeld(s.extractionPublications, r, Selected)
    requires ExtractionHeld(RegisterExtraction(s, r', now).state.extractionPublications, r, Selected)
    ensures r' == r && Committed(RegisterExtraction(s, r', now).reply)
  {
    hide Inv, RegisterExtraction, SameExtraction, OtherExtractionSelected;
    RegistrationCases(s, r', now);
    if Recognised(RegisterExtraction(s, r', now).reply) {
      SelectedAgain(s, r');
    }
  }

  lemma NewRevision(s: State, last: Operation, c: Creation)
    requires Inv(s) && !RevisionHeld(s.revisionPublications, c, Selected)
    requires RevisionHeld(Apply(s, last).state.revisionPublications, c, Selected)
    ensures last == OpCreate(c) && Committed(Apply(s, last).reply)
  {
    hide Inv, RegisterExtraction, CreateRevision, RestoreTree, ChangeControl, InputFor;
    match last
    case OpCreate(c') => CreationSelects(s, c', c);
    case OpReserveRevision(_) =>
    case OpConfirmRevision(_) =>
    case OpReserveExtraction(_) =>
    case OpConfirmExtraction(_) =>
    case OpRegister(r, now) => RegistrationFrame(s, r, now);
    case OpRestore(o) => RestoreFrame(s, o);
    case OpControl(o, now) => ControlFrame(s, o, now);
    case OpGetInput(_) =>
  }

  lemma CreationSelects(s: State, c': Creation, c: Creation)
    requires Inv(s) && !RevisionHeld(s.revisionPublications, c, Selected)
    requires RevisionHeld(CreateRevision(s, c').state.revisionPublications, c, Selected)
    ensures c' == c && Committed(CreateRevision(s, c').reply)
  {
    hide Inv, CreateRevision, AddsRevision, InsertRevision, SelectRevision, SameRevision, HasRevision, HeldUnder;
    CreationFrame(s, c');
    CreatedTables(s, c');
    if Recognised(CreateRevision(s, c').reply) {
      SelectRevisionAgain(s, c');
    }
  }

  lemma NewRestore(s: State, last: Operation, o: Restore)
    requires Inv(s) && !RestoreHeld(s.restores, o) && RestoreHeld(Apply(s, last).state.restores, o)
    ensures last == OpRestore(o) && Committed(Apply(s, last).reply)
  {
    hide Inv, RegisterExtraction, CreateRevision, RestoreTree, ChangeControl, InputFor;
    match last
    case OpRestore(o') => RestoreDecides(s, o');
    case OpRegister(r, now) => RegistrationFrame(s, r, now);
    case OpCreate(c) => CreationTables(s, c);
    case OpControl(o, now) => ControlFrame(s, o, now);
    case OpReserveExtraction(_) =>
    case OpConfirmExtraction(_) =>
    case OpReserveRevision(_) =>
    case OpConfirmRevision(_) =>
    case OpGetInput(_) =>
  }

  lemma NewControl(s: State, last: Operation, o: ControlChange)
    requires Inv(s) && !ControlHeld(s.controlChanges, o) && ControlHeld(Apply(s, last).state.controlChanges, o)
    ensures last.OpControl? && last.change == o && Committed(Apply(s, last).reply)
  {
    hide Inv, RegisterExtraction, CreateRevision, RestoreTree, ChangeControl, InputFor;
    match last
    case OpControl(o', now) => ControlDecides(s, o', now);
    case OpRegister(r, now) => RegistrationFrame(s, r, now);
    case OpCreate(c) => CreationTables(s, c);
    case OpRestore(o) => RestoreFrame(s, o);
    case OpReserveExtraction(_) =>
    case OpConfirmExtraction(_) =>
    case OpReserveRevision(_) =>
    case OpConfirmRevision(_) =>
    case OpGetInput(_) =>
  }

  lemma NewlyRecorded(s: State, last: Operation, op: Operation)
    requires Inv(s) && !Recorded(s, op) && Recorded(Apply(s, last).state, op)
    ensures SameRequest(last, op) && Committed(Apply(s, last).reply)
  {
    hide Inv, Apply, ExtractionHeld, RevisionHeld, RestoreHeld, ControlHeld;
    match op
    case OpRegister(r, _) => NewRegistration(s, last, r);
    case OpCreate(c) => NewRevision(s, last, c);
    case OpRestore(o) => NewRestore(s, last, o);
    case OpControl(o, _) => NewControl(s, last, o);
    case _ =>
  }

  // ---- over whole runs ----

  /** The `i`-th operation of a run from installation is this request, and it committed. */
  ghost predicate CommittedAt(installedAt: int, ops: seq<Operation>, i: nat, op: Operation) {
    i < |ops| && SameRequest(ops[i], op) && Committed(Apply(Run(InitialState(installedAt), ops[..i]), ops[i]).reply)
  }

  lemma {:induction false} RecordedWasCommitted(installedAt: int, ops: seq<Operation>, op: Operation)
    requires Recorded(Run(InitialState(installedAt), ops), op)
    ensures exists i: nat :: CommittedAt(installedAt, ops, i, op)
    decreases |ops|
  {
    hide Apply, Recorded, Inv, SameRequest;
    if ops == [] {
      NothingRecorded(installedAt, op);
    } else {
      var n := |ops| - 1;
      var front, last := ops[..n], ops[n];
      assert ops == front + [last];
      RunSnoc(InitialState(installedAt), front, last);
      var before := Run(InitialState(installedAt), front);
      InitialInv(installedAt);
      RunKeeps(InitialState(installedAt), front);
      if Recorded(before, op) {
        RecordedWasCommitted(installedAt, front, op);
        var i: nat :| CommittedAt(installedAt, front, i, op);
        assert front[..i] == ops[..i];
        assert CommittedAt(installedAt, ops, i, op);
      } else {
        NewlyRecorded(before, last, op);
        assert CommittedAt(installedAt, ops, n, op);
      }
    }
  }

  lemma NothingRecorded(installedAt: int, op: Operation)
    ensures !Recorded(InitialState(installedAt), op)
  {
  }

  lemma CommittedIsRecognised(installedAt: int, ops: seq<Operation>, i: nat, op: Operation)
    requires CommittedAt(installedAt, ops, i, op)
    ensures Recognised(Apply(Run(InitialState(installedAt), ops), op).reply)
  {
    hide Apply, SameRequest, Run;
    var before := Run(InitialState(installedAt), ops[..i]);
    assert ops[..i + 1] == ops[..i] + [ops[i]];
    RunSnoc(InitialState(installedAt), ops[..i], ops[i]);
    RunSplit(InitialState(installedAt), ops, i + 1);
    assert Reachable(before);
    ReplayIsIdempotent(before, ops[i], ops[i + 1..], op);
  }

  /**
   * After any run from installation a registration, creation, restore or control change is answered
   * with `created=false` exactly when the very same request, whatever its time, committed in that run.
   */
  lemma RecognisedExactlyWhenCommitted(installedAt: int, ops: seq<Operation>, op: Operation)
    ensures Recognised(Apply(Run(InitialState(installedAt), ops), op).reply) <==>
            exists i: nat :: CommittedAt(installedAt, ops, i, op)
  {
    hide Apply, Run, Recognised, Recorded, CommittedAt, Inv;
    var s := Run(InitialState(installedAt), ops);
    if Recognised(Apply(s, op).reply) {
      InitialInv(installedAt);
      RunKeeps(InitialState(installedAt), ops);
      RecognisedIsRecorded(s, op);
      RecordedWasCommitted(installedAt, ops, op);
    }
    forall i: nat | CommittedAt(installedAt, ops, i, op) ensures Recognised(Apply(s, op).reply) {
      CommittedIsRecognised(installedAt, ops, i, op);
    }
  }
}
