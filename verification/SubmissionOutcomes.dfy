/**
 * What a submission comes to: how each outcome of an attempt is read, that a repeated request is
 * accepted like the first, and what each answer of the gateway makes of the client that waits for it.
 */
module SubmissionOutcomes {
  import opened Basics
  import opened CanonicalJson
  import opened Submission

  // ---- what a client makes of a reply ----

  predicate HasMember(q: seq<Entry>, key: string, value: Json) {
    exists i :: 0 <= i < |q| && q[i] == Entry(key, value)
  }

  /** The members a creation response needs: the run's id, its workflow and a known status. */
  ghost predicate Acknowledges(body: Json, runId: string, workflow: string) {
    body.Object? && HasMember(body.entries, "run_id", Text(runId)) && HasMember(body.entries, "workflow", Text(workflow)) &&
    (workflow == "issue-review" || workflow == "pull-request-review" || workflow == "repository-review") &&
    exists status ::
      (status == "queued" || status == "running" || status == "succeeded" || status == "failed") &&
      HasMember(body.entries, "status", Text(status))
  }

  lemma {:induction false} FieldIsMember(q: seq<Entry>, key: string, value: Json)
    requires DistinctKeys(q)
    ensures Submission.Field(q, key) == Some(value) <==> HasMember(q, key, value)
  {
    if q != [] {
      FieldIsMember(q[1..], key, value);
      if q[0].key == key {
        assert HasMember(q, key, q[0].value);
      } else {
        if HasMember(q, key, value) {
          var i :| 0 <= i < |q| && q[i] == Entry(key, value);
          assert q[1..][i - 1] == q[i];
        }
        if HasMember(q[1..], key, value) {
          var i :| 0 <= i < |q[1..]| && q[1..][i] == Entry(key, value);
          assert q[i + 1] == q[1..][i];
        }
      }
    }
  }

  /** A creation response is valid exactly when it acknowledges the run that was asked for. */
  lemma ValidMeansAcknowledges(body: Json, runId: string, workflow: string)
    requires Proper(body)
    ensures ParseResponse(body, runId, workflow) == None <==> Acknowledges(body, runId, workflow)
  {
    hide Submission.Field, HasMember;
    if body.Object? {
      var q := body.entries;
      FieldIsMember(q, "run_id", Text(runId));
      FieldIsMember(q, "workflow", Text(workflow));
      forall status: string ensures Submission.Field(q, "status") == Some(Text(status)) <==> HasMember(q, "status", Text(status)) {
        FieldIsMember(q, "status", Text(status));
      }
      if ParseResponse(body, runId, workflow) == None {
        assert HasMember(q, "status", Text(Submission.Field(q, "status").value.text));
      }
    }
  }

  /** How a submission goes on after one attempt. */
  ghost predicate Follows(client: Client, outcome: Attempt, next: ClientPhase)
    requires client.phase.Waiting?
  {
    var lastAttempt := client.phase.attempt == client.retries;
    match outcome
    case OtherFailure => next == Finished(Uncertain)
    case TransientFailure => next == if lastAttempt then Finished(Uncertain) else Sending(client.phase.attempt + 1)
    case Responded(status, body) =>
      if status == 429 || status >= 500 then
        next == if lastAttempt then Finished(Uncertain) else Sending(client.phase.attempt + 1)
      else if status < 200 || status >= 300 then next == Finished(Refused(status))
      else if body.Parsed? && ParseResponse(body.value, client.request.runId, client.request.workflow) == None then
        next == Finished(Submitted)
      else next == Finished(Uncertain)
  }

  /**
   * Transport errors, 429 and 5xx are repeated until the attempts are used up and then leave the
   * submission uncertain, as does an unreadable or foreign 2xx; any other status refuses it.
   */
  lemma AttemptDecides(client: Client, outcome: Attempt)
    requires client.phase.Waiting?
    ensures Follows(client, outcome, Informed(client, outcome).phase)
    ensures Informed(client, outcome) == client.(phase := Informed(client, outcome).phase)
  {
    hide ParseResponse;
  }

  // ---- what the gateway answers ----

  /** The gateway has started this request's workflow, or found it started by an earlier attempt. */
  ghost predicate FoundOwn(env: Environment, w: World, h: nat) {
    h in w.handlers && w.handlers[h].request.runId in w.store &&
    (w.handlers[h].phase.Started? ||
     (w.handlers[h].phase.Looked? &&
      w.store[w.handlers[h].request.runId].fingerprint == Fingerprint(w.handlers[h].request, env.le)))
  }

  /** The client still waits for the answer to the attempt that this handler serves. */
  ghost predicate AwaitedBy(w: World, h: nat) {
    h in w.handlers && w.handlers[h].post.client in w.clients &&
    w.clients[w.handlers[h].post.client].phase == Waiting(w.handlers[h].post.attempt)
  }

  /** The handler answers with this response, and its client reads that whole, and nothing else happens. */
  ghost predicate Reads(env: Environment, w: World, h: nat, status: string, response: Response, answered: World, read: World) {
    CanTake(env, w, Answer(h, status)) && answered == Take(env, w, Answer(h, status)) &&
    answered.replies == w.replies + {Delivery(w.handlers[h].post, response)} &&
    CanTake(env, answered, Receive(w.handlers[h].post.client, response, true)) &&
    read == Take(env, answered, Receive(w.handlers[h].post.client, response, true))
  }

  ghost predicate IsFinished(w: World, c: nat, result: Result) {
    c in w.clients && w.clients[c].phase == Finished(result)
  }

  /** The handler's answer reaches its client and brings it to this result. */
  ghost predicate AnswerGives(env: Environment, w: World, h: nat, status: string, result: Result) {
    h in w.handlers &&
    exists response, answered, read ::
      Reads(env, w, h, status, response, answered, read) && IsFinished(read, w.handlers[h].post.client, result)
  }

  /**
   * Whatever came before: when a handler that started the workflow, or found it started for the same
   * request, answers and the waiting client reads the answer, the submission succeeds; when it found
   * another request's workflow under the id, the submission is refused with 409.
   */
  lemma AnswersDecide(env: Environment, w: World, h: nat, status: string)
    requires Possible(env, w) && CanTake(env, w, Answer(h, status)) && AwaitedBy(w, h)
    requires w.handlers[h].request.workflow in REVIEW_WORKFLOWS
    ensures AnswerGives(env, w, h, status, if FoundOwn(env, w, h) then Submitted else Refused(409))
  {
    hide Possible, Fingerprint, ErrorBody, RunBody, ParseResponse, FoundOwn, Answered, Informed, Take, Reads;
    var answered, read := AnswerIsRead(env, w, h, status);
    if FoundOwn(env, w, h) {
      OwnIsAccepted(env, w, h, status);
    } else {
      OtherIsConflict(env, w, h, status);
    }
  }

  /** The reply travels back and is read. */
  lemma AnswerIsRead(env: Environment, w: World, h: nat, status: string) returns (answered: World, read: World)
    requires CanTake(env, w, Answer(h, status)) && AwaitedBy(w, h)
    ensures Reads(env, w, h, status, Answered(env, w, h, status), answered, read)
    ensures w.handlers[h].post.client in read.clients
    ensures read.clients[w.handlers[h].post.client] ==
            Informed(w.clients[w.handlers[h].post.client],
                     Responded(Answered(env, w, h, status).status, Parsed(Answered(env, w, h, status).body)))
  {
    hide Answered, Informed;
    answered := Take(env, w, Answer(h, status));
    read := Take(env, answered, Receive(w.handlers[h].post.client, Answered(env, w, h, status), true));
  }

  lemma OwnIsAccepted(env: Environment, w: World, h: nat, status: string)
    requires Possible(env, w) && CanTake(env, w, Answer(h, status)) && AwaitedBy(w, h) && FoundOwn(env, w, h)
    requires w.handlers[h].request.workflow in REVIEW_WORKFLOWS
    ensures Answered(env, w, h, status).status == 202
    ensures Informed(w.clients[w.handlers[h].post.client],
                     Responded(202, Parsed(Answered(env, w, h, status).body))).phase == Finished(Submitted)
  {
    hide Possible, Fingerprint, ErrorBody, RunBody, ParseResponse;
    assert Answered(env, w, h, status).status == 202;
    AcceptedResponsesParse(env, w, h, status);
    hide Answered;
  }

  lemma OtherIsConflict(env: Environment, w: World, h: nat, status: string)
    requires CanTake(env, w, Answer(h, status)) && AwaitedBy(w, h) && !FoundOwn(env, w, h)
    ensures Answered(env, w, h, status).status == 409
    ensures Informed(w.clients[w.handlers[h].post.client],
                     Responded(409, Parsed(Answered(env, w, h, status).body))).phase == Finished(Refused(409))
  {
    hide Fingerprint, ErrorBody, RunBody, ParseResponse;
  }

  /** The same logical request has the same fingerprint, when the comparison ties no keys. */
  lemma SameRequestIsFound(env: Environment, w: World, h: nat, i: nat)
    requires Possible(env, w) && h in w.handlers && w.handlers[h].phase.Looked? && i < |w.starts|
    requires w.starts[i].request.runId == w.handlers[h].request.runId
    requires Preorder(env.le) && Separates(env.le) && ProperRequest(w.starts[i].request) && ProperRequest(w.handlers[h].request)
    ensures FoundOwn(env, w, h) <==> SameRequest(w.starts[i].request, w.handlers[h].request)
  {
    PossibleSound(env, w);
    FingerprintDecides(w.starts[i].request, w.handlers[h].request, env.le);
    hide Fingerprint, SameRequest, Preorder, Separates, HandlersSound, RepliesSound, ClientsSound, ProperRequest;
  }

  /** What the gateway turns down: 401 without authority, 400 for an unknown workflow or an invalid input. */
  lemma ChecksDecide(env: Environment, w: World, h: nat)
    requires CanTake(env, w, Validate(h))
    ensures var r, checks := w.handlers[h].request, w.handlers[h].checks;
            var accepted := checks.authorised && r.workflow in checks.workflows && checks.validInput(r.workflow, r.input);
            var next := Take(env, w, Validate(h));
            if accepted then
              h in next.handlers && next.handlers[h] == w.handlers[h].(phase := Valid) && next.replies == w.replies
            else
              h !in next.handlers &&
              exists response: Response ::
                response.status == (if checks.authorised then 400 else 401) &&
                next.replies == w.replies + {Delivery(w.handlers[h].post, response)}
  {
  }

  // ---- a repeated request succeeds ----

  ghost predicate SucceedsAgain(w: World, r: Request) {
    w.clients == map[0 := Client(r, 1, Finished(Submitted))] && w.starts == [Start(0, r)] && Post(0, 1) in w.posts
  }

  /**
   * Retrying is safe and useful: for every request that some handler accepts there is a course of
   * events in which the first attempt starts the workflow, its reply is lost, and the second attempt
   * finds the workflow and ends the submission successfully, with one workflow started.
   */
  lemma ResubmissionSucceeds(env: Environment, r: Request)
    requires Accepted(env, r) && r.workflow in REVIEW_WORKFLOWS
    ensures exists w :: Possible(env, w) && SucceedsAgain(w, r)
  {
    hide Possible, Refusal, SucceedsAgain, FirstAttempt, StartedOnce, LooksItUp;
    var checks :| env.inForce(checks) && Refusal(checks, r) == None;
    var delivered := AttemptArrives(env, r, checks);
    var started := AttemptIsAccepted(env, delivered, r, checks);
    var again := SecondArrives(env, started, r, checks);
    var w := SecondIsAnswered(env, again, r);
    assert Possible(env, w) && SucceedsAgain(w, r);
  }

  /** The second attempt's handler has looked the run up. */
  ghost predicate LooksItUp(w: World, r: Request) {
    w.clients == map[0 := Client(r, 1, Waiting(1))] && w.starts == [Start(0, r)] && Post(0, 1) in w.posts &&
    1 in w.handlers && w.handlers[1].post == Post(0, 1) && w.handlers[1].request == r && w.handlers[1].phase.Looked?
  }

  lemma SecondArrives(env: Environment, started: World, r: Request, checks: Checks) returns (w: World)
    requires Possible(env, started) && StartedOnce(started, r) && env.inForce(checks) && Refusal(checks, r) == None
    ensures Possible(env, w) && LooksItUp(w, r)
  {
    hide Possible, Refusal, Fingerprint;
    RunIsStored(env, started, r);
    w := Step(env, started, Break(0, true));
    w := Step(env, w, Send(0));
    w := Step(env, w, Deliver(1, Post(0, 1), r.timeoutSeconds, checks));
    assert r.(timeoutSeconds := r.timeoutSeconds) == r;
    w := Step(env, w, Validate(1));
    w := Step(env, w, StartWorkflow(1));
    w := Step(env, w, Look(1));
  }

  lemma RunIsStored(env: Environment, w: World, r: Request)
    requires Possible(env, w) && StartedOnce(w, r)
    ensures r.runId in w.store
  {
    PossibleSound(env, w);
    hide Fingerprint, HandlersSound, RepliesSound, ClientsSound;
    assert w.starts[0].request == r;
  }

  lemma SecondIsAnswered(env: Environment, again: World, r: Request) returns (w: World)
    requires Possible(env, again) && LooksItUp(again, r) && r.workflow in REVIEW_WORKFLOWS
    ensures Possible(env, w) && SucceedsAgain(w, r)
  {
    hide Possible, Fingerprint, ErrorBody, RunBody, ParseResponse, AnswerGives;
    OwnIsFound(env, again, r);
    AnswersDecide(env, again, 1, "running");
    w := LastRead(env, again, r);
  }

  lemma OwnIsFound(env: Environment, w: World, r: Request)
    requires Possible(env, w) && LooksItUp(w, r)
    ensures FoundOwn(env, w, 1) && CanTake(env, w, Answer(1, "running")) && AwaitedBy(w, 1)
  {
    PossibleSound(env, w);
    hide Fingerprint, HandlersSound, RepliesSound, ClientsSound;
    assert w.starts[0].request == r;
  }

  lemma LastRead(env: Environment, again: World, r: Request) returns (w: World)
    requires Possible(env, again) && LooksItUp(again, r) && AnswerGives(env, again, 1, "running", Submitted)
    ensures Possible(env, w) && SucceedsAgain(w, r)
  {
    hide Possible, Fingerprint, ErrorBody, RunBody, ParseResponse, Answered, Informed;
    var response, answered, read :| Reads(env, again, 1, "running", response, answered, read) && IsFinished(read, 0, Submitted);
    PossibleNext(env, again, Answer(1, "running"));
    PossibleNext(env, answered, Receive(0, response, true));
    w := read;
    AttemptDecides(again.clients[0], Responded(response.status, Parsed(response.body)));
    var last := Informed(again.clients[0], Responded(response.status, Parsed(response.body)));
    assert w.clients == again.clients[0 := last] && last == Client(r, 1, Finished(Submitted));
  }
}
