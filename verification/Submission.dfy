/**
 * Submitting an execution run: a client that retries over a lossy channel, a gateway that starts a
 * workflow under "reject duplicate", and the workflow store they end up agreeing on.
 */
module Submission {
  import opened Basics
  import opened CanonicalJson

  // ---- the client's reading of one attempt ----

  datatype Body = Unreadable | Parsed(value: Json)

  datatype Attempt =
    | Responded(status: nat, body: Body)
    | TransientFailure
    | OtherFailure

  predicate IsRetryableStatus(status: nat) {
    status == 429 || status >= 500
  }

  predicate IsOk(status: nat) {
    200 <= status <= 299
  }

  datatype Decision = Retry | Return(status: nat, body: Body) | Throw

  /** What the request loop does after attempt number `attempt` of `0..retries`. */
  function Decide(outcome: Attempt, attempt: nat, retries: nat): Decision {
    match outcome
    case Responded(status, body) =>
      if !IsRetryableStatus(status) || attempt == retries then Return(status, body) else Retry
    case TransientFailure => if attempt == retries then Throw else Retry
    case OtherFailure => Throw
  }

  predicate Repeatable(outcome: Attempt) {
    outcome.TransientFailure? || (outcome.Responded? && IsRetryableStatus(outcome.status))
  }

  /**
   * The request loop, given what each attempt would meet: it stops at the first outcome that is
   * not worth repeating, or at the last attempt allowed.
   */
  method RequestLoop(outcomes: seq<Attempt>, retries: nat) returns (decision: Decision, attempts: nat)
    requires |outcomes| == retries + 1
    ensures 1 <= attempts <= retries + 1
    ensures forall i :: 0 <= i < attempts - 1 ==> Repeatable(outcomes[i])
    ensures attempts <= retries ==> !Repeatable(outcomes[attempts - 1])
    ensures decision == if outcomes[attempts - 1].Responded? then
                          Return(outcomes[attempts - 1].status, outcomes[attempts - 1].body)
                        else Throw
  {
    var attempt := 0;
    while attempt <= retries
      invariant 0 <= attempt <= retries
      invariant forall i :: 0 <= i < attempt ==> Repeatable(outcomes[i])
      decreases retries - attempt
    {
      decision := Decide(outcomes[attempt], attempt, retries);
      if decision != Retry {
        return decision, attempt + 1;
      }
      attempt := attempt + 1;
    }
  }

  // ---- the creation response ----

  const EXECUTION_STATUSES := {"queued", "running", "succeeded", "failed"}

  const REVIEW_WORKFLOWS := {"issue-review", "pull-request-review", "repository-review"}

  datatype ProtocolFault = InvalidResponse | InvalidStatus | IdentityMismatch | WorkflowMismatch

  function Field(q: seq<Entry>, key: string): Option<Json> {
    if q == [] then None else if q[0].key == key then Some(q[0].value) else Field(q[1..], key)
  }

  function ParseResponse(body: Json, runId: string, workflow: string): Option<ProtocolFault> {
    if !body.Object? || Field(body.entries, "status").None? || !Field(body.entries, "status").value.Text? then
      Some(InvalidResponse)
    else if Field(body.entries, "status").value.text !in EXECUTION_STATUSES then Some(InvalidStatus)
    else if Field(body.entries, "run_id") != Some(Text(runId)) then Some(IdentityMismatch)
    else if workflow !in REVIEW_WORKFLOWS || Field(body.entries, "workflow") != Some(Text(workflow)) then
      Some(WorkflowMismatch)
    else None
  }

  datatype Result = Submitted | Uncertain | Refused(status: nat)

  /** How `submitExecutionRun` ends once the request loop has. */
  function Conclude(decision: Decision, runId: string, workflow: string): Result
    requires decision != Retry
  {
    match decision
    case Throw => Uncertain
    case Return(status, body) =>
      if !IsOk(status) then if IsRetryableStatus(status) then Uncertain else Refused(status)
      else if body == Unreadable || ParseResponse(body.value, runId, workflow).Some? then Uncertain
      else Submitted
  }

  // ---- the gateway and the workflow store ----

  /** What one handler of the gateway checks before it starts anything. */
  datatype Checks = Checks(authorised: bool, workflows: set<string>, validInput: (string, Json) -> bool)

  /**
   * What may be met while submissions last: the checks some handler may apply, which deployments and
   * credentials change, and the statuses that a proxy in between may answer besides 429 and 5xx.
   */
  datatype Environment = Environment(inForce: Checks -> bool, upstream: nat -> bool, le: Comparator)

  function Refusal(c: Checks, r: Request): Option<nat> {
    if !c.authorised then Some(401)
    else if r.workflow !in c.workflows then Some(400)
    else if !c.validInput(r.workflow, r.input) then Some(400)
    else None
  }

  /** A status that ends a submission with an error other than the uncertain one. */
  predicate IsFinalError(status: nat) {
    !IsOk(status) && !IsRetryableStatus(status)
  }

  datatype Memo = Memo(workflow: string, fingerprint: Json)

  datatype Start = Start(client: nat, request: Request)

  datatype Post = Post(client: nat, attempt: nat)

  datatype Response = Response(status: nat, body: Json)

  datatype Phase = Received | Valid | Started | Duplicate | Looked(existing: string)

  datatype Handler = Handler(post: Post, request: Request, checks: Checks, phase: Phase)

  datatype ClientPhase = Sending(attempt: nat) | Waiting(attempt: nat) | Finished(result: Result)

  datatype Client = Client(request: Request, retries: nat, phase: ClientPhase)

  datatype Delivery = Delivery(post: Post, response: Response)

  /**
   * `posts` are the requests ever sent: each may be lost, late, or delivered any number of times.
   * `replies` likewise. `starts` records, in order, who started what.
   */
  datatype World = World(
    clients: map<nat, Client>,
    posts: set<Post>,
    handlers: map<nat, Handler>,
    store: map<string, Memo>,
    starts: seq<Start>,
    replies: set<Delivery>)

  datatype Event =
    | Submit(client: nat, request: Request, retries: nat)
    | Send(client: nat)
    | Deliver(handler: nat, post: Post, timeoutSeconds: nat, checks: Checks)
    | Validate(handler: nat)
    | StartWorkflow(handler: nat)
    | Look(handler: nat)
    | Answer(handler: nat, status: string)
    | Crash(handler: nat, body: Option<Json>)
    | UpstreamError(post: Post, response: Response)
    | Receive(client: nat, response: Response, readable: bool)
    | Break(client: nat, transient: bool)

  function RunBody(runId: string, workflow: string, status: string): Json {
    Object([Entry("run_id", Text(runId)), Entry("workflow", Text(workflow)), Entry("status", Text(status))])
  }

  function ErrorBody(runId: string, workflow: string, code: string): Json {
    Object([Entry("run_id", Text(runId)), Entry("workflow", Text(workflow)),
            Entry("error", Object([Entry("code", Text(code))]))])
  }

  predicate InPhase(w: World, h: nat, phase: Phase) {
    h in w.handlers && w.handlers[h].phase == phase
  }

  predicate IsWaiting(w: World, c: nat) {
    c in w.clients && w.clients[c].phase.Waiting?
  }

  predicate CanTake(env: Environment, w: World, e: Event) {
    match e
    case Submit(c, _, _) => c !in w.clients
    case Send(c) => c in w.clients && w.clients[c].phase.Sending?
    case Deliver(h, post, _, checks) =>
      h !in w.handlers && post in w.posts && post.client in w.clients && env.inForce(checks)
    case Validate(h) => InPhase(w, h, Received)
    case StartWorkflow(h) => InPhase(w, h, Valid)
    case Look(h) => InPhase(w, h, Duplicate) && w.handlers[h].request.runId in w.store
    case Answer(h, status) =>
      h in w.handlers && (w.handlers[h].phase.Started? || w.handlers[h].phase.Looked?) &&
      w.handlers[h].request.runId in w.store && status in EXECUTION_STATUSES
    case Crash(h, _) => h in w.handlers
    case UpstreamError(post, response) =>
      post in w.posts &&
      (IsRetryableStatus(response.status) || (IsFinalError(response.status) && env.upstream(response.status)))
    case Receive(c, response, _) =>
      IsWaiting(w, c) && Delivery(Post(c, w.clients[c].phase.attempt), response) in w.replies
    case Break(c, _) => IsWaiting(w, c)
  }

  function Replied(w: World, h: nat, response: Response): World
    requires h in w.handlers
  {
    w.(handlers := w.handlers - {h}, replies := w.replies + {Delivery(w.handlers[h].post, response)})
  }

  function Advanced(w: World, h: nat, phase: Phase): World
    requires h in w.handlers
  {
    w.(handlers := w.handlers[h := w.handlers[h].(phase := phase)])
  }

  /** The gateway's last step: 202 for a workflow that is this request's, 409 for one that is not. */
  function Answered(env: Environment, w: World, h: nat, status: string): Response
    requires h in w.handlers && w.handlers[h].request.runId in w.store
  {
    var r := w.handlers[h].request;
    var memo := w.store[r.runId];
    if w.handlers[h].phase.Started? then Response(202, RunBody(r.runId, memo.workflow, status))
    else if w.handlers[h].phase.Looked? && memo.fingerprint == Fingerprint(r, env.le) then
      Response(202, RunBody(r.runId, w.handlers[h].phase.existing, status))
    else Response(409, ErrorBody(r.runId, r.workflow, "EXECUTION_RUN_CONFLICT"))
  }

  /** A client that has learnt the outcome of its current attempt. */
  function Informed(client: Client, outcome: Attempt): Client
    requires client.phase.Waiting?
  {
    var decision := Decide(outcome, client.phase.attempt, client.retries);
    client.(phase := if decision == Retry then Sending(client.phase.attempt + 1)
                     else Finished(Conclude(decision, client.request.runId, client.request.workflow)))
  }

  function Take(env: Environment, w: World, e: Event): World
    requires CanTake(env, w, e)
  {
    match e
    case Submit(c, request, retries) => w.(clients := w.clients[c := Client(request, retries, Sending(0))])
    case Send(c) =>
      var attempt := w.clients[c].phase.attempt;
      w.(clients := w.clients[c := w.clients[c].(phase := Waiting(attempt))], posts := w.posts + {Post(c, attempt)})
    case Deliver(h, post, timeout, checks) =>
      var request := w.clients[post.client].request.(timeoutSeconds := timeout);
      w.(handlers := w.handlers[h := Handler(post, request, checks, Received)])
    case Validate(h) =>
      var r := w.handlers[h].request;
      var refusal := Refusal(w.handlers[h].checks, r);
      if refusal.Some? then
        Replied(w, h, Response(refusal.value, ErrorBody(r.runId, r.workflow, "EXECUTION_REQUEST_INVALID")))
      else Advanced(w, h, Valid)
    case StartWorkflow(h) =>
      var r := w.handlers[h].request;
      if r.runId in w.store then Advanced(w, h, Duplicate)
      else
        Advanced(w, h, Started).(
          store := w.store[r.runId := Memo(r.workflow, Fingerprint(r, env.le))],
          starts := w.starts + [Start(w.handlers[h].post.client, r)])
    case Look(h) => Advanced(w, h, Looked(w.store[w.handlers[h].request.runId].workflow))
    case Answer(h, status) => Replied(w, h, Answered(env, w, h, status))
    case Crash(h, body) =>
      if body.None? then w.(handlers := w.handlers - {h}) else Replied(w, h, Response(500, body.value))
    case UpstreamError(post, response) => w.(replies := w.replies + {Delivery(post, response)})
    case Receive(c, response, readable) =>
      var outcome := Responded(response.status, if readable then Parsed(response.body) else Unreadable);
      w.(clients := w.clients[c := Informed(w.clients[c], outcome)])
    case Break(c, transient) =>
      var outcome := if transient then TransientFailure else OtherFailure;
      w.(clients := w.clients[c := Informed(w.clients[c], outcome)])
  }

  const NOTHING := World(map[], {}, map[], map[], [], {})

  ghost predicate Legal(env: Environment, w: World, events: seq<Event>)
    decreases |events|
  {
    events == [] || (CanTake(env, w, events[0]) && Legal(env, Take(env, w, events[0]), events[1..]))
  }

  ghost function Reached(env: Environment, w: World, events: seq<Event>): World
    requires Legal(env, w, events)
    decreases |events|
  {
    if events == [] then w else Reached(env, Take(env, w, events[0]), events[1..])
  }

  ghost predicate Possible(env: Environment, w: World) {
    exists events :: Legal(env, NOTHING, events) && Reached(env, NOTHING, events) == w
  }

  // ---- the invariant ----

  /** A handler or start acts for a client: its own request, at the gateway's timeout. */
  predicate ActsFor(clients: map<nat, Client>, c: nat, r: Request) {
    c in clients && r == clients[c].request.(timeoutSeconds := r.timeoutSeconds)
  }

  /** The store holds one workflow for each start, and there is one start for each run id. */
  ghost predicate StoreSound(env: Environment, store: map<string, Memo>, starts: seq<Start>) {
    (forall i :: 0 <= i < |starts| ==>
       starts[i].request.runId in store &&
       store[starts[i].request.runId] == Memo(starts[i].request.workflow, Fingerprint(starts[i].request, env.le))) &&
    (forall i, j :: 0 <= i < j < |starts| ==> starts[i].request.runId != starts[j].request.runId) &&
    (forall id :: id in store ==> exists i :: 0 <= i < |starts| && starts[i].request.runId == id)
  }

  /** Some handler may accept the request. */
  ghost predicate Accepted(env: Environment, r: Request) {
    exists checks :: env.inForce(checks) && Refusal(checks, r) == None
  }

  /** Some handler, or something in between, may turn the request down for good. */
  ghost predicate Refusable(env: Environment, r: Request) {
    (exists checks :: env.inForce(checks) && Refusal(checks, r).Some?) ||
    exists status :: env.upstream(status) && IsFinalError(status)
  }

  ghost predicate StartsSound(env: Environment, clients: map<nat, Client>, starts: seq<Start>) {
    forall i :: 0 <= i < |starts| ==>
      ActsFor(clients, starts[i].client, starts[i].request) && Accepted(env, starts[i].request)
  }

  /** The workflow stored under the request's id was started for this very request. */
  predicate Holds(env: Environment, store: map<string, Memo>, r: Request) {
    r.runId in store && store[r.runId].fingerprint == Fingerprint(r, env.le)
  }

  predicate Taken(env: Environment, store: map<string, Memo>, r: Request) {
    r.runId in store && store[r.runId].fingerprint != Fingerprint(r, env.le)
  }

  predicate HandlerSound(env: Environment, clients: map<nat, Client>, store: map<string, Memo>, h: Handler) {
    ActsFor(clients, h.post.client, h.request) && env.inForce(h.checks) &&
    (h.phase != Received ==> Refusal(h.checks, h.request) == None) &&
    (h.phase == Started ==> Holds(env, store, h.request)) &&
    (h.phase.Duplicate? || h.phase.Looked? ==> h.request.runId in store) &&
    (h.phase.Looked? ==> h.phase.existing == store[h.request.runId].workflow)
  }

  /** What a final status tells about the client's request. */
  ghost predicate Justified(env: Environment, store: map<string, Memo>, r: Request, status: nat) {
    (IsOk(status) ==> Holds(env, store, r)) &&
    (IsFinalError(status) ==> Refusable(env, r) || Taken(env, store, r))
  }

  ghost predicate ReplySound(env: Environment, clients: map<nat, Client>, store: map<string, Memo>, d: Delivery) {
    d.post.client in clients && Justified(env, store, clients[d.post.client].request, d.response.status)
  }

  ghost predicate ClientSound(env: Environment, store: map<string, Memo>, c: Client) {
    (c.phase == Finished(Submitted) ==> Holds(env, store, c.request)) &&
    (c.phase.Finished? && c.phase.result.Refused? ==> Refusable(env, c.request) || Taken(env, store, c.request))
  }

  ghost predicate HandlersSound(env: Environment, clients: map<nat, Client>, store: map<string, Memo>, handlers: map<nat, Handler>) {
    forall h :: h in handlers ==> HandlerSound(env, clients, store, handlers[h])
  }

  ghost predicate RepliesSound(env: Environment, clients: map<nat, Client>, store: map<string, Memo>, replies: set<Delivery>) {
    forall d :: d in replies ==> ReplySound(env, clients, store, d)
  }

  ghost predicate ClientsSound(env: Environment, store: map<string, Memo>, clients: map<nat, Client>) {
    forall c :: c in clients ==> ClientSound(env, store, clients[c])
  }

  ghost predicate PostsSound(clients: map<nat, Client>, posts: set<Post>) {
    forall post :: post in posts ==> post.client in clients
  }

  ghost predicate Inv(env: Environment, w: World) {
    StoreSound(env, w.store, w.starts) &&
    StartsSound(env, w.clients, w.starts) &&
    PostsSound(w.clients, w.posts) &&
    HandlersSound(env, w.clients, w.store, w.handlers) &&
    RepliesSound(env, w.clients, w.store, w.replies) &&
    ClientsSound(env, w.store, w.clients)
  }

  // ---- every event keeps it ----

  /** The timeout the gateway adds is no part of the fingerprint or of the checks. */
  lemma TimeoutIsIgnored(env: Environment, r: Request, timeout: nat)
    ensures Fingerprint(r.(timeoutSeconds := timeout), env.le) == Fingerprint(r, env.le)
    ensures forall checks :: Refusal(checks, r.(timeoutSeconds := timeout)) == Refusal(checks, r)
    ensures Accepted(env, r.(timeoutSeconds := timeout)) <==> Accepted(env, r)
    ensures Refusable(env, r.(timeoutSeconds := timeout)) <==> Refusable(env, r)
  {
    hide Fingerprint;
    SameFingerprint(r, timeout, env.le);
    assert forall checks :: Refusal(checks, r.(timeoutSeconds := timeout)) == Refusal(checks, r);
    hide Refusal;
  }

  lemma SameFingerprint(r: Request, timeout: nat, le: Comparator)
    ensures Fingerprint(r.(timeoutSeconds := timeout), le) == Fingerprint(r, le)
  {
  }

  /** One client moves on; its request stays. */
  lemma ClientMoves(env: Environment, w: World, c: nat, client: Client, sent: set<Post>)
    requires Inv(env, w) && ClientSound(env, w.store, client) && PostsSound(map[c := client], sent)
    requires c in w.clients ==> client.request == w.clients[c].request
    ensures Inv(env, w.(clients := w.clients[c := client], posts := w.posts + sent))
  {
    hide StoreSound, Holds, Taken, Justified, ClientSound, Refusal;
  }

  lemma ClientEventKeeps(env: Environment, w: World, e: Event)
    requires Inv(env, w) && CanTake(env, w, e) && (e.Submit? || e.Send? || e.Receive? || e.Break?)
    ensures Inv(env, Take(env, w, e))
  {
    hide Inv, ParseResponse, Holds, Taken, Refusal;
    assert w.posts + {} == w.posts;
    match e
    case Submit(c, request, retries) => ClientMoves(env, w, c, Client(request, retries, Sending(0)), {});
    case Send(c) =>
      var attempt := w.clients[c].phase.attempt;
      ClientMoves(env, w, c, w.clients[c].(phase := Waiting(attempt)), {Post(c, attempt)});
    case Receive(c, response, readable) =>
      var outcome := Responded(response.status, if readable then Parsed(response.body) else Unreadable);
      ConclusionSound(env, w, c, response, outcome.body);
      ClientMoves(env, w, c, Informed(w.clients[c], outcome), {});
    case Break(c, transient) =>
      var outcome := if transient then TransientFailure else OtherFailure;
      ClientMoves(env, w, c, Informed(w.clients[c], outcome), {});
  }

  /** A final result rests on a reply, and the reply was justified. */
  lemma ConclusionSound(env: Environment, w: World, c: nat, response: Response, body: Body)
    requires Inv(env, w) && IsWaiting(w, c) && Delivery(Post(c, w.clients[c].phase.attempt), response) in w.replies
    ensures ClientSound(env, w.store, Informed(w.clients[c], Responded(response.status, body)))
  {
    hide StoreSound, StartsSound, HandlersSound, PostsSound, Holds, Taken, Refusal, ParseResponse;
    assert ReplySound(env, w.clients, w.store, Delivery(Post(c, w.clients[c].phase.attempt), response));
  }

  lemma HandlerMoves(env: Environment, w: World, h: nat, handler: Handler)
    requires Inv(env, w) && HandlerSound(env, w.clients, w.store, handler)
    ensures Inv(env, w.(handlers := w.handlers[h := handler]))
  {
    hide StoreSound, StartsSound, RepliesSound, ClientsSound, PostsSound, HandlerSound;
  }

  lemma HandlerStops(env: Environment, w: World, gone: set<nat>, replies: set<Delivery>)
    requires Inv(env, w) && RepliesSound(env, w.clients, w.store, replies)
    ensures Inv(env, w.(handlers := w.handlers - gone, replies := w.replies + replies))
  {
    hide StoreSound, StartsSound, ClientsSound, PostsSound, HandlerSound, ReplySound;
  }

  lemma HandlerIsSound(env: Environment, w: World, h: nat)
    requires Inv(env, w) && h in w.handlers
    ensures HandlerSound(env, w.clients, w.store, w.handlers[h])
  {
    hide StoreSound, StartsSound, ClientsSound, PostsSound, HandlerSound, RepliesSound;
  }

  lemma HandlerEventKeeps(env: Environment, w: World, e: Event)
    requires Inv(env, w) && CanTake(env, w, e) && (e.Deliver? || e.Validate? || e.Look? || e.Answer? || e.Crash? || e.UpstreamError?)
    ensures Inv(env, Take(env, w, e))
  {
    hide Inv, Refusal, Fingerprint;
    match e
    case Deliver(h, post, timeout, checks) =>
      HandlerMoves(env, w, h, Handler(post, w.clients[post.client].request.(timeoutSeconds := timeout), checks, Received));
    case Validate(h) =>
      HandlerIsSound(env, w, h);
      var r := w.handlers[h].request;
      var refusal := Refusal(w.handlers[h].checks, r);
      if refusal.Some? {
        RefusalIsJustified(env, w, h);
        var response := Response(refusal.value, ErrorBody(r.runId, r.workflow, "EXECUTION_REQUEST_INVALID"));
        HandlerStops(env, w, {h}, {Delivery(w.handlers[h].post, response)});
      } else {
        HandlerMoves(env, w, h, w.handlers[h].(phase := Valid));
      }
    case Look(h) =>
      HandlerIsSound(env, w, h);
      HandlerMoves(env, w, h, w.handlers[h].(phase := Looked(w.store[w.handlers[h].request.runId].workflow)));
    case Answer(h, status) =>
      HandlerIsSound(env, w, h);
      AnswerIsJustified(env, w, h, status);
      HandlerStops(env, w, {h}, {Delivery(w.handlers[h].post, Answered(env, w, h, status))});
    case Crash(h, body) =>
      HandlerIsSound(env, w, h);
      if body.None? {
        HandlerStops(env, w, {h}, {});
        assert w.replies + {} == w.replies;
      } else {
        HandlerStops(env, w, {h}, {Delivery(w.handlers[h].post, Response(500, body.value))});
      }
    case UpstreamError(post, response) =>
      PostHasClient(env, w, post);
      HandlerStops(env, w, {}, {Delivery(post, response)});
      assert w.handlers - {} == w.handlers;
  }

  lemma PostHasClient(env: Environment, w: World, post: Post)
    requires Inv(env, w) && post in w.posts
    ensures post.client in w.clients
  {
    hide StoreSound, StartsSound, ClientsSound, HandlersSound, RepliesSound;
  }

  lemma RefusalIsJustified(env: Environment, w: World, h: nat)
    requires h in w.handlers && HandlerSound(env, w.clients, w.store, w.handlers[h])
    requires Refusal(w.handlers[h].checks, w.handlers[h].request).Some?
    ensures Justified(env, w.store, w.clients[w.handlers[h].post.client].request,
                      Refusal(w.handlers[h].checks, w.handlers[h].request).value)
  {
    hide Fingerprint;
    TimeoutIsIgnored(env, w.clients[w.handlers[h].post.client].request, w.handlers[h].request.timeoutSeconds);
  }

  lemma AnswerIsJustified(env: Environment, w: World, h: nat, status: string)
    requires CanTake(env, w, Answer(h, status)) && HandlerSound(env, w.clients, w.store, w.handlers[h])
    ensures Justified(env, w.store, w.clients[w.handlers[h].post.client].request, Answered(env, w, h, status).status)
  {
    hide Fingerprint, Refusal;
    TimeoutIsIgnored(env, w.clients[w.handlers[h].post.client].request, w.handlers[h].request.timeoutSeconds);
  }

  /** A new workflow disturbs nothing that is known about the others. */
  lemma StoreMoves(env: Environment, w: World, s: Start)
    requires Inv(env, w) && s.request.runId !in w.store
    requires ActsFor(w.clients, s.client, s.request) && Accepted(env, s.request)
    ensures Inv(env, w.(store := w.store[s.request.runId := Memo(s.request.workflow, Fingerprint(s.request, env.le))],
                      starts := w.starts + [s]))
  {
    hide Fingerprint, Refusal;
    StoreGrows(env, w.store, w.starts, s);
    hide StoreSound;
  }

  lemma StartKeeps(env: Environment, w: World, h: nat)
    requires Inv(env, w) && CanTake(env, w, StartWorkflow(h))
    ensures Inv(env, Take(env, w, StartWorkflow(h)))
  {
    hide Inv, Fingerprint, Refusal;
    HandlerIsSound(env, w, h);
    var r := w.handlers[h].request;
    if r.runId in w.store {
      HandlerMoves(env, w, h, w.handlers[h].(phase := Duplicate));
    } else {
      var s := Start(w.handlers[h].post.client, r);
      StoreMoves(env, w, s);
      var v := w.(store := w.store[r.runId := Memo(r.workflow, Fingerprint(r, env.le))], starts := w.starts + [s]);
      HandlerMoves(env, v, h, w.handlers[h].(phase := Started));
    }
  }

  lemma StoreGrows(env: Environment, store: map<string, Memo>, starts: seq<Start>, s: Start)
    requires StoreSound(env, store, starts) && s.request.runId !in store
    ensures StoreSound(env, store[s.request.runId := Memo(s.request.workflow, Fingerprint(s.request, env.le))], starts + [s])
  {
    hide Fingerprint;
    var after := store[s.request.runId := Memo(s.request.workflow, Fingerprint(s.request, env.le))];
    var all := starts + [s];
    forall id | id in after ensures exists i :: 0 <= i < |all| && all[i].request.runId == id {
      if id == s.request.runId {
        assert all[|starts|].request.runId == id;
      } else {
        var i :| 0 <= i < |starts| && starts[i].request.runId == id;
        assert all[i].request.runId == id;
      }
    }
  }

  lemma TakeKeeps(env: Environment, w: World, e: Event)
    requires Inv(env, w) && CanTake(env, w, e)
    ensures Inv(env, Take(env, w, e))
  {
    hide Inv, Take;
    if e.StartWorkflow? {
      StartKeeps(env, w, e.handler);
    } else if e.Submit? || e.Send? || e.Receive? || e.Break? {
      ClientEventKeeps(env, w, e);
    } else {
      HandlerEventKeeps(env, w, e);
    }
  }

  lemma {:induction false} ReachedKeeps(env: Environment, w: World, events: seq<Event>)
    requires Inv(env, w) && Legal(env, w, events)
    ensures Inv(env, Reached(env, w, events))
    decreases |events|
  {
    hide Inv, Take, CanTake;
    if events != [] {
      TakeKeeps(env, w, events[0]);
      ReachedKeeps(env, Take(env, w, events[0]), events[1..]);
    }
  }

  lemma PossibleSound(env: Environment, w: World)
    requires Possible(env, w)
    ensures Inv(env, w)
  {
    var events :| Legal(env, NOTHING, events) && Reached(env, NOTHING, events) == w;
    ReachedKeeps(env, NOTHING, events);
  }

  // ---- exactly-once submission ----

  /** However requests are lost, delayed or repeated, no run id is ever started twice. */
  lemma OneWorkflowPerRun(env: Environment, w: World)
    requires Possible(env, w)
    ensures forall i, j :: 0 <= i < j < |w.starts| ==> w.starts[i].request.runId != w.starts[j].request.runId
    ensures forall id :: id in w.store <==> exists i :: 0 <= i < |w.starts| && w.starts[i].request.runId == id
  {
    PossibleSound(env, w);
    hide Fingerprint, Refusal;
  }

  /**
   * A submission that returns normally has its workflow: exactly one was started under its run id,
   * for the same logical request.
   */
  lemma SubmittedHasItsWorkflow(env: Environment, w: World, c: nat)
    requires Possible(env, w) && c in w.clients && w.clients[c].phase == Finished(Submitted)
    ensures exists i ::
              0 <= i < |w.starts| && w.starts[i].request.runId == w.clients[c].request.runId &&
              SameRequest(w.starts[i].request, w.clients[c].request)
    ensures Holds(env, w.store, w.clients[c].request)
  {
    PossibleSound(env, w);
    var r := w.clients[c].request;
    hide Fingerprint, Refusal, SameRequest;
    assert ClientSound(env, w.store, w.clients[c]);
    var i :| 0 <= i < |w.starts| && w.starts[i].request.runId == r.runId;
    EqualFingerprints(w.starts[i].request, r, env.le);
  }

  lemma EqualFingerprints(a: Request, b: Request, le: Comparator)
    requires Fingerprint(a, le) == Fingerprint(b, le)
    ensures SameRequest(a, b)
  {
    CanonicalReflects(Identity(a), Identity(b), le);
    IdentitiesAgree(a, b);
  }

  ghost predicate IsRefused(w: World, c: nat) {
    c in w.clients && w.clients[c].phase.Finished? && w.clients[c].phase.result.Refused?
  }

  ghost predicate HasStarted(w: World, c: nat) {
    exists i :: 0 <= i < |w.starts| && w.starts[i].client == c
  }

  /**
   * A submission that ends with anything but success or the uncertain error has started a workflow
   * only if its request may both be accepted and be turned down for good.
   */
  lemma RefusedNeverStarts(env: Environment, w: World, c: nat)
    requires Possible(env, w) && IsRefused(w, c)
    ensures HasStarted(w, c) ==> Accepted(env, w.clients[c].request) && Refusable(env, w.clients[c].request)
    ensures Refusable(env, w.clients[c].request) || Taken(env, w.store, w.clients[c].request)
  {
    PossibleSound(env, w);
    hide Fingerprint, Refusal, Accepted, Refusable;
    var r := w.clients[c].request;
    assert ClientSound(env, w.store, w.clients[c]);
    if i :| 0 <= i < |w.starts| && w.starts[i].client == c {
      TimeoutIsIgnored(env, r, w.starts[i].request.timeoutSeconds);
    }
  }

  /**
   * That a refused submission of a request never started anything, whatever happens, holds exactly
   * where the request is not one that some handler accepts and another, or something in between, turns
   * down for good: a started but lost attempt would be followed by a refused one.
   */
  lemma RefusalsAreFinalExactly(env: Environment, r: Request)
    ensures (forall w, c :: Possible(env, w) && RefusesRequest(w, c, r) ==> !HasStarted(w, c)) <==>
            !(Accepted(env, r) && Refusable(env, r))
  {
    hide Accepted, Refusable, Possible, IsRefused, HasStarted;
    if Accepted(env, r) && Refusable(env, r) {
      var w := StartedThenRefused(env, r);
    } else {
      forall w, c | Possible(env, w) && RefusesRequest(w, c, r) ensures !HasStarted(w, c) {
        RefusedNeverStarts(env, w, c);
      }
    }
  }

  ghost predicate RefusesRequest(w: World, c: nat, r: Request) {
    IsRefused(w, c) && c in w.clients && w.clients[c].request == r
  }

  lemma PossibleNext(env: Environment, w: World, e: Event)
    requires Possible(env, w) && CanTake(env, w, e)
    ensures Possible(env, Take(env, w, e))
  {
    hide Take, CanTake;
    var events :| Legal(env, NOTHING, events) && Reached(env, NOTHING, events) == w;
    ReachedNext(env, NOTHING, events, e);
    assert Legal(env, NOTHING, events + [e]);
  }

  lemma {:induction false} ReachedNext(env: Environment, w: World, events: seq<Event>, e: Event)
    requires Legal(env, w, events) && CanTake(env, Reached(env, w, events), e)
    ensures Legal(env, w, events + [e])
    ensures Reached(env, w, events + [e]) == Take(env, Reached(env, w, events), e)
    decreases |events|
  {
    hide Take, CanTake;
    if events == [] {
      assert [e][1..] == [];
      var next := Take(env, w, e);
      assert Legal(env, next, []) && Reached(env, next, []) == next;
      assert [] + [e] == [e];
    } else {
      assert (events + [e])[1..] == events[1..] + [e];
      ReachedNext(env, Take(env, w, events[0]), events[1..], e);
    }
  }

  /** The first attempt starts the workflow and its reply is lost; the second is turned down. */
  lemma StartedThenRefused(env: Environment, r: Request) returns (w: World)
    requires Accepted(env, r) && Refusable(env, r)
    ensures Possible(env, w) && RefusesRequest(w, 0, r) && HasStarted(w, 0)
  {
    hide Possible, Accepted, Refusable, RefusesRequest, HasStarted;
    var sent := AttemptStarts(env, r);
    w := AttemptIsRefused(env, sent, r);
  }

  ghost predicate SentAgain(w: World, r: Request) {
    HasStarted(w, 0) && w.clients == map[0 := Client(r, 1, Waiting(1))] && Post(0, 1) in w.posts && 1 !in w.handlers
  }

  lemma AttemptStarts(env: Environment, r: Request) returns (w: World)
    requires Accepted(env, r)
    ensures Possible(env, w) && SentAgain(w, r)
  {
    var checks :| env.inForce(checks) && Refusal(checks, r) == None;
    hide Possible, Refusal, SentAgain, FirstAttempt, StartedOnce;
    var delivered := AttemptArrives(env, r, checks);
    var started := AttemptIsAccepted(env, delivered, r, checks);
    w := ReplyIsLost(env, started, r);
  }

  /** The first attempt has reached a handler, and nothing else has happened. */
  ghost predicate FirstAttempt(w: World, r: Request, checks: Checks) {
    w == World(map[0 := Client(r, 1, Waiting(0))], {Post(0, 0)}, map[0 := Handler(Post(0, 0), r, checks, Received)],
               map[], [], {})
  }

  lemma AttemptArrives(env: Environment, r: Request, checks: Checks) returns (w: World)
    requires env.inForce(checks)
    ensures Possible(env, w) && FirstAttempt(w, r, checks)
  {
    hide Possible;
    NothingIsPossible(env);
    w := Step(env, NOTHING, Submit(0, r, 1));
    w := Step(env, w, Send(0));
    assert w.posts == {Post(0, 0)} && w.clients == map[0 := Client(r, 1, Waiting(0))];
    w := Step(env, w, Deliver(0, Post(0, 0), r.timeoutSeconds, checks));
    assert r.(timeoutSeconds := r.timeoutSeconds) == r;
  }

  ghost predicate StartedOnce(w: World, r: Request) {
    w.clients == map[0 := Client(r, 1, Waiting(0))] && w.starts == [Start(0, r)] && 1 !in w.handlers
  }

  lemma AttemptIsAccepted(env: Environment, delivered: World, r: Request, checks: Checks) returns (w: World)
    requires Possible(env, delivered) && FirstAttempt(delivered, r, checks) && Refusal(checks, r) == None
    ensures Possible(env, w) && StartedOnce(w, r)
  {
    hide Possible, Refusal, Fingerprint;
    w := Step(env, delivered, Validate(0));
    w := Step(env, w, StartWorkflow(0));
    assert [] + [Start(0, r)] == [Start(0, r)];
  }

  lemma ReplyIsLost(env: Environment, started: World, r: Request) returns (w: World)
    requires Possible(env, started) && StartedOnce(started, r)
    ensures Possible(env, w) && SentAgain(w, r)
  {
    hide Possible;
    w := Step(env, started, Break(0, true));
    w := Step(env, w, Send(0));
    assert w.starts[0].client == 0;
  }

  lemma NothingIsPossible(env: Environment)
    ensures Possible(env, NOTHING)
  {
    assert Legal(env, NOTHING, []) && Reached(env, NOTHING, []) == NOTHING;
  }

  lemma Step(env: Environment, w: World, e: Event) returns (next: World)
    requires Possible(env, w) && CanTake(env, w, e)
    ensures next == Take(env, w, e) && Possible(env, next)
  {
    PossibleNext(env, w, e);
    next := Take(env, w, e);
  }

  lemma AttemptIsRefused(env: Environment, sent: World, r: Request) returns (w: World)
    requires Possible(env, sent) && SentAgain(sent, r) && Refusable(env, r)
    ensures Possible(env, w) && RefusesRequest(w, 0, r) && HasStarted(w, 0)
  {
    hide Possible, Fingerprint, ErrorBody;
    if checks :| env.inForce(checks) && Refusal(checks, r).Some? {
      w := Step(env, sent, Deliver(1, Post(0, 1), r.timeoutSeconds, checks));
      assert w.handlers[1].request == r;
      w := Step(env, w, Validate(1));
      var response := Response(Refusal(checks, r).value, ErrorBody(r.runId, r.workflow, "EXECUTION_REQUEST_INVALID"));
      assert Delivery(Post(0, 1), response) in w.replies;
      w := Step(env, w, Receive(0, response, true));
    } else {
      var status :| env.upstream(status) && IsFinalError(status);
      w := Step(env, sent, UpstreamError(Post(0, 1), Response(status, Null)));
      assert Delivery(Post(0, 1), Response(status, Null)) in w.replies;
      w := Step(env, w, Receive(0, Response(status, Null), true));
    }
  }

  /** A finished submission never changes its mind. */
  lemma {:induction false} FinishedStays(env: Environment, w: World, events: seq<Event>, c: nat)
    requires Legal(env, w, events) && c in w.clients && w.clients[c].phase.Finished?
    ensures c in Reached(env, w, events).clients && Reached(env, w, events).clients[c] == w.clients[c]
    decreases |events|
  {
    hide Take, CanTake;
    if events != [] {
      FinishedStaysOnce(env, w, events[0], c);
      FinishedStays(env, Take(env, w, events[0]), events[1..], c);
    }
  }

  lemma FinishedStaysOnce(env: Environment, w: World, e: Event, c: nat)
    requires CanTake(env, w, e) && c in w.clients && w.clients[c].phase.Finished?
    ensures c in Take(env, w, e).clients && Take(env, w, e).clients[c] == w.clients[c]
  {
    hide Fingerprint, Refusal, ParseResponse, Answered;
  }

  /** Every 202 the gateway sends, read whole, is a valid creation response for the client that asked. */
  lemma AcceptedResponsesParse(env: Environment, w: World, h: nat, status: string)
    requires Possible(env, w) && CanTake(env, w, Answer(h, status)) && Answered(env, w, h, status).status == 202
    requires w.handlers[h].request.workflow in REVIEW_WORKFLOWS
    ensures AskedBy(w, w.handlers[h])
    ensures var r := w.handlers[h].request;
            ParseResponse(Answered(env, w, h, status).body, r.runId, r.workflow) == None
  {
    var r := w.handlers[h].request;
    RunBodyParses(r.runId, r.workflow, status);
    hide Fingerprint, Refusal, ParseResponse, RunBody, ErrorBody, Inv;
    PossibleSound(env, w);
    HandlerIsSound(env, w, h);
    StoredWorkflow(env, w, r);
  }

  lemma RunBodyParses(runId: string, workflow: string, status: string)
    requires status in EXECUTION_STATUSES && workflow in REVIEW_WORKFLOWS
    ensures ParseResponse(RunBody(runId, workflow, status), runId, workflow) == None
  {
    ResponseFields(runId, workflow, status);
    hide Field;
  }

  /** An equal fingerprint is stored together with an equal workflow name. */
  lemma StoredWorkflow(env: Environment, w: World, r: Request)
    requires Inv(env, w)
    ensures Holds(env, w.store, r) ==> w.store[r.runId].workflow == r.workflow
  {
    hide Fingerprint, Refusal, HandlersSound, ClientsSound, RepliesSound;
    if Holds(env, w.store, r) {
      var i :| 0 <= i < |w.starts| && w.starts[i].request.runId == r.runId;
      EqualFingerprints(w.starts[i].request, r, env.le);
    }
  }

  predicate AskedBy(w: World, h: Handler) {
    h.post.client in w.clients && w.clients[h.post.client].request.runId == h.request.runId &&
    w.clients[h.post.client].request.workflow == h.request.workflow
  }

  lemma ResponseFields(runId: string, workflow: string, status: string)
    ensures var q := RunBody(runId, workflow, status).entries;
            Field(q, "run_id") == Some(Text(runId)) && Field(q, "workflow") == Some(Text(workflow)) &&
            Field(q, "status") == Some(Text(status))
  {
    var q := RunBody(runId, workflow, status).entries;
    DifferentNames();
    var second, third := q[1..], q[1..][1..];
    assert second[0] == Entry("workflow", Text(workflow)) && third[0] == Entry("status", Text(status));
    assert Field(q, "status") == Field(second, "status") == Field(third, "status");
  }

  lemma DifferentNames()
    ensures "run_id" != "workflow" && "run_id" != "status" && "workflow" != "status"
  {
    assert |"run_id"| == 6 && |"workflow"| == 8 && "run_id"[0] != "status"[0];
  }
}
