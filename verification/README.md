# Verified models of the review platform's state machines and parsers

This project models the parts of the repository whose correctness is hardest to see from one
function body, and proves what they promise for every input, every run and every interleaving.

**The memory catalog** (`Catalog*.dfy`) is a transactional store of memory extractions, their
observations, and a numbered tree of memory revisions with an active pointer, a pause/resume control
and restore operations. `CatalogSpec` gives each operation as one atomic step. `CatalogStore` is the
store itself: one field per table, one method per operation, statements in their order, with what was
written put back when an operation throws. `CatalogInvariant` and `CatalogHistory` prove what every
reachable state and every run keeps. `CatalogTransactions` splits the same operations into single
statements under READ COMMITTED, with advisory and row locks held to the end of the transaction;
`CatalogProtection`, `CatalogSerial`, `CatalogSerialTree` and `CatalogConcurrency` prove that every
interleaving commits what the atomic steps would, and `CatalogCompleteness` proves the converse.
`CatalogInput` covers the one reply that interleaving can change, `CatalogDrain` the backlog, and
`CatalogPages` the cursor pagination. `CatalogMeaning` says what the operations mean column by column:
when each commits, how it fails otherwise, and what the rows it writes hold; `CatalogReplay` says which
requests are recognised as repeated.

**Exactly-once submission** (`CanonicalJson`, `CanonicalMeaning`, `Submission`, `SubmissionOutcomes`): the
canonical form of a JSON value, the request fingerprint made from it, and the protocol between retrying
clients, a gateway and the workflow store over a channel that loses, delays and repeats requests.

**Archives** (`PaxRecord`, `TarHeader`, `TarEnvelope`, `TarEncoder`, `TarMeaning`, `PathText`,
`InputBundle`, `BundleMeaning`): the byte-level reader of restricted tar archives as a loop over a
stream, the grammar of what it accepts, a writer that it inverts, and the input-bundle profile on top.
Formats follow the `pax` utility of IEEE Std 1003.1 ("pax Extended Header", "ustar Interchange Format")
and section 4 of RFC 3629.

**Smaller cores**: the transcript reader (`Transcript`), the token usage aggregator (`UsageTotals`,
`UsageMeaning`), the backward splice of text edits (`TextEdits`) and the path routing of the container
sandbox (`PathRoutes`). `Ordering` is the order by `(created_at, id)` that the catalog sorts by;
`Basics` holds what all components share.

## What the code does not promise

The proofs settle some expectations that do not hold as they stand. For each, one lemma shows the
failure happening and one gives the exact condition.

- A replay query of a restore or a pause/resume change runs before any lock is taken, so a concurrent
  repetition can end in a conflict or key error instead of the recorded result, though it never commits
  twice: `CatalogCompleteness.OutrunReplayHappens`, exactly when `CatalogConcurrency.AbortsLeaveNoTrace`
  says.
- The maintenance input is read by two statements and can be one that no single read would have given:
  `CatalogCompleteness.TornInputHappens`, exactly when `CatalogInput.JoinedIsSomeRead` says. It does
  little harm: a creation made from it commits only while all it lists is pending and the pointer is the
  one it names, and then consumes exactly what it lists (`CatalogInput.JoinedCreation`,
  `CatalogInput.JoinedCreationConsumesListed`). What it may do is pass over an older observation
  registered between the reads, which stays pending.
- Timestamps are stored in microseconds and cursors carry milliseconds, so rows of one millisecond can
  be lost at a page end: `CatalogPages.RowsOfOneMillisecondAreLost`, exactly when
  `CatalogPages.ListingIsTheTable` says.
- Canonical JSON sorts keys with a locale comparison, which may tie distinct keys:
  `CanonicalJson.TiedKeysDiffer`, exactly when `CanonicalJson.CanonicalFormDecides` says.
- A submission refused after a reply may have started its workflow on an earlier, lost attempt, if the
  gateway's checks change or a proxy answers in between: `Submission.RefusalsAreFinalExactly` has the
  condition and, in its proof, the run.
- A self-inclusive PAX record length always exists but need not be unique:
  `PaxRecord.LengthIsNotUnique`, exactly when `PaxRecord.TwoLengthsExactly` says.
- Usage totals pass the consumer's checks only while they are safe integers:
  `UsageTotals.LargeTotalsAreRefused`, `UsageTotals.ConsumerAcceptsSafeTotals`.
- The splice alone would depend on the order of collection if two ranges started together:
  `TextEdits.OrderShowsAtSharedStarts`, both ways. The generator collects no empty ranges, and then
  disjoint edits never start together: `TextEdits.NonemptyEditsSplice`.
- Below a container root without parts, translation and transfer name different numbers of leading
  slashes: `PathRoutes.TransferDiffersBelowSlash`, exactly when
  `PathRoutes.TransferAgreesWithTranslation` says. The root `//` matches only itself:
  `PathRoutes.BareRootMatchesOnlyItself`.

## Model

| member | source | states |
|---|---|---|
| CatalogStore.Store.constructor | services/memory-catalog/src/database/schema-versions/001_initial_catalog.sql:91-128 | a new catalog has empty tables, active revision 0 and maintenance enabled at generation 0, and satisfies the invariant |
| CatalogStore.Store.ReserveExtractionPublication | services/memory-catalog/src/catalog-store.ts:120-147 | inserting or finding the reservation is the atomic step, keeps the invariant, and touches no other table |
| CatalogStore.Store.ConfirmExtractionPublication | services/memory-catalog/src/catalog-store.ts:149-166 | only the reserved intent is confirmed; a selected publication stays selected |
| CatalogStore.Store.RegisterExtraction | services/memory-catalog/src/catalog-store.ts:242-323 | the statements in order, with the rollback of a throw, have exactly the outcome of the atomic step |
| CatalogStore.Store.ReserveRevisionPublication | services/memory-catalog/src/catalog-store.ts:179-206 | as for extractions, per owner and content digests |
| CatalogStore.Store.ConfirmRevisionPublication | services/memory-catalog/src/catalog-store.ts:208-225 | as for extractions, per owner and content digests |
| CatalogStore.Store.CreateMemoryTreeRevision | services/memory-catalog/src/catalog-store.ts:459-626 | selection, replay, guards, numbering, consumption and pointer move, or no change at all |
| CatalogStore.Store.IsIdentical | services/memory-catalog/src/catalog-store.ts:494-530 | comparing sorted lists decides whether the stored revision is the requested one |
| CatalogStore.Store.RestoreMemoryTree | services/memory-catalog/src/catalog-store.ts:628-702 | a restore moves the pointer to an existing revision once per operation id, or changes nothing |
| CatalogStore.Store.ChangeMaintenanceControl | services/memory-catalog/src/catalog-store.ts:325-425 | a transition happens once per operation id, from the opposite state at the expected generation |
| CatalogStore.Store.GetMaintenanceInput | services/memory-catalog/src/catalog-store.ts:427-457 | the oldest pending observations with the active revision, changing nothing |
| CatalogMeaning.RegistrationDecides | services/memory-catalog/src/catalog-store.ts:242-323 | a registration commits exactly when its publication is confirmed and none is selected, is recognised exactly when its own is selected, and fails with the stated error otherwise |
| CatalogMeaning.RegistrationStores | services/memory-catalog/src/catalog-store.ts:264-287 | a registration that commits stores each of its fields, its observation as pending if it has one, and selects its publication; rows of other ids stay |
| CatalogMeaning.FreshExtractionPublication | services/memory-catalog/src/catalog-store.ts:120-166 | under a key without a row, reserving writes a reserved row and confirming makes it present |
| CatalogMeaning.ExtractionPublicationAnswers | services/memory-catalog/src/catalog-store.ts:120-166 | a reservation finds or makes the row of its extraction and digest and fails on another intent, a confirmation needs the reserved intent, and a selected publication stays selected |
| CatalogMeaning.FreshRegistrationCommits | services/memory-catalog/src/catalog-store.ts:120-323 | reserve, confirm and register in a row succeed for any extraction not stored, with a trajectory not published for it, and store what was brought |
| CatalogMeaning.CreationDecides | services/memory-catalog/src/catalog-store.ts:459-582 | a creation is recognised exactly when it is its owner's selected publication; when it is confirmed and no other is selected, pause, pointer and observations decide, in this order, between three errors and the next revision |
| CatalogMeaning.CreationStores | services/memory-catalog/src/catalog-store.ts:583-617 | a creation that commits adds the next revision, with the request's tree, id, trajectory or actor and the active revision as predecessor, makes it active, and changes no other revision |
| CatalogMeaning.LineageFollowsPointer | services/memory-catalog/src/database/schema-versions/001_initial_catalog.sql:36-75 | in every run each revision was made by one of its operations and has as predecessor the revision that was active just before |
| CatalogMeaning.RevisionPublicationAnswers | services/memory-catalog/src/catalog-store.ts:179-225 | a reservation finds or makes the row of its owner and digests, a confirmation needs it, and the replies disclose all but an operator's actor |
| CatalogMeaning.RestoreDecides | services/memory-catalog/src/catalog-store.ts:628-702 | a restore under a new id commits exactly when the pointer is the expected one and the target is one of the revisions 1 to n, is recognised exactly when its row holds the same request, and writes that row and the pointer alone |
| CatalogMeaning.ControlDecides | services/memory-catalog/src/catalog-store.ts:325-425 | a change under a new id commits exactly when the generation is the expected one and the control is not yet the target's, and is recorded with its actor, time and next generation |
| CatalogMeaning.InputMeans | services/memory-catalog/src/catalog-store.ts:427-457 | the input names the active revision and its tree and lists the oldest pending observations, by time and id, up to the limit |
| CatalogMeaning.NextInputOffersTree | services/memory-catalog/src/catalog-store.ts:427-457 | after a committed creation the next input offers its tree under its number |
| Ordering.SortedListIsSortedSet | services/memory-catalog/src/catalog-store.ts:499-530 | an aggregated sorted array equals the sorted request exactly when the request lists those ids without repetition |
| Ordering.SortUnique | services/memory-catalog/src/catalog-store.ts:427-457 | `order by created_at, extraction_id` determines the sequence |
| Ordering.TextLessMeans | services/memory-catalog/src/catalog-store.ts:427-457 | ids are ordered by their first differing code unit, a prefix first |
| CatalogInvariant.ReachableInv | services/memory-catalog/src/catalog-store.ts:120-702 | every reachable state keeps ledgers, numbering, consumption, restores and control consistent |
| CatalogHistory.SelectionIsAuthoritative | services/memory-catalog/src/catalog-store.ts:242-626 | in every reachable state each owner has at most one selected publication, selected exactly when its row exists with the same content |
| CatalogHistory.ContentNeverDiffersAfterSelection | services/memory-catalog/src/catalog-store.ts:297-535 | both "already exists with different content" branches after a selection are unreachable |
| CatalogHistory.RunExtends | services/memory-catalog/src/catalog-store.ts:242-702 | no later operation changes or removes a selection, extraction, consumed observation, revision, restore or control row |
| CatalogHistory.ReplayIsIdempotent | services/memory-catalog/src/catalog-store.ts:330-424 | once committed, an operation repeated after any later steps returns the recorded result with `created=false` and leaves the state unchanged |
| CatalogReplay.RecognisedExactlyWhenCommitted | services/memory-catalog/src/catalog-store.ts:242-702 | after any run a request is answered with `created=false` exactly when the very same request, whatever its time, committed in that run |
| CatalogHistory.ConsumedForever | services/memory-catalog/src/catalog-store.ts:605-610 | an observation once consumed belongs to the same revision in every later state |
| CatalogHistory.RevisionConsumesItsIntent | services/memory-catalog/src/catalog-store.ts:566-610 | a maintenance revision has consumed exactly its intent's ids, free of repetition; an operator revision none |
| CatalogHistory.OperationConsumes | services/memory-catalog/src/catalog-store.ts:566-610 | only a committed maintenance creation consumes, and only the pending ids it lists |
| CatalogHistory.StaleInputChangesNothing | services/memory-catalog/src/catalog-store.ts:557-582 | a creation from a stale input commits nothing and leaves the state as it was |
| CatalogHistory.RevisionsAreNumbered | services/memory-catalog/src/catalog-store.ts:583-617 | revisions are 1..n, only the first has no predecessor, every lineage descends to it, and the pointer is 0 exactly when n is |
| CatalogHistory.PointerWalks | services/memory-catalog/src/catalog-store.ts:557-702 | committed creations and restores form a walk: each expects the revision the one before left active |
| CatalogHistory.GenerationCountsCommits | services/memory-catalog/src/catalog-store.ts:359-424 | the control generation grows by the number of committed changes of a run |
| CatalogHistory.ControlFollowsGeneration | services/memory-catalog/src/catalog-store.ts:359-424 | the parity of the generation is the control state in every run from installation |
| CatalogDrain.MaintenanceDrains | services/memory-catalog/src/catalog-store.ts:427-457 | k rounds of input, reserve, confirm and create all commit and consume exactly the oldest min(k·limit, pending) observations |
| CatalogDrain.DrainedCount | services/memory-catalog/src/catalog-store.ts:427-457 | after k rounds max(0, pending − k·limit) observations are left |
| CatalogDrain.RoundMakes | services/memory-catalog/src/catalog-store.ts:583-597 | the revision a round makes holds the round's tree, maintenance id and trajectory and continues the revision its input named |
| CatalogProtection.CommitRespectsLocks | services/memory-catalog/src/catalog-store.ts:242-323 | an operation that does not hold a lock leaves alone every row the lock stands for |
| CatalogConcurrency.StatementSound | services/memory-catalog/src/catalog-store.ts:459-626 | a statement run on the committed rows and its own writes keeps what the transaction knows, and errs as the atomic step would, with one exact exception |
| CatalogConcurrency.CommitSound | services/memory-catalog/src/catalog-store.ts:38-54 | what a transaction commits is the atomic step on the rows committed at that moment |
| CatalogConcurrency.EveryInterleavingIsSerial | services/memory-catalog/src/catalog-store.ts:38-54 | under any interleaving the committed rows are those of the committed operations run one by one in commit order |
| CatalogConcurrency.CommittedReplyIsAtomic | services/memory-catalog/src/catalog-store.ts:38-54 | and each reply is that of the atomic step at its place in that order |
| CatalogConcurrency.AbortsLeaveNoTrace | services/memory-catalog/src/catalog-store.ts:330-381 | a throw or lost connection changes nothing else; its error is the atomic one unless an unlocked replay query was outrun, and then it is not |
| CatalogConcurrency.LocksAreOrdered | services/memory-catalog/src/catalog-store.ts:462-571 | every lock a statement waits for ranks above those held: owner, publication row, control, tree, observations |
| CatalogConcurrency.NoDeadlock | services/memory-catalog/src/catalog-store.ts:462-571 | in every reachable database with an open transaction some transaction can go on |
| CatalogConcurrency.WaitersCompete | services/memory-catalog/src/catalog-store.ts:462-571 | in every reachable database a transaction waits for another only at an owner, row, control, pointer or observation that both requests name; a reader of the input never waits |
| CatalogConcurrency.StatementsAreFinite | services/memory-catalog/src/catalog-store.ts:459-626 | every transaction ends after at most thirteen statements |
| CatalogCompleteness.RunsAlone | services/memory-catalog/src/catalog-store.ts:38-54 | a transaction that nobody blocks ends exactly as its atomic step |
| CatalogCompleteness.InterleavingsReachAtomicStates | services/memory-catalog/src/catalog-store.ts:38-54 | interleaved and atomic catalogs reach exactly the same rows |
| CatalogCompleteness.TornInputHappens | services/memory-catalog/src/catalog-store.ts:427-457 | wherever a round is possible, a reader overtaken by it returns an input that no committed state from before the round on gives |
| CatalogCompleteness.OutrunReplayHappens | services/memory-catalog/src/catalog-store.ts:330-381 | after any run that lets a restore or control change commit, a second transaction of the same operation can be overtaken by it and fail where one step would answer with the recorded result |
| CatalogInput.InputJoinsTwoStates | services/memory-catalog/src/catalog-store.ts:427-457 | the input a reader returns joins the observations of one committed state with the pointer of the same or a later one, neither older than its transaction |
| CatalogInput.JoinedMeans | services/memory-catalog/src/catalog-store.ts:427-457 | a joined input lists what was oldest in the one state and names the revision and tree active in the other |
| CatalogInput.JoinedIsAtomic | services/memory-catalog/src/catalog-store.ts:427-457 | the joined input is what a state between the reads gives exactly when all it lists is still pending there, nothing else pending comes before its end or would have fitted, and the pointer, unless nothing is listed, is the later one |
| CatalogInput.JoinedIsSomeRead | services/memory-catalog/src/catalog-store.ts:427-457 | some single read between the two gives the joined input exactly when some committed state between them is such |
| CatalogInput.JoinedCreation | services/memory-catalog/src/catalog-store.ts:557-582 | a creation made from any joined input, with nothing else in its way, commits exactly when the pointer is the one read last and all it lists is pending |
| CatalogInput.JoinedCreationConsumesListed | services/memory-catalog/src/catalog-store.ts:566-610 | and any such creation that commits consumes exactly the listed observations |
| CatalogInput.ConsumedInputNeverCommits | services/memory-catalog/src/catalog-store.ts:566-582 | an input listing an observation consumed meanwhile never commits under an id without a revision |
| CatalogPages.FollowDescends | services/memory-catalog/src/catalog-queries.ts:153-202 | whatever is inserted between pages, rows come strictly newest first, so none is repeated |
| CatalogPages.ReturnedUnlessSkipped | services/memory-catalog/src/catalog-queries.ts:153-202 | a row present throughout is returned exactly when it falls in no gap between a page's last row and its cursor |
| CatalogPages.WholeTimesSkipNothing | services/memory-catalog/src/catalog-queries.ts:77-107 | at the cursor's precision there are no gaps |
| CatalogPages.FollowingEnds | services/memory-catalog/src/catalog-queries.ts:153-202 | following cursors ends within as many requests as there are rows, plus one |
| CatalogPages.ListingIsTheTable | services/memory-catalog/src/catalog-queries.ts:153-202 | listing gives the whole table for every page size exactly when no cursor swallows a row |
| CatalogPages.RowsOfOneMillisecondAreLost | services/memory-catalog/src/catalog-queries.ts:194-201 | two rows of one millisecond and a page of one row lose the earlier row |
| CatalogPages.ExtractionListing | services/memory-catalog/src/catalog-queries.ts:153-202 | with any operations between its requests a client comes to the end within one request more than there are rows, newest first, none twice, and lists every extraction present at the start unless skipped as above, for any filter |
| CatalogPages.ListedRowsMean | services/memory-catalog/src/catalog-queries.ts:153-259 | the listed rows are exactly those that pass each condition of the filter, under their creation time and id |
| CatalogPages.ExtractionsStayListed | services/memory-catalog/src/catalog-queries.ts:165-182 | an extraction keeps matching a filter it matched |
| CatalogPages.ObservationsStayListed | services/memory-catalog/src/catalog-queries.ts:204-259 | so does an observation, unless only pending ones are asked for |
| CatalogPages.ObservationListing | services/memory-catalog/src/catalog-queries.ts:204-259 | the same for observations and every filter, for the rows that match throughout; unless only pending ones are asked for, those are all that match at the start |
| CatalogPages.RevisionListing | services/memory-catalog/src/catalog-queries.ts:493-520 | the same for revisions, paged by number: every one present at the start is listed, once |
| CatalogPages.RunsEvolve | services/memory-catalog/src/catalog-queries.ts:153-259 | the states a client meets between any operations are sound and each extends the ones before |
| CanonicalJson.CanonicalReflects | services/execution-gateway/src/temporal-execution-client.ts:41-51 | equal canonical forms come only from values that differ in nothing but key order |
| CanonicalJson.CanonicalForgets | services/execution-gateway/src/temporal-execution-client.ts:41-51 | values of any depth that differ only in key order have equal canonical forms, if the comparison ties no keys |
| CanonicalJson.CanonicalFormDecides | services/execution-gateway/src/temporal-execution-client.ts:41-51 | canonical equality is equality up to key order, for all values, exactly when the comparison separates keys |
| CanonicalJson.TiedKeysDiffer | services/execution-gateway/src/temporal-execution-client.ts:41-51 | two tied keys are enough for a counterexample |
| CanonicalJson.CanonicalIsIdempotent | services/execution-gateway/src/temporal-execution-client.ts:41-51 | a canonical form is its own canonical form, whatever is tied |
| CanonicalJson.FingerprintDecides | services/execution-gateway/src/temporal-execution-client.ts:26-39 | equal fingerprints mean the same workflow, run id, input and runtime up to key order, conversely if the comparison ties no keys; the timeout never shows, whatever is tied |
| CanonicalMeaning.IndexMeans | services/execution-gateway/src/temporal-execution-client.ts:41-51 | the keys that objects enumerate first are the decimal texts of the numbers below 2^32 - 1 |
| CanonicalMeaning.CanonicalMeans | services/execution-gateway/src/temporal-execution-client.ts:41-51 | at every level the canonical form has the same members, index keys first by number and the others in the comparator's order, array items in place, and everything else untouched |
| Submission.RequestLoop | services/review-runs/src/execution-client.ts:322-374 | the loop ends at the first outcome not worth repeating or at the last attempt, and returns or throws accordingly |
| Submission.OneWorkflowPerRun | services/execution-gateway/src/temporal-execution-client.ts:81-121 | however requests are lost, delayed or repeated, no run id is started twice |
| Submission.SubmittedHasItsWorkflow | services/review-runs/src/execution-client.ts:409-454 | a submission that returns normally has exactly one workflow under its run id, started for the same logical request |
| Submission.RefusedNeverStarts | services/review-runs/src/execution-client.ts:431-443 | a submission that throws anything but the uncertain error after a reply has started a workflow only if its request may be both accepted and refused |
| Submission.RefusalsAreFinalExactly | services/review-runs/src/execution-client.ts:431-443 | refused submissions of a request never start a workflow, in any world, exactly where the request is not both accepted by some handler's checks and turned down for good by another's or by a proxy |
| Submission.FinishedStays | services/review-runs/src/execution-client.ts:409-454 | a finished submission keeps its result through any further events |
| Submission.AcceptedResponsesParse | services/execution-gateway/src/server.ts:99-113 | every 202, also one for an existing workflow, is a valid creation response for the client that asked |
| SubmissionOutcomes.AttemptDecides | services/review-runs/src/execution-client.ts:341-374 | how a submission goes on after each outcome of an attempt: repeated, submitted, refused with that status, or uncertain |
| SubmissionOutcomes.ValidMeansAcknowledges | services/review-runs/src/execution-client.ts:376-407 | a creation response is valid exactly when it names the run, its workflow and a known status |
| SubmissionOutcomes.AnswersDecide | services/execution-gateway/src/temporal-execution-client.ts:98-115 | whatever came before, the answer of a handler that started the workflow, or found it started for this request, makes the waiting client's submission succeed, and any other makes it refused with 409 |
| SubmissionOutcomes.SameRequestIsFound | services/execution-gateway/src/temporal-execution-client.ts:98-107 | a handler finds a stored run to be its own exactly when it was started for the same logical request, if the comparison ties no keys |
| SubmissionOutcomes.ChecksDecide | services/execution-gateway/src/server.ts:72-98 | an unauthorised request is answered 401, an unsupported workflow or invalid input 400, anything else goes on |
| SubmissionOutcomes.ResubmissionSucceeds | services/review-runs/src/execution-client.ts:322-374 | for every acceptable request, a submission whose first attempt started the workflow and lost its reply can succeed by its second, with one workflow started |
| Submission.ReachedKeeps | services/execution-gateway/src/server.ts:72-126 | every reply, handler and client stays justified by the store through any events |
| PaxRecord.EveryPathHasRecord | agents/src/sec_review_agents/artifacts/tar_zstd.py:72-96 | every path has a record whose length counts its own digits, and the parser reads it back exactly when that length has no more digits than Python converts |
| PaxRecord.RecordLengthIsExact | agents/src/sec_review_agents/artifacts/tar_zstd.py:80-82 | the computed length satisfies L = digits(L) + size + 7 |
| PaxRecord.LengthIsNotUnique | agents/src/sec_review_agents/artifacts/tar_zstd.py:80-82 | one value may have two such lengths |
| PaxRecord.TwoLengthsExactly | agents/src/sec_review_agents/artifacts/tar_zstd.py:80-82 | a size has two such lengths, adjacent ones, exactly when size + d + 8 is the d-th power of ten for some d |
| PaxRecord.PaxPathDecides | agents/src/sec_review_agents/artifacts/tar_zstd.py:72-96 | a body is accepted with a value exactly when it is one `path` record of that value |
| PaxRecord.DigitsAreDecimal | agents/src/sec_review_agents/artifacts/tar_zstd.py:77-80 | a length field is the decimal number up to leading zeros |
| PaxRecord.ParsePaxPath | agents/src/sec_review_agents/artifacts/tar_zstd.py:72-96 | the loop accepts exactly the records and names the fault otherwise |
| TarHeader.ChecksumFits | agents/src/sec_review_agents/artifacts/tar_zstd.py:152-156 | the checksum of any header is below 8^6 |
| TarHeader.OctalField | agents/src/sec_review_agents/artifacts/tar_zstd.py:45-53 | a number written in octal is read back from its field |
| TarHeader.EncodedHeaderParses | agents/src/sec_review_agents/artifacts/tar_zstd.py:150-163 | a written header passes magic and checksum and gives back kind and size |
| TarHeader.EncodedHeaderEntry | agents/src/sec_review_agents/artifacts/tar_zstd.py:191-217 | and its metadata is canonical, with the path of the header or of the PAX block |
| TarHeader.HeaderPathIsText | agents/src/sec_review_agents/artifacts/tar_zstd.py:56-62 | a path put together from prefix and name is well-formed UTF-8 |
| TarMeaning.OctalDecides | agents/src/sec_review_agents/artifacts/tar_zstd.py:45-53 | a numeric field is read as a number exactly when it holds octal digits of it between spaces, up to a NUL |
| TarMeaning.HeaderDecides | agents/src/sec_review_agents/artifacts/tar_zstd.py:150-163 | a header is read exactly when its magic is right, its checksum field holds the sum of its bytes, its size field holds the size and its flag names the kind |
| TarMeaning.HeaderFaultDecides | agents/src/sec_review_agents/artifacts/tar_zstd.py:150-163 | which error a refused header raises: the first of magic, checksum field, checksum, size and type that is wrong |
| TarMeaning.CorruptionIsRefused | agents/src/sec_review_agents/artifacts/tar_zstd.py:152-156 | an accepted header with any one byte outside the checksum changed is refused |
| TarMeaning.EntryDecides | agents/src/sec_review_agents/artifacts/tar_zstd.py:186-217 | an entry is taken exactly when mode, owner, time, owner names and a directory's size are canonical, with the path of the PAX block or of the header's name and prefix |
| TarMeaning.Utf8Means | agents/src/sec_review_agents/artifacts/tar_zstd.py:56-69 | bytes are valid UTF-8 exactly when they encode some sequence of scalar values |
| TarEnvelope.ReadEnvelope | agents/src/sec_review_agents/artifacts/tar_zstd.py:130-227 | the reading loop computes the stream function, fault by fault |
| TarEnvelope.DiscardExact | agents/src/sec_review_agents/artifacts/tar_zstd.py:106-112 | exactly the given number of bytes is skipped, or the stream was shorter |
| TarEnvelope.OnlyZeros | agents/src/sec_review_agents/artifacts/tar_zstd.py:219-222 | the chunked scan decides whether the rest of the stream is zero |
| TarEnvelope.AcceptsExactlySplits | agents/src/sec_review_agents/artifacts/tar_zstd.py:130-227 | a stream is accepted exactly when it is legal segments and at least two zero blocks, within both budgets; the result is their entries |
| TarEnvelope.SplitIsUnique | agents/src/sec_review_agents/artifacts/tar_zstd.py:130-227 | an accepted stream splits in one way only |
| TarMeaning.ReaderDecides | agents/src/sec_review_agents/artifacts/tar_zstd.py:130-227 | the reader returns entries exactly for streams of segments whose header bytes, PAX records and padded data say those entries, closed by two or more zero blocks, within both budgets |
| TarEncoder.RoundTrip | agents/src/sec_review_agents/artifacts/tar_zstd.py:130-227 | any canonical items, written and read, give exactly their entries within the budgets and a fault beyond them |
| InputBundle.ValidateInputBundle | agents/src/sec_review_agents/entrypoints/input_bundle_artifact.py:41-71 | the loop accepts exactly the sequences that satisfy all six rules and names a violated one otherwise |
| InputBundle.RequireParentDirectories | agents/src/sec_review_agents/entrypoints/input_bundle_artifact.py:27-38 | the parent loop ends and decides whether every directory above every entry is an entry |
| InputBundle.ValidateSafePaths | agents/src/sec_review_agents/artifacts/archive.py:20-35 | the check accepts exactly the sequences of safe paths |
| InputBundle.SafeEntryStaysInside | agents/src/sec_review_agents/artifacts/archive.py:20-35 | resolving a safe path part by part never leaves the root |
| InputBundle.AcceptedIsCanonical | agents/src/sec_review_agents/entrypoints/input_bundle_artifact.py:41-63 | two accepted bundles with the same entries are the same sequence |
| InputBundle.ParentsPrecede | agents/src/sec_review_agents/entrypoints/input_bundle_artifact.py:27-63 | every directory a path runs through is an earlier directory entry |
| InputBundle.PrefixIsLess | agents/src/sec_review_agents/entrypoints/input_bundle_artifact.py:55-58 | a proper prefix sorts first |
| BundleMeaning.LessMeans | agents/src/sec_review_agents/entrypoints/input_bundle_artifact.py:54-58 | paths are ordered by their first differing byte, a prefix first |
| BundleMeaning.AllowedMeans | agents/src/sec_review_agents/entrypoints/input_bundle_artifact.py:15-24 | a safe path is allowed exactly when it is one of the two files or, part by part, lies in one of the two directories |
| BundleMeaning.SafeMeans | agents/src/sec_review_agents/artifacts/archive.py:20-35 | an entry is safe exactly when its path is spelled by nonempty parts other than dots, ends in a slash exactly for a directory, and holds no backslash and no NUL |
| BundleMeaning.KeptMeans | agents/src/sec_review_agents/entrypoints/input_bundle_artifact.py:27-38 | the parts looked at are those of the path that are neither empty nor a single dot, in order |
| Transcript.ReadTrajectory | apps/control-plane-ui/shared/trajectory-events.ts:134-181 | the reader accepts exactly the files of valid records that form a well-formed trace, and returns their events |
| Transcript.WellFormedNext | apps/control-plane-ui/shared/trajectory-events.ts:142-177 | an event extends a well-formed trace exactly when it passes the reader's checks |
| Transcript.WellFormedIsPrefixClosed | apps/control-plane-ui/shared/trajectory-events.ts:134-181 | every prefix of a well-formed trace is one |
| Transcript.EndedCallsHaveOwnMessages | apps/control-plane-ui/shared/trajectory-events.ts:165-176 | distinct ended calls have distinct messages |
| Transcript.AnswersFollowStarts | apps/control-plane-ui/shared/trajectory-events.ts:146-176 | behind the end of a call there are exactly one start of it and one message with the named id; both precede the end, the message carries the call and follows the start if the window was open by then |
| UsageTotals.AggregateRun | scripts/execution_statistics/langfuse_run.py:230-320 | the loop produces a report of the calls: sums, completeness, groups in order |
| UsageTotals.AddUsage | scripts/execution_statistics/langfuse_run.py:209-215 | every reported field is added and counted once, every other left alone |
| UsageTotals.OrderDoesNotMatter | scripts/execution_statistics/langfuse_run.py:230-320 | calls in any order have the same report |
| UsageTotals.KeyLessTotal | scripts/execution_statistics/langfuse_run.py:301-308 | sorting with absent names as empty text never ties two groups |
| UsageTotals.GroupCountsAddUp | scripts/execution_statistics/langfuse_run.py:264-277 | the groups' call counts and usage-report counts sum to the run's |
| UsageTotals.RunTotalIsComplete | scripts/execution_statistics/langfuse_run.py:218-227 | a run total is known exactly when every observed call reports the field |
| UsageTotals.RunTotalIsSumOfGroups | scripts/execution_statistics/langfuse_run.py:264-282 | and is then the sum of the groups' totals, all known |
| UsageTotals.ConsumerAcceptsSafeTotals | apps/control-plane-ui/shared/trajectory-events.ts:71-111 | totals of a run or group pass the consumer's checks exactly when they are safe integers |
| UsageTotals.LargeTotalsAreRefused | apps/control-plane-ui/shared/trajectory-events.ts:85-91 | a correct total beyond the safe integers is refused |
| UsageMeaning.ReadingMeans | scripts/execution_statistics/langfuse_run.py:147-207 | a call's raw counts are exclusive buckets: input includes both cache buckets, output includes reasoning, and the total is all of them |
| UsageMeaning.KeyMeans | scripts/execution_statistics/langfuse_run.py:244-250 | a call's group has its names, blank ones as absent, the second model name where the first is blank |
| UsageMeaning.ReportConserves | scripts/execution_statistics/langfuse_run.py:218-320 | the run's total is known exactly when every call reports input and output and then is every bucket of every call once; coverage is complete exactly when every call reports something |
| TextEdits.ApplyEdits | contracts/codegen/src/index.js:105-107 | the backward loop gives the simultaneous substitution whenever edits are disjoint with distinct starts |
| TextEdits.SpliceIsSimultaneous | contracts/codegen/src/index.js:105-107 | splicing last edit first is the substitution of all edits in the original text |
| TextEdits.SimultaneousIgnoresOrder | contracts/codegen/src/index.js:22-108 | the order of collection does not matter |
| TextEdits.NonemptyEditsSplice | contracts/codegen/src/index.js:22-107 | disjoint edits of ranges that are not empty, as collected from nodes and comments, are substituted simultaneously |
| TextEdits.OrderShowsAtSharedStarts | contracts/codegen/src/index.js:105-107 | for any disjoint ranges the order of collection never shows, whatever the texts, exactly when all starts differ |
| PathRoutes.ChoiceIsMostSpecific | agents/src/sec_review_agents/filesystem/docker_backend.py:360-422 | for any routes and path, the chosen route matches and no other matching route has a longer root; there is one exactly when some route matches |
| PathRoutes.AllowedByMostSpecific | agents/src/sec_review_agents/filesystem/docker_backend.py:342-358 | a path is allowed exactly when it is absolute and routed, and for writing only if the most specific route is writable, so that a writable parent never opens a read-only place |
| PathRoutes.SandboxPathIsUnderRoot | agents/src/sec_review_agents/filesystem/docker_backend.py:350-378 | the sandbox path of an allowed path is the most specific route's container root extended by the parts the path has below the agent root |
| PathRoutes.MatchesMeansUnder | agents/src/sec_review_agents/filesystem/unix_paths.py:10-22 | for any route, the text prefix test means that the path lies under the root, with the cases of two bare slashes spelled out |
| PathRoutes.NormalizeRender | agents/src/sec_review_agents/filesystem/unix_paths.py:10-14 | normalising a normalised path changes nothing |
| PathRoutes.NormalizeWalks | agents/src/sec_review_agents/filesystem/unix_paths.py:10-14 | normalising walks along the parts from the root, where `..` stays, and keeps exactly two leading slashes; a relative path may climb above its start |
| PathRoutes.UnroutedPathStays | agents/src/sec_review_agents/filesystem/docker_backend.py:360-422 | a path that no route covers is only normalised by the translation, in both directions |
| PathRoutes.RootsCorrespond | agents/src/sec_review_agents/filesystem/docker_backend.py:360-422 | the agent root of a binding goes to its container root and back, unless another binding has the same root there |
| PathRoutes.TransferAgreesWithTranslation | agents/src/sec_review_agents/filesystem/docker_backend.py:342-402 | authorisation and translation use the same route and name the same container path, with the exact exception |
| PathRoutes.TransferDiffersBelowSlash | agents/src/sec_review_agents/filesystem/docker_backend.py:360-402 | the exception occurs below every route to a container root without parts |
| PathRoutes.RoundTripsExactlyWhenNestingAgrees | agents/src/sec_review_agents/filesystem/docker_backend.py:360-422 | mapping to the container and back is the identity on every routed path exactly when the roots nest alike |
| PathRoutes.BareRootMatchesOnlyItself | agents/src/sec_review_agents/filesystem/unix_paths.py:17-22 | a root of two bare slashes has nothing below it |

## Left out

- SQL text, the connection pool, HTTP, OpenAPI validation, tokens and roles: only the effect of each statement on the rows is modelled; the schema's checks and foreign keys appear where an operation relies on them.
- Catalog clocks are parameters, one reading for each registration or control change, in any order.
- Ids have one total order; a database collation that sorts ids differently from the language's default sort would make the replay comparison of a maintenance creation stricter than modelled.
- Listing publications, the backlog and overview counts and single-row lookups of the catalog: easy members.
- A trace of retries after a database error: the store's callers are not part of this model.
- Hashes, base64url and JSON text are taken as injective, numbers in JSON as the text that stands for them.
- Milliseconds are the whole part of microseconds divided by a thousand; the driver's floating-point conversion is not modelled.
- The workflow store never forgets a run, nothing but the gateway answers with a 2xx status, and its handlers compare keys alike; back-off delays are not modelled.
- Status polling, status batches and result validation of finished runs: easy members.
- Zstandard decompression: the archive reader starts from the decompressed bytes.
- The writer of archives is a specification of what canonical archives are; the tar library is not modelled.
- Extraction of archives and the validators passed to it: plumbing around the same checks.
- JSON parsing and record validation of transcript lines: a line is blank, invalid or an event.
- Reading observations of a run from the tracing service, and the warning printed for mismatching totals.
- The TypeScript syntax tree: edits are ranges with texts.
- PathRoutes.RoundTripsExactlyWhenNestingAgrees: does not cover roots and paths that are two bare slashes or that keep a `.` or `..` of a relative path, because such a root does not match what is mapped below it.
- PathRoutes.SandboxPathIsUnderRoot: does not cover roots that keep a `.` or `..` of a relative path, for the same reason.
- PathRoutes.TransferAgreesWithTranslation: does not cover roots and paths that keep a `.` or `..` of a relative path; every absolute one is covered (`AbsoluteRootsAreClean`), and paths are checked to be absolute first.
- Locale comparison of keys is any total preorder; the tables of a locale are not part of this model.
- Container, file transfer and command execution of the sandbox backend.
