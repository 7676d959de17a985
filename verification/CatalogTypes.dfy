/** The rows of the memory catalog, one map per table, and what its operations answer. */
module CatalogTypes {
  import opened Basics

  datatype ArtifactReference = ArtifactReference(uri: string, digest: string, mediaType: string, sizeBytes: nat)

  datatype Actor = Actor(kind: string, id: string)

  // ---- requests ----

  datatype Registration = Registration(
    extractionId: string,
    sourceWorkflow: string,
    sourceRunId: string,
    sourceUnitId: string,
    bundleDigest: string,
    trajectory: ArtifactReference,
    observation: Option<string>)

  datatype ExtractionIntent = ExtractionIntent(registration: Registration, summary: string)

  datatype Source =
    | Maintenance(maintenanceId: string, extractionIds: seq<string>, trajectory: ArtifactReference)
    | Operator(operationId: string, actor: Actor)

  datatype Creation = Creation(expectedActive: nat, tree: ArtifactReference, source: Source)

  datatype Restore = Restore(operationId: string, expectedActive: nat, restoredRevision: nat, actor: Actor)

  datatype ControlState = Enabled | Paused

  datatype ControlChange = ControlChange(
    operationId: string, target: ControlState, expectedGeneration: nat, actor: Actor)

  // ---- rows ----

  datatype Status = Reserved | Present | Selected

  datatype Publication<+I> = Publication(intent: I, status: Status)

  datatype ExtractionKey = ExtractionKey(id: string, digest: string)

  /** `(source_kind, owner_id)`: the logical owner a revision publication competes for. */
  datatype Owner = MaintenanceOwner(id: string) | OperatorOwner(id: string)

  datatype RevisionKey = RevisionKey(owner: Owner, treeDigest: string, trajectoryDigest: string)

  datatype Extraction = Extraction(
    sourceWorkflow: string,
    sourceRunId: string,
    sourceUnitId: string,
    bundleDigest: string,
    trajectory: ArtifactReference,
    createdAt: int)

  datatype Observation = Observation(body: string, consumed: Option<nat>, createdAt: int)

  datatype RevisionSource =
    | ByMaintenance(maintenanceId: string, trajectory: ArtifactReference)
    | ByOperator(operationId: string, actor: Actor)

  datatype Revision = Revision(predecessor: Option<nat>, tree: ArtifactReference, source: RevisionSource)

  datatype RestoreRow = RestoreRow(expectedActive: nat, restoredRevision: nat, actor: Actor)

  datatype Control = Control(state: ControlState, generation: nat, changedBy: Actor, changedAt: int)

  datatype ControlRow = ControlRow(
    target: ControlState, expectedGeneration: nat, actor: Actor, result: Control)

  datatype State = State(
    extractionPublications: map<ExtractionKey, Publication<ExtractionIntent>>,
    extractions: map<string, Extraction>,
    observations: map<string, Observation>,
    revisionPublications: map<RevisionKey, Publication<Creation>>,
    revisions: map<nat, Revision>,
    active: nat,
    restores: map<string, RestoreRow>,
    control: Control,
    controlChanges: map<string, ControlRow>)

  // ---- replies ----

  datatype Failure =
    | ExtractionIntentChanged
    | ExtractionReservationRequired
    | DifferentExtractionSelected
    | ExtractionConfirmationRequired
    | ExtractionContentDiffers
    | RevisionIntentChanged
    | RevisionReservationRequired
    | DifferentRevisionSelected
    | RevisionConfirmationRequired
    | RevisionContentDiffers
    | MaintenanceIsPaused
    | ActiveRevisionMoved
    | ObservationsNotPending
    | RestoreContentDiffers
    | RestoredRevisionMissing
    | ControlContentDiffers
    | ControlGenerationMoved
    | ControlTransitionIllegal
    | DuplicateKey

  /** The revision source as it leaves the catalog: an operator's actor is not disclosed. */
  datatype PublicSource =
    | PublicMaintenance(maintenanceId: string, extractionIds: seq<string>, trajectory: ArtifactReference)
    | PublicOperator(operationId: string)

  datatype PendingObservation = PendingObservation(extractionId: string, body: string)

  datatype MaintenanceInput = MaintenanceInput(
    expectedActive: nat, activeTree: Option<ArtifactReference>, observations: seq<PendingObservation>)

  datatype Reply =
    | Failed(failure: Failure)
    | ExtractionPublished(extractionIntent: ExtractionIntent, extractionStatus: Status)
    | RevisionPublished(
        expectedActive: nat, tree: ArtifactReference, source: PublicSource, revisionStatus: Status)
    | Registered(created: bool)
    | ControlChanged(created: bool, control: Control)
    | Input(input: Option<MaintenanceInput>)
    | RevisionCreated(created: bool, revision: nat, owner: Owner)
    | Restored(created: bool, activeRevision: nat, operationId: string)

  datatype Outcome = Outcome(state: State, reply: Reply)

  // ---- identities ----

  function ExtractionKeyOf(r: Registration): ExtractionKey {
    ExtractionKey(r.extractionId, r.trajectory.digest)
  }

  function OwnerOf(source: Source): Owner {
    match source
    case Maintenance(id, _, _) => MaintenanceOwner(id)
    case Operator(id, _) => OperatorOwner(id)
  }

  function RevisionKeyOf(c: Creation): RevisionKey {
    RevisionKey(OwnerOf(c.source), c.tree.digest, if c.source.Maintenance? then c.source.trajectory.digest else "")
  }

  function OwnerOfRevision(r: Revision): Owner {
    match r.source
    case ByMaintenance(id, _) => MaintenanceOwner(id)
    case ByOperator(id, _) => OperatorOwner(id)
  }

  function PublicSourceOf(source: Source): PublicSource {
    match source
    case Maintenance(id, ids, trajectory) => PublicMaintenance(id, ids, trajectory)
    case Operator(id, _) => PublicOperator(id)
  }

  /** `nullif(expected, 0)` */
  function PredecessorOf(expectedActive: nat): Option<nat> {
    if expectedActive == 0 then None else Some(expectedActive)
  }

  function ExtractionRowOf(r: Registration, now: int): Extraction {
    Extraction(r.sourceWorkflow, r.sourceRunId, r.sourceUnitId, r.bundleDigest, r.trajectory, now)
  }

  function RevisionRowOf(c: Creation): Revision {
    Revision(
      PredecessorOf(c.expectedActive),
      c.tree,
      match c.source
      case Maintenance(id, _, trajectory) => ByMaintenance(id, trajectory)
      case Operator(id, actor) => ByOperator(id, actor))
  }

  const SERVICE_ACTOR := Actor("service", "memory-catalog")

  /** The rows the first schema version leaves behind. */
  function InitialState(installedAt: int): State {
    State(map[], map[], map[], map[], map[], 0, map[], Control(Enabled, 0, SERVICE_ACTOR, installedAt), map[])
  }
}
