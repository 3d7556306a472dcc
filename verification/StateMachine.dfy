/** The protocol's thirteen transitions and how each changes a job's identity. */
module StateMachine {
  import opened Common

  datatype Operation =
    | EnqueueImmediate
    | EnqueueDelayed
    | Promote
    | Claim
    | ExhaustedReadyCleanup
    | Renew
    | Acknowledge
    | RetryNow
    | RetryLater
    | Bury
    | ReapExpiredToReady
    | ReapExpiredToDead
    | Quarantine

  datatype State = Hidden | Ready | Leased | Delayed | Dead | Receipt | Quarantined | Active

  datatype ObjectKind = FullJob | FullReceipt | CompactReceipt | RawObject | WatermarkRecord

  datatype GenerationChange = GenerationZero | GenerationIncrement | GenerationIncrementOrSame

  datatype AttemptChange = AttemptZero | AttemptIncrement | AttemptUnchanged

  datatype TokenChange = NoToken | NewToken | SameToken

  datatype ReasonClass = AttemptsUsedUp | ApplicationDefined | Corruption

  datatype ClockRequirement =
    | NoClock
    | AuthenticatedWallFloor
    | BoottimeAndAuthenticatedWallFloor
    | LeaseExpirationEvidence
    | LeaseExpirationEvidenceAndAuthenticatedWallFloor

  datatype Qualification =
    | Unqualified
    | AttemptsRemaining
    | AttemptsExhausted
    | RawBytesPreserved
    | ReceiptBucketEndPlusRetentionNotAfterWallFloor

  datatype ProbeTopology = DestinationOnly | SourceAndDestination | ReceiptCandidatesAndSource | SourcePresence

  datatype SyncStep =
    | SyncFile
    | SyncDestination
    | SyncSource
    | SyncSameOrDestination
    | SyncSourceIfDistinct

  datatype Linearization = PublishNoreplace | RenameNoreplace | RenameReplace | Unlink

  datatype FailureOutcome = NotCommitted | OutcomeUnknown

  datatype TransitionDef = TransitionDef(
    operation: Operation,
    source: State,
    sourceObjectKind: ObjectKind,
    destination: State,
    destinationObjectKind: ObjectKind,
    generationChange: GenerationChange,
    attemptChange: AttemptChange,
    tokenChange: TokenChange,
    reasonClass: Option<ReasonClass>,
    clockRequirement: ClockRequirement,
    requiredSyncs: seq<SyncStep>,
    linearization: Linearization,
    beforeFailure: FailureOutcome,
    afterFailure: FailureOutcome,
    probeTopology: ProbeTopology,
    qualification: Qualification)

  const PUBLISH_SYNCS := [SyncFile, SyncDestination]
  const MOVE_SYNCS := [SyncDestination, SyncSource]

  /** The protocol definition of an operation. */
  function Transition(op: Operation): (d: TransitionDef)
    ensures d.operation == op
  {
    match op
    case EnqueueImmediate =>
      TransitionDef(EnqueueImmediate, Hidden, FullJob, Ready, FullJob, GenerationZero, AttemptZero, NoToken, None,
                    AuthenticatedWallFloor, PUBLISH_SYNCS, PublishNoreplace, NotCommitted, OutcomeUnknown,
                    DestinationOnly, Unqualified)
    case EnqueueDelayed =>
      TransitionDef(EnqueueDelayed, Hidden, FullJob, Delayed, FullJob, GenerationZero, AttemptZero, NoToken, None,
                    AuthenticatedWallFloor, PUBLISH_SYNCS, PublishNoreplace, NotCommitted, OutcomeUnknown,
                    DestinationOnly, Unqualified)
    case Promote =>
      TransitionDef(Promote, Delayed, FullJob, Ready, FullJob, GenerationIncrement, AttemptUnchanged, NoToken, None,
                    AuthenticatedWallFloor, MOVE_SYNCS, RenameNoreplace, NotCommitted, OutcomeUnknown,
                    SourceAndDestination, Unqualified)
    case Claim =>
      TransitionDef(Claim, Ready, FullJob, Leased, FullJob, GenerationIncrement, AttemptIncrement, NewToken, None,
                    BoottimeAndAuthenticatedWallFloor, MOVE_SYNCS, RenameNoreplace, NotCommitted, OutcomeUnknown,
                    SourceAndDestination, Unqualified)
    case ExhaustedReadyCleanup =>
      TransitionDef(ExhaustedReadyCleanup, Ready, FullJob, Dead, FullJob, GenerationIncrement, AttemptUnchanged,
                    NoToken, Some(AttemptsUsedUp), AuthenticatedWallFloor, MOVE_SYNCS, RenameNoreplace, NotCommitted,
                    OutcomeUnknown, SourceAndDestination, Unqualified)
    case Renew =>
      TransitionDef(Renew, Leased, FullJob, Leased, FullJob, GenerationIncrement, AttemptUnchanged, SameToken, None,
                    BoottimeAndAuthenticatedWallFloor, [SyncSameOrDestination, SyncSourceIfDistinct], RenameNoreplace,
                    NotCommitted, OutcomeUnknown, SourceAndDestination, Unqualified)
    case Acknowledge =>
      TransitionDef(Acknowledge, Leased, FullJob, Receipt, FullReceipt, GenerationIncrement, AttemptUnchanged,
                    SameToken, None, AuthenticatedWallFloor, MOVE_SYNCS, RenameNoreplace, NotCommitted,
                    OutcomeUnknown, ReceiptCandidatesAndSource, Unqualified)
    case RetryNow =>
      TransitionDef(RetryNow, Leased, FullJob, Ready, FullJob, GenerationIncrement, AttemptUnchanged, NoToken, None,
                    NoClock, MOVE_SYNCS, RenameNoreplace, NotCommitted, OutcomeUnknown, SourceAndDestination,
                    Unqualified)
    case RetryLater =>
      TransitionDef(RetryLater, Leased, FullJob, Delayed, FullJob, GenerationIncrement, AttemptUnchanged, NoToken,
                    None, AuthenticatedWallFloor, MOVE_SYNCS, RenameNoreplace, NotCommitted, OutcomeUnknown,
                    SourceAndDestination, Unqualified)
    case Bury =>
      TransitionDef(Bury, Leased, FullJob, Dead, FullJob, GenerationIncrement, AttemptUnchanged, NoToken,
                    Some(ApplicationDefined), AuthenticatedWallFloor, MOVE_SYNCS, RenameNoreplace, NotCommitted,
                    OutcomeUnknown, SourceAndDestination, Unqualified)
    case ReapExpiredToReady =>
      TransitionDef(ReapExpiredToReady, Leased, FullJob, Ready, FullJob, GenerationIncrement, AttemptUnchanged,
                    NoToken, None, LeaseExpirationEvidence, MOVE_SYNCS, RenameNoreplace, NotCommitted, OutcomeUnknown,
                    SourceAndDestination, AttemptsRemaining)
    case ReapExpiredToDead =>
      TransitionDef(ReapExpiredToDead, Leased, FullJob, Dead, FullJob, GenerationIncrement, AttemptUnchanged, NoToken,
                    Some(AttemptsUsedUp), LeaseExpirationEvidenceAndAuthenticatedWallFloor, MOVE_SYNCS,
                    RenameNoreplace, NotCommitted, OutcomeUnknown, SourceAndDestination, AttemptsExhausted)
    case Quarantine =>
      TransitionDef(Quarantine, Active, RawObject, Quarantined, RawObject, GenerationIncrement, AttemptUnchanged,
                    NoToken, Some(Corruption), NoClock, MOVE_SYNCS, RenameNoreplace, NotCommitted, OutcomeUnknown,
                    SourceAndDestination, RawBytesPreserved)
  }

  predicate IsLegalTransition(source: State, destination: State) {
    exists op: Operation :: Transition(op).source == source && Transition(op).destination == destination
  }

  // ---------- Identity ----------

  type JobId = seq<byte>

  datatype CommonFields = CommonFields(jobId: JobId, generation: u64, attempt: u32, maximumAttempts: u32)

  datatype IdentityError = IdentityOverflow | Indeterminate

  /** Generation and attempt after `op`. */
  function NextCommonFields(op: Operation, source: CommonFields): Result<CommonFields, IdentityError> {
    var d := Transition(op);
    if d.generationChange.GenerationIncrementOrSame? then Err(Indeterminate)
    else if d.generationChange.GenerationIncrement? && source.generation == U64_MAX then Err(IdentityOverflow)
    else if d.attemptChange.AttemptIncrement? && source.attempt == U32_MAX then Err(IdentityOverflow)
    else Ok(source.(
      generation := if d.generationChange.GenerationZero? then 0 else source.generation + 1,
      attempt :=
        match d.attemptChange
        case AttemptZero => 0
        case AttemptIncrement => source.attempt + 1
        case AttemptUnchanged => source.attempt))
  }

  predicate Enqueues(op: Operation) { op.EnqueueImmediate? || op.EnqueueDelayed? }

  /** What the table says of every operation but the two that publish. */
  lemma MovesStepIdentity(op: Operation, source: CommonFields)
    requires !Enqueues(op)
    ensures match NextCommonFields(op, source)
            case Ok(next) =>
              && next.jobId == source.jobId && next.maximumAttempts == source.maximumAttempts
              && next.generation == source.generation + 1
              && next.attempt == source.attempt + if op.Claim? then 1 else 0
            case Err(e) =>
              && e == IdentityOverflow
              && (source.generation == U64_MAX || (op.Claim? && source.attempt == U32_MAX))
  {
  }

  // ---------- Tickets ----------

  datatype TicketOperation = TClaim | TRenew | TAcknowledge | TRetryNow | TRetryLater | TBury

  function ProtocolOperation(op: TicketOperation): Operation {
    match op
    case TClaim => Claim
    case TRenew => Renew
    case TAcknowledge => Acknowledge
    case TRetryNow => RetryNow
    case TRetryLater => RetryLater
    case TBury => Bury
  }

  datatype TicketEnd = TicketEnd(state: State, bootId: Option<seq<byte>>)

  datatype Ticket = Ticket(
    operation: TicketOperation,
    common: CommonFields,
    source: TicketEnd,
    destination: TicketEnd)

  datatype TicketError =
    | ZeroMaximum
    | AttemptAboveMaximum
    | CannotIncrement
    | NotPermitted
    | BootIdNotCanonical

  predicate CanonicalBoot(canonical: seq<byte> -> bool, end: TicketEnd) {
    end.bootId.Some? ==> canonical(end.bootId.value)
  }

  function ValidateTicket(t: Ticket, canonical: seq<byte> -> bool): Option<TicketError> {
    var d := Transition(ProtocolOperation(t.operation));
    if t.common.maximumAttempts == 0 then Some(ZeroMaximum)
    else if t.common.attempt > t.common.maximumAttempts then Some(AttemptAboveMaximum)
    else
      match NextCommonFields(d.operation, t.common)
      case Err(_) => Some(CannotIncrement)
      case Ok(next) =>
        if !(&& t.source.state == d.source && t.destination.state == d.destination
             && next.attempt <= t.common.maximumAttempts) then Some(NotPermitted)
        else if !CanonicalBoot(canonical, t.source) || !CanonicalBoot(canonical, t.destination) then
          Some(BootIdNotCanonical)
        else None
  }
}
