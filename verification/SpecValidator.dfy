/**
 The validator of the protocol specification: it accepts the canonical rows, in
 any order, and nothing else.
 */
module SpecValidator {
  import opened Common
  import opened StateMachine

  const PROTOCOL_IR_IDENTITY := "steadq-state-machine"
  const PROTOCOL_IR_VERSION := 3

  datatype MutationClass = NoOverwriteMove | ReplacingMove | Publication | UnlinkMutation | InPlaceReadOnlyBarrier

  datatype ExceptionName = ReceiptCompaction | WallWatermarkAdvancement

  datatype UnlinkName = FullReceiptRetentionDeletion | CompactReceiptRetentionDeletion

  datatype SourceAuthentication = NoAuthentication | StrictReceipt

  datatype ReentryName = RequeueDead | RequeueQuarantine

  datatype ExceptionDef = ExceptionDef(
    name: ExceptionName,
    description: string,
    sourceObjectKind: ObjectKind,
    destinationObjectKind: ObjectKind,
    clockRequirement: ClockRequirement,
    mutationClass: MutationClass,
    linearization: Linearization,
    requiredSyncs: seq<SyncStep>,
    beforeFailure: FailureOutcome,
    afterFailure: FailureOutcome)

  datatype UnlinkDef = UnlinkDef(
    name: UnlinkName,
    description: string,
    source: State,
    sourceObjectKind: ObjectKind,
    sourceAuthentication: SourceAuthentication,
    clockRequirement: ClockRequirement,
    qualification: Qualification,
    mutationClass: MutationClass,
    linearization: Linearization,
    requiredSyncs: seq<SyncStep>,
    beforeFailure: FailureOutcome,
    afterFailure: FailureOutcome,
    probeTopology: ProbeTopology)

  datatype ReentryDef = ReentryDef(name: ReentryName, source: State, description: string, createsNewIdentity: bool)

  datatype Spec = Spec(
    protocol: string,
    version: nat,
    transitions: seq<TransitionDef>,
    exceptions: seq<ExceptionDef>,
    unlinks: seq<UnlinkDef>,
    reentry: seq<ReentryDef>)

  datatype SpecFault =
    | WrongIdentity
    | WrongVersion
    | NoTransitions
    | Duplicate
    | UnknownDestination
    | NoSyncs
    | DuplicateSync
    | Blank
    | Mismatch(field: string)
    | Missing

  // ---------- Expected values ----------

  predicate IsDestination(s: State) {
    s.Ready? || s.Leased? || s.Delayed? || s.Dead? || s.Receipt? || s.Quarantined?
  }

  function ExpectedLinearization(op: Operation): Linearization {
    if op.EnqueueImmediate? || op.EnqueueDelayed? then PublishNoreplace else RenameNoreplace
  }

  function ExpectedClock(op: Operation): ClockRequirement {
    match op
    case Claim => BoottimeAndAuthenticatedWallFloor
    case Renew => BoottimeAndAuthenticatedWallFloor
    case RetryNow => NoClock
    case Quarantine => NoClock
    case ReapExpiredToReady => LeaseExpirationEvidence
    case ReapExpiredToDead => LeaseExpirationEvidenceAndAuthenticatedWallFloor
    case _ => AuthenticatedWallFloor
  }

  function ExpectedQualification(op: Operation): Qualification {
    match op
    case ReapExpiredToReady => AttemptsRemaining
    case ReapExpiredToDead => AttemptsExhausted
    case Quarantine => RawBytesPreserved
    case _ => Unqualified
  }

  function ExpectedTopology(op: Operation): ProbeTopology {
    match op
    case EnqueueImmediate => DestinationOnly
    case EnqueueDelayed => DestinationOnly
    case Acknowledge => ReceiptCandidatesAndSource
    case _ => SourceAndDestination
  }

  datatype TransitionInvariant = TransitionInvariant(
    source: State,
    sourceObjectKind: ObjectKind,
    destination: State,
    destinationObjectKind: ObjectKind,
    generationChange: GenerationChange,
    attemptChange: AttemptChange,
    tokenChange: TokenChange,
    reasonClass: Option<ReasonClass>,
    requiredSyncs: seq<SyncStep>)

  function FromHidden(destination: State): TransitionInvariant {
    TransitionInvariant(Hidden, FullJob, destination, FullJob, GenerationZero, AttemptZero, NoToken, None,
                        [SyncFile, SyncDestination])
  }

  function Step(source: State, destination: State, reason: Option<ReasonClass>): TransitionInvariant {
    TransitionInvariant(source, FullJob, destination, FullJob, GenerationIncrement, AttemptUnchanged, NoToken, reason,
                        [SyncDestination, SyncSource])
  }

  function ExpectedInvariant(op: Operation): TransitionInvariant {
    match op
    case EnqueueImmediate => FromHidden(Ready)
    case EnqueueDelayed => FromHidden(Delayed)
    case Promote => Step(Delayed, Ready, None)
    case Claim => Step(Ready, Leased, None).(attemptChange := AttemptIncrement, tokenChange := NewToken)
    case ExhaustedReadyCleanup => Step(Ready, Dead, Some(AttemptsUsedUp))
    case Renew =>
      Step(Leased, Leased, None).(tokenChange := SameToken,
                                  requiredSyncs := [SyncSameOrDestination, SyncSourceIfDistinct])
    case Acknowledge => Step(Leased, Receipt, None).(tokenChange := SameToken, destinationObjectKind := FullReceipt)
    case RetryNow => Step(Leased, Ready, None)
    case RetryLater => Step(Leased, Delayed, None)
    case Bury => Step(Leased, Dead, Some(ApplicationDefined))
    case ReapExpiredToReady => Step(Leased, Ready, None)
    case ReapExpiredToDead => Step(Leased, Dead, Some(AttemptsUsedUp))
    case Quarantine =>
      Step(Active, Quarantined, Some(Corruption)).(sourceObjectKind := RawObject, destinationObjectKind := RawObject)
  }

  function ExpectedException(name: ExceptionName, description: string): ExceptionDef {
    ExceptionDef(
      name, description,
      if name.ReceiptCompaction? then FullReceipt else WatermarkRecord,
      if name.ReceiptCompaction? then CompactReceipt else WatermarkRecord,
      if name.ReceiptCompaction? then NoClock else AuthenticatedWallFloor,
      ReplacingMove, RenameReplace, [SyncFile, SyncSameOrDestination], NotCommitted, OutcomeUnknown)
  }

  function ExpectedUnlink(name: UnlinkName, description: string): UnlinkDef {
    UnlinkDef(
      name, description, Receipt,
      if name.FullReceiptRetentionDeletion? then FullReceipt else CompactReceipt,
      StrictReceipt, AuthenticatedWallFloor, ReceiptBucketEndPlusRetentionNotAfterWallFloor,
      UnlinkMutation, Unlink, [SyncSource], NotCommitted, OutcomeUnknown, SourcePresence)
  }

  function ExpectedReentry(name: ReentryName, description: string): ReentryDef {
    ReentryDef(name, if name.RequeueDead? then Dead else Quarantined, description, true)
  }

  // ---------- Blank descriptions ----------

  /** Unicode White_Space. */
  predicate IsWhitespace(c: char) {
    var n := c as int;
    || 0x09 <= n <= 0x0D || n == 0x20 || n == 0x85 || n == 0xA0 || n == 0x1680
    || 0x2000 <= n <= 0x200A || n == 0x2028 || n == 0x2029 || n == 0x202F || n == 0x205F || n == 0x3000
  }

  /** Nothing is left after trimming. */
  predicate IsBlank(s: string) { forall c <- s :: IsWhitespace(c) }

  // ---------- Canonical lists ----------

  ghost predicate DistinctBy<T, K>(key: T -> K, s: seq<T>) {
    forall i, j :: 0 <= i < j < |s| ==> key(s[i]) != key(s[j])
  }

  function OperationOf(t: TransitionDef): Operation { t.operation }

  function ExceptionNameOf(e: ExceptionDef): ExceptionName { e.name }

  function UnlinkNameOf(u: UnlinkDef): UnlinkName { u.name }

  function ReentryNameOf(r: ReentryDef): ReentryName { r.name }

  predicate HasException(es: seq<ExceptionDef>, name: ExceptionName) { exists e <- es :: e.name == name }

  predicate HasUnlink(us: seq<UnlinkDef>, name: UnlinkName) { exists u <- us :: u.name == name }

  predicate HasReentry(rs: seq<ReentryDef>, name: ReentryName) { exists r <- rs :: r.name == name }

  /** One row for each key, each the one it should be. */
  ghost predicate CanonicalRows<T, K(!new)>(key: T -> K, row: K -> T, ts: seq<T>) {
    && DistinctBy(key, ts)
    && (forall t <- ts :: t == row(key(t)))
    && forall k :: row(k) in ts
  }

  ghost predicate CanonicalTransitions(ts: seq<TransitionDef>) {
    CanonicalRows(OperationOf, Transition, ts)
  }

  ghost predicate CanonicalExceptions(es: seq<ExceptionDef>) {
    && DistinctBy(ExceptionNameOf, es)
    && (forall e <- es :: e == ExpectedException(e.name, e.description) && !IsBlank(e.description))
    && HasException(es, ReceiptCompaction) && HasException(es, WallWatermarkAdvancement)
  }

  ghost predicate CanonicalUnlinks(us: seq<UnlinkDef>) {
    && DistinctBy(UnlinkNameOf, us)
    && (forall u <- us :: u == ExpectedUnlink(u.name, u.description) && !IsBlank(u.description))
    && HasUnlink(us, FullReceiptRetentionDeletion) && HasUnlink(us, CompactReceiptRetentionDeletion)
  }

  ghost predicate CanonicalReentries(rs: seq<ReentryDef>) {
    && DistinctBy(ReentryNameOf, rs)
    && (forall r <- rs :: r == ExpectedReentry(r.name, r.description) && !IsBlank(r.description))
    && HasReentry(rs, RequeueDead) && HasReentry(rs, RequeueQuarantine)
  }

  ghost predicate Canonical(s: Spec) {
    && s.protocol == PROTOCOL_IR_IDENTITY && s.version == PROTOCOL_IR_VERSION
    && CanonicalTransitions(s.transitions) && CanonicalExceptions(s.exceptions)
    && CanonicalUnlinks(s.unlinks) && CanonicalReentries(s.reentry)
  }

  // ---------- The validator ----------

  /** The first sync step that occurs a second time. */
  method RepeatedSync(syncs: seq<SyncStep>) returns (repeated: bool)
    ensures repeated <==> exists i, j :: 0 <= i < j < |syncs| && syncs[i] == syncs[j]
  {
    var seen: set<SyncStep> := {};
    for i := 0 to |syncs|
      invariant forall s :: s in seen <==> s in syncs[..i]
      invariant forall j, k :: 0 <= j < k < i ==> syncs[j] != syncs[k]
    {
      if syncs[i] in seen {
        var j :| 0 <= j < i && syncs[..i][j] == syncs[i];
        return true;
      }
      seen := seen + {syncs[i]};
    }
    return false;
  }

  /** The first field in which a row differs from what its operation requires. */
  method ValidateTransitionInvariant(t: TransitionDef) returns (fault: Option<SpecFault>)
    ensures fault.None? <==> t == Transition(t.operation)
  {
    fault := ValidateSetting(t);
    if fault.None? { fault := ValidateChange(t, ExpectedInvariant(t.operation)); }
    SameRow(t);
  }

  /** The fields around the move agree with the operation. */
  predicate SettingAgrees(t: TransitionDef) {
    && t.clockRequirement == ExpectedClock(t.operation) && t.qualification == ExpectedQualification(t.operation)
    && t.probeTopology == ExpectedTopology(t.operation) && t.linearization == ExpectedLinearization(t.operation)
    && t.beforeFailure == NotCommitted && t.afterFailure == OutcomeUnknown
  }

  /** The fields that say what the move changes agree with those expected. */
  predicate ChangeAgrees(t: TransitionDef, expected: TransitionInvariant) {
    && t.source == expected.source && t.sourceObjectKind == expected.sourceObjectKind
    && t.destination == expected.destination && t.destinationObjectKind == expected.destinationObjectKind
    && t.generationChange == expected.generationChange && t.attemptChange == expected.attemptChange
    && t.tokenChange == expected.tokenChange && t.reasonClass == expected.reasonClass
    && t.requiredSyncs == expected.requiredSyncs
  }

  lemma SameRow(t: TransitionDef)
    ensures t == Transition(t.operation) <==> SettingAgrees(t) && ChangeAgrees(t, ExpectedInvariant(t.operation))
  {
  }

  method ValidateSetting(t: TransitionDef) returns (fault: Option<SpecFault>)
    ensures fault.None? <==> SettingAgrees(t)
  {
    if t.clockRequirement != ExpectedClock(t.operation) { return Some(Mismatch("clock requirement")); }
    if t.qualification != ExpectedQualification(t.operation) { return Some(Mismatch("qualification")); }
    if t.probeTopology != ExpectedTopology(t.operation) { return Some(Mismatch("resolver probe topology")); }
    if t.linearization != ExpectedLinearization(t.operation) { return Some(Mismatch("linearization")); }
    if t.beforeFailure != NotCommitted { return Some(Mismatch("pre-linearization failure")); }
    if t.afterFailure != OutcomeUnknown { return Some(Mismatch("post-linearization failure")); }
    return None;
  }

  method ValidateChange(t: TransitionDef, expected: TransitionInvariant) returns (fault: Option<SpecFault>)
    ensures fault.None? <==> ChangeAgrees(t, expected)
  {
    if t.source != expected.source { return Some(Mismatch("source")); }
    if t.sourceObjectKind != expected.sourceObjectKind { return Some(Mismatch("source object kind")); }
    if t.destination != expected.destination { return Some(Mismatch("destination")); }
    if t.destinationObjectKind != expected.destinationObjectKind { return Some(Mismatch("destination object kind")); }
    if t.generationChange != expected.generationChange { return Some(Mismatch("generation change")); }
    if t.attemptChange != expected.attemptChange { return Some(Mismatch("attempt change")); }
    if t.tokenChange != expected.tokenChange { return Some(Mismatch("token change")); }
    if t.reasonClass != expected.reasonClass { return Some(Mismatch("reason class")); }
    if t.requiredSyncs != expected.requiredSyncs { return Some(Mismatch("syncs")); }
    return None;
  }

  /** Every operation, for the check that none is missing. */
  const OPERATIONS: seq<Operation> := [
    EnqueueImmediate, EnqueueDelayed, Promote, Claim, ExhaustedReadyCleanup, Renew, Acknowledge,
    RetryNow, RetryLater, Bury, ReapExpiredToReady, ReapExpiredToDead, Quarantine
  ]

  function OperationIndex(op: Operation): (i: nat)
    ensures i < |OPERATIONS| && OPERATIONS[i] == op
  {
    match op
    case EnqueueImmediate => 0
    case EnqueueDelayed => 1
    case Promote => 2
    case Claim => 3
    case ExhaustedReadyCleanup => 4
    case Renew => 5
    case Acknowledge => 6
    case RetryNow => 7
    case RetryLater => 8
    case Bury => 9
    case ReapExpiredToReady => 10
    case ReapExpiredToDead => 11
    case Quarantine => 12
  }

  lemma RowShape(op: Operation)
    ensures IsDestination(Transition(op).destination)
    ensures var syncs := Transition(op).requiredSyncs; |syncs| == 2 && syncs[0] != syncs[1]
  {
  }

  /** The rows one by one; `operations` collects what they are for. */
  method ValidateRows(ts: seq<TransitionDef>) returns (fault: Option<SpecFault>, operations: set<Operation>)
    ensures fault.None? <==> DistinctBy(OperationOf, ts) && forall t <- ts :: t == Transition(OperationOf(t))
    ensures fault.None? ==> forall op :: op in operations <==> exists t <- ts :: t.operation == op
  {
    operations := {};
    for i := 0 to |ts|
      invariant forall op :: op in operations <==> exists j :: 0 <= j < i && ts[j].operation == op
      invariant forall j, k :: 0 <= j < k < i ==> OperationOf(ts[j]) != OperationOf(ts[k])
      invariant forall j :: 0 <= j < i ==> ts[j] == Transition(OperationOf(ts[j]))
    {
      var t := ts[i];
      assert t in ts && OperationOf(t) == t.operation;
      if t.operation in operations {
        ghost var j :| 0 <= j < i && ts[j].operation == t.operation;
        assert OperationOf(ts[j]) == OperationOf(ts[i]);
        return Some(Duplicate), operations;
      }
      operations := operations + {t.operation};
      var mismatch := ValidateRow(t);
      if mismatch.Some? { return mismatch, operations; }
    }
    return None, operations;
  }

  method ValidateRow(t: TransitionDef) returns (fault: Option<SpecFault>)
    ensures fault.None? <==> t == Transition(t.operation)
  {
    RowShape(t.operation);
    if !IsDestination(t.destination) { return Some(UnknownDestination); }
    if t.requiredSyncs == [] { return Some(NoSyncs); }
    var repeated := RepeatedSync(t.requiredSyncs);
    if repeated { return Some(DuplicateSync); }
    fault := ValidateTransitionInvariant(t);
  }

  method ValidateTransitions(ts: seq<TransitionDef>) returns (fault: Option<SpecFault>)
    ensures fault.None? <==> CanonicalTransitions(ts)
  {
    if ts == [] {
      assert Transition(Claim) !in ts;
      return Some(NoTransitions);
    }
    var operations;
    fault, operations := ValidateRows(ts);
    if fault.Some? { return; }
    for i := 0 to |OPERATIONS|
      invariant forall j :: 0 <= j < i ==> OPERATIONS[j] in operations
    {
      if OPERATIONS[i] !in operations {
        assert Transition(OPERATIONS[i]) !in ts;
        return Some(Missing);
      }
    }
    forall op: Operation ensures Transition(op) in ts {
      assert OPERATIONS[OperationIndex(op)] in operations;
    }
  }

  method ValidateExceptions(es: seq<ExceptionDef>) returns (fault: Option<SpecFault>)
    ensures fault.None? <==> CanonicalExceptions(es)
  {
    var names: set<ExceptionName> := {};
    for i := 0 to |es|
      invariant forall n :: n in names <==> exists j :: 0 <= j < i && es[j].name == n
      invariant forall j, k :: 0 <= j < k < i ==> ExceptionNameOf(es[j]) != ExceptionNameOf(es[k])
      invariant forall j :: 0 <= j < i ==>
                  es[j] == ExpectedException(es[j].name, es[j].description) && !IsBlank(es[j].description)
    {
      var e := es[i];
      if e.name in names {
        ghost var j :| 0 <= j < i && es[j].name == e.name;
        assert ExceptionNameOf(es[j]) == ExceptionNameOf(es[i]);
        return Some(Duplicate);
      }
      names := names + {e.name};
      if IsBlank(e.description) { return Some(Blank); }
      var repeated := RepeatedSync(e.requiredSyncs);
      if repeated { return Some(DuplicateSync); }
      if e != ExpectedException(e.name, e.description) { return Some(Mismatch("exception")); }
    }
    if ReceiptCompaction !in names || WallWatermarkAdvancement !in names { return Some(Missing); }
    return None;
  }

  method ValidateUnlinks(us: seq<UnlinkDef>) returns (fault: Option<SpecFault>)
    ensures fault.None? <==> CanonicalUnlinks(us)
  {
    var names: set<UnlinkName> := {};
    for i := 0 to |us|
      invariant forall n :: n in names <==> exists j :: 0 <= j < i && us[j].name == n
      invariant forall j, k :: 0 <= j < k < i ==> UnlinkNameOf(us[j]) != UnlinkNameOf(us[k])
      invariant forall j :: 0 <= j < i ==>
                  us[j] == ExpectedUnlink(us[j].name, us[j].description) && !IsBlank(us[j].description)
    {
      var u := us[i];
      if u.name in names {
        ghost var j :| 0 <= j < i && us[j].name == u.name;
        assert UnlinkNameOf(us[j]) == UnlinkNameOf(us[i]);
        return Some(Duplicate);
      }
      names := names + {u.name};
      if IsBlank(u.description) { return Some(Blank); }
      var repeated := RepeatedSync(u.requiredSyncs);
      if repeated { return Some(DuplicateSync); }
      if u != ExpectedUnlink(u.name, u.description) { return Some(Mismatch("unlink")); }
    }
    if FullReceiptRetentionDeletion !in names || CompactReceiptRetentionDeletion !in names { return Some(Missing); }
    return None;
  }

  method ValidateReentries(rs: seq<ReentryDef>) returns (fault: Option<SpecFault>)
    ensures fault.None? <==> CanonicalReentries(rs)
  {
    var names: set<ReentryName> := {};
    for i := 0 to |rs|
      invariant forall n :: n in names <==> exists j :: 0 <= j < i && rs[j].name == n
      invariant forall j, k :: 0 <= j < k < i ==> ReentryNameOf(rs[j]) != ReentryNameOf(rs[k])
      invariant forall j :: 0 <= j < i ==>
                  rs[j] == ExpectedReentry(rs[j].name, rs[j].description) && !IsBlank(rs[j].description)
    {
      var r := rs[i];
      if r.name in names {
        ghost var j :| 0 <= j < i && rs[j].name == r.name;
        assert ReentryNameOf(rs[j]) == ReentryNameOf(rs[i]);
        return Some(Duplicate);
      }
      names := names + {r.name};
      if r.source != ExpectedReentry(r.name, []).source { return Some(Mismatch("source")); }
      if IsBlank(r.description) { return Some(Blank); }
      if !r.createsNewIdentity { return Some(Mismatch("creates_new_identity")); }
    }
    if RequeueDead !in names || RequeueQuarantine !in names { return Some(Missing); }
    return None;
  }

  /** A specification is accepted exactly when it is canonical. */
  method ValidateSpec(s: Spec) returns (fault: Option<SpecFault>)
    ensures fault.None? <==> Canonical(s)
  {
    if s.protocol != PROTOCOL_IR_IDENTITY { return Some(WrongIdentity); }
    if s.version != PROTOCOL_IR_VERSION { return Some(WrongVersion); }
    fault := ValidateTransitions(s.transitions);
    if fault.Some? { return; }
    fault := ValidateExceptions(s.exceptions);
    if fault.Some? { return; }
    fault := ValidateUnlinks(s.unlinks);
    if fault.Some? { return; }
    fault := ValidateReentries(s.reentry);
  }

  // ---------- What acceptance means ----------

  /** The generated table, in its own order. */
  function Rows(ops: seq<Operation>): (rows: seq<TransitionDef>)
    ensures |rows| == |ops| && forall i :: 0 <= i < |ops| ==> rows[i] == Transition(ops[i])
  {
    if ops == [] then [] else [Transition(ops[0])] + Rows(ops[1..])
  }

  lemma IndexOfOperation(i: nat)
    requires i < |OPERATIONS|
    ensures OperationIndex(OPERATIONS[i]) == i
  {
  }

  lemma {:induction false} DistinctCount<T>(s: seq<T>, x: T)
    requires forall i, j :: 0 <= i < j < |s| ==> s[i] != s[j]
    ensures multiset(s)[x] == if x in s then 1 else 0
    decreases |s|
  {
    if s != [] {
      DistinctCount(s[1..], x);
      assert s == [s[0]] + s[1..];
    }
  }

  /** One row for each key of a complete list without repetition. */
  lemma RowsAreCanonical<T, K(!new)>(key: T -> K, row: K -> T, keys: seq<K>, index: K -> nat, rows: seq<T>)
    requires forall k :: key(row(k)) == k && index(k) < |keys| && keys[index(k)] == k
    requires forall i :: 0 <= i < |keys| ==> index(keys[i]) == i
    requires |rows| == |keys| && forall i :: 0 <= i < |keys| ==> rows[i] == row(keys[i])
    ensures CanonicalRows(key, row, rows)
  {
  }

  /** Every operation once, in the order of the table. */
  ghost predicate AllOperations(ops: seq<Operation>) {
    && |ops| == |OPERATIONS|
    && (forall op :: ops[OperationIndex(op)] == op)
    && forall i :: 0 <= i < |ops| ==> OperationIndex(ops[i]) == i
  }

  lemma TableIsCanonical(ops: seq<Operation>)
    requires AllOperations(ops)
    ensures CanonicalTransitions(Rows(ops))
  {
    RowsAreCanonical(OperationOf, Transition, ops, OperationIndex, Rows(ops));
  }

  lemma CanonicalCount<T, K(!new)>(key: T -> K, row: K -> T, ts: seq<T>, t: T)
    requires CanonicalRows(key, row, ts)
    ensures multiset(ts)[t] == if t == row(key(t)) then 1 else 0
  {
    assert forall i, j :: 0 <= i < j < |ts| ==> key(ts[i]) != key(ts[j]);
    DistinctCount(ts, t);
  }

  /** Lists with one row for each key are the permutations of any one of them. */
  lemma CanonicalRowsArePermutations<T(!new), K(!new)>(key: T -> K, row: K -> T, ts: seq<T>, table: seq<T>)
    requires CanonicalRows(key, row, table)
    ensures CanonicalRows(key, row, ts) <==> multiset(ts) == multiset(table)
  {
    if CanonicalRows(key, row, ts) {
      forall t ensures multiset(ts)[t] == multiset(table)[t] {
        CanonicalCount(key, row, ts, t);
        CanonicalCount(key, row, table, t);
      }
    }
    if multiset(ts) == multiset(table) {
      forall t ensures t in ts <==> t == row(key(t)) {
        CanonicalCount(key, row, table, t);
        assert t in ts <==> t in multiset(ts);
      }
      forall i, j | 0 <= i < j < |ts| && key(ts[i]) == key(ts[j]) ensures false {
        assert ts[i] in ts && ts[j] in ts;
        OccursTwice(ts, i, j);
        CanonicalCount(key, row, table, ts[i]);
      }
      forall k ensures row(k) in ts {
        assert row(k) in table;
        assert row(k) in multiset(table);
      }
    }
  }

  /** The accepted transition lists are the permutations of the table. */
  lemma CanonicalIsPermutation(ts: seq<TransitionDef>, ops: seq<Operation>)
    requires ops == OPERATIONS
    ensures CanonicalTransitions(ts) <==> multiset(ts) == multiset(Rows(ops))
  {
    forall i | 0 <= i < |ops| ensures OperationIndex(ops[i]) == i { IndexOfOperation(i); }
    TableIsCanonical(ops);
    CanonicalRowsArePermutations(OperationOf, Transition, ts, Rows(ops));
  }

  lemma OccursTwice<T>(s: seq<T>, i: nat, j: nat)
    requires i < j < |s| && s[i] == s[j]
    ensures multiset(s)[s[i]] >= 2
  {
    assert s == s[..j] + [s[j]] + s[j + 1..];
    assert s[..j][i] == s[i];
  }

  /** Every accepted specification allows exactly the same moves. */
  lemma SameLegalTransitions(s: Spec, source: State, destination: State)
    requires Canonical(s)
    ensures (exists t <- s.transitions :: t.source == source && t.destination == destination)
       <==> IsLegalTransition(source, destination)
  {
  }

  predicate Successor(source: State, destination: State) {
    match source
    case Hidden => destination.Ready? || destination.Delayed?
    case Delayed => destination.Ready?
    case Ready => destination.Leased? || destination.Dead?
    case Leased => !destination.Hidden? && !destination.Active? && !destination.Quarantined?
    case Active => destination.Quarantined?
    case _ => false
  }

  lemma MovesToSuccessor(op: Operation)
    ensures Successor(Transition(op).source, Transition(op).destination)
  {
  }

  /** A job state has these successors and no others. */
  lemma LegalTransitions(source: State, destination: State)
    ensures IsLegalTransition(source, destination) <==> Successor(source, destination)
  {
    forall op: Operation | Transition(op).source == source && Transition(op).destination == destination
      ensures Successor(source, destination)
    {
      MovesToSuccessor(op);
    }
    var op := LegalWitness(source, destination);
    assert Transition(op).source == source && Transition(op).destination == destination
      ==> IsLegalTransition(source, destination);
  }

  /** An operation for each legal move. */
  function LegalWitness(source: State, destination: State): Operation {
    match source
    case Hidden => if destination.Ready? then EnqueueImmediate else EnqueueDelayed
    case Delayed => Promote
    case Ready => if destination.Leased? then Claim else ExhaustedReadyCleanup
    case Leased =>
      if destination.Leased? then Renew
      else if destination.Receipt? then Acknowledge
      else if destination.Ready? then RetryNow
      else if destination.Delayed? then RetryLater
      else Bury
    case _ => Quarantine
  }
}
