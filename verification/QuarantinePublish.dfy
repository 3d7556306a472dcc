/** Moving an object into quarantine under a fresh name, within an operation budget. */
module QuarantinePublish {
  import opened Common

  const NAME_ATTEMPTS := 8

  type Id = seq<byte>

  /** A name in the queue tree; the quarantine name is determined by id and reason. */
  datatype Path = Object(directory: seq<byte>, name: seq<byte>) | InQuarantine(id: Id, reason: nat)

  /** A name outside quarantine. */
  type Active = p: Path | p.Object? witness Object([], [])

  type Files = map<Path, seq<byte>>

  // ---------- One move ----------

  datatype Trouble = Fine | RenameFails | DestinationSyncFails | SourceSyncFails

  datatype MoveOutcome = Moved | NotCommitted | OutcomeUnknown | AlreadyExists | SourceMissing

  predicate Renames(fs: Files, src: Path, dst: Path, t: Trouble) {
    !t.RenameFails? && src in fs && dst !in fs
  }

  /** Rename without overwriting, then sync both directories. */
  function MoveResult(fs: Files, src: Path, dst: Path, t: Trouble): MoveOutcome {
    if t.RenameFails? then NotCommitted
    else if src !in fs then SourceMissing
    else if dst in fs then AlreadyExists
    else if t.Fine? then Moved
    else OutcomeUnknown
  }

  function Renamed(fs: Files, src: Path, dst: Path): Files
    requires src in fs
  {
    (fs - {src})[dst := fs[src]]
  }

  class Namespace {
    var files: Files

    constructor (files: Files)
      ensures this.files == files
    {
      this.files := files;
    }

    method MoveNoreplace(src: Path, dst: Path, t: Trouble) returns (r: MoveOutcome)
      modifies this
      ensures r == MoveResult(old(files), src, dst, t)
      ensures files == if Renames(old(files), src, dst, t) then Renamed(old(files), src, dst) else old(files)
    {
      if t == RenameFails { return NotCommitted; }
      if src !in files { return SourceMissing; }
      if dst in files { return AlreadyExists; }
      files := (files - {src})[dst := files[src]];
      if t == DestinationSyncFails { return OutcomeUnknown; }
      if t == SourceSyncFails { return OutcomeUnknown; }
      return Moved;
    }

    method Unlink(path: Path, t: UnlinkTrouble) returns (r: UnlinkOutcome)
      modifies this
      ensures files == Unlinked(old(files), path, t)
      ensures r.Removed? || r.RemovalUnknown? <==> path in old(files) && path !in files
      ensures r.Removed? ==> t.UnlinkFine?
    {
      if t == UnlinkFails { return NotRemoved; }
      if path !in files { return NotThere; }
      files := files - {path};
      return if t == UnlinkSyncFails then RemovalUnknown else Removed;
    }

    /** Write a shorter receipt next to the old one and replace it. */
    method CompactReceipt(c: Compaction)
      modifies this
      ensures files == Compacted(old(files), c)
    {
      if c.trouble == NoTempName { return; }
      if c.temp in files || c.trouble == TempCreateFails { return; }
      var verified := c.receipt in files;
      files := files[c.temp := if c.trouble.TempWriteFails? then c.trouble.part else c.bytes];
      if !c.trouble.TempWriteFails? && c.trouble != TempSyncFails && c.trouble != ReplaceFails && verified {
        files := (files - {c.temp})[c.receipt := c.bytes];
        return;
      }
      if c.cleaned { files := files - {c.temp}; }
    }
  }

  // ---------- Unlinking and compacting ----------

  datatype UnlinkTrouble = UnlinkFine | UnlinkFails | UnlinkSyncFails

  datatype UnlinkOutcome = Removed | NotThere | NotRemoved | RemovalUnknown

  function Unlinked(fs: Files, path: Path, t: UnlinkTrouble): Files {
    if t.UnlinkFails? then fs else fs - {path}
  }

  datatype CompactTrouble =
    | NoTempName
    | TempCreateFails
    | TempWriteFails(part: seq<byte>)
    | TempSyncFails
    | ReplaceFails
    | ReplaceSyncFails
    | NoTrouble

  /** `cleaned`: whether the temporary file can be removed if the replacement fails. */
  datatype Compaction =
    Compaction(receipt: Path, temp: Path, bytes: seq<byte>, trouble: CompactTrouble, cleaned: bool)

  predicate Creates(fs: Files, c: Compaction) {
    !c.trouble.NoTempName? && !c.trouble.TempCreateFails? && c.temp !in fs
  }

  predicate Replaces(fs: Files, c: Compaction) {
    Creates(fs, c) && c.receipt in fs && (c.trouble.NoTrouble? || c.trouble.ReplaceSyncFails?)
  }

  /** The temporary file stays behind. */
  predicate Leaves(fs: Files, c: Compaction) {
    Creates(fs, c) && !Replaces(fs, c) && !c.cleaned
  }

  function TempBytes(c: Compaction): seq<byte> {
    if c.trouble.TempWriteFails? then c.trouble.part else c.bytes
  }

  function Compacted(fs: Files, c: Compaction): Files {
    if Replaces(fs, c) then fs[c.receipt := c.bytes]
    else if Leaves(fs, c) then fs[c.temp := TempBytes(c)]
    else fs
  }

  // ---------- Publication ----------

  datatype Preparation = Ready | EnsureFails | OpenFails

  datatype Publication =
    | Published(id: Id)
    | PreparationFailed
    | NoRandomName
    | MoveFailed(id: Id, outcome: MoveOutcome)
    | CollisionExhausted(lastId: Id)
    | BudgetExhausted(lastId: Id)

  /** What the attempts meet: the ids drawn, where the source fails, and each move's trouble. */
  datatype Attempts = Attempts(ids: nat -> Option<Id>, troubles: nat -> Trouble)

  datatype PublishResult = PublishResult(files: Files, publication: Publication, consumed: nat)

  /** Attempts `k` to `limit`. */
  function PublishFrom(fs: Files, src: Path, reason: nat, limit: nat, k: nat, a: Attempts): PublishResult
    requires 1 <= k <= limit <= NAME_ATTEMPTS
    decreases limit - k
  {
    match a.ids(k)
    case None => PublishResult(fs, NoRandomName, k - 1)
    case Some(id) =>
      var dst := InQuarantine(id, reason);
      match MoveResult(fs, src, dst, a.troubles(k))
      case Moved => PublishResult(Renamed(fs, src, dst), Published(id), k)
      case OutcomeUnknown => PublishResult(Renamed(fs, src, dst), MoveFailed(id, OutcomeUnknown), k)
      case AlreadyExists =>
        if k < limit then PublishFrom(fs, src, reason, limit, k + 1, a)
        else PublishResult(fs, if limit == NAME_ATTEMPTS then CollisionExhausted(id) else BudgetExhausted(id), k)
      case failure => PublishResult(fs, MoveFailed(id, failure), k)
  }

  function Publish(fs: Files, src: Path, reason: nat, maxAttempts: nat, p: Preparation, a: Attempts): PublishResult {
    var limit := Min(maxAttempts, NAME_ATTEMPTS);
    if limit == 0 || p != Ready then PublishResult(fs, PreparationFailed, 0)
    else PublishFrom(fs, src, reason, limit, 1, a)
  }

  method PublishObject(ns: Namespace, src: Path, reason: nat, maxAttempts: nat, p: Preparation, a: Attempts)
    returns (publication: Publication, consumed: nat)
    modifies ns
    ensures PublishResult(ns.files, publication, consumed) == Publish(old(ns.files), src, reason, maxAttempts, p, a)
  {
    var limit := Min(maxAttempts, NAME_ATTEMPTS);
    if limit == 0 { return PreparationFailed, 0; }
    if p == EnsureFails { return PreparationFailed, 0; }
    if p == OpenFails { return PreparationFailed, 0; }
    var k := 1;
    while true
      invariant 1 <= k <= limit && ns.files == old(ns.files)
      invariant PublishFrom(ns.files, src, reason, limit, k, a) == PublishFrom(ns.files, src, reason, limit, 1, a)
      decreases limit - k
    {
      var id := a.ids(k);
      if id.None? { return NoRandomName, k - 1; }
      var moved := ns.MoveNoreplace(src, InQuarantine(id.value, reason), a.troubles(k));
      if moved == Moved { return Published(id.value), k; }
      if moved == AlreadyExists {
        if k == limit {
          return (if limit == NAME_ATTEMPTS then CollisionExhausted(id.value) else BudgetExhausted(id.value)), k;
        }
      } else {
        return MoveFailed(id.value, moved), k;
      }
      k := k + 1;
    }
  }

  /** The outcomes after which the object is in quarantine. */
  function MovedTo(p: Publication): Option<Id> {
    match p
    case Published(id) => Some(id)
    case MoveFailed(id, OutcomeUnknown) => Some(id)
    case _ => None
  }

  /**
   Publication moves the object to a name that did not exist, or changes nothing
   at all, and its outcome says which.
   */
  ghost predicate Conserves(fs: Files, src: Path, reason: nat, r: PublishResult) {
    match MovedTo(r.publication)
    case Some(id) =>
      && src in fs && InQuarantine(id, reason) !in fs
      && r.files == Renamed(fs, src, InQuarantine(id, reason))
    case None => r.files == fs
  }

  lemma {:induction false} PublishFromConserves(fs: Files, src: Path, reason: nat, limit: nat, k: nat, a: Attempts)
    requires 1 <= k <= limit <= NAME_ATTEMPTS
    ensures var r := PublishFrom(fs, src, reason, limit, k, a);
            && Conserves(fs, src, reason, r) && r.consumed <= limit
            && (r.publication.CollisionExhausted? || r.publication.BudgetExhausted? ==>
                  && r.consumed == limit && src in fs
                  && (r.publication.CollisionExhausted? <==> limit == NAME_ATTEMPTS)
                  && forall i :: k <= i <= limit ==> a.ids(i).Some? && InQuarantine(a.ids(i).value, reason) in fs)
    decreases limit - k
  {
    if k < limit { PublishFromConserves(fs, src, reason, limit, k + 1, a); }
  }

  lemma PublishConserves(fs: Files, src: Path, reason: nat, maxAttempts: nat, p: Preparation, a: Attempts)
    ensures var r := Publish(fs, src, reason, maxAttempts, p, a);
            && Conserves(fs, src, reason, r) && r.consumed <= Min(maxAttempts, NAME_ATTEMPTS)
            && (r.publication.BudgetExhausted? ==> r.consumed == maxAttempts < NAME_ATTEMPTS)
  {
    if p == Ready && maxAttempts > 0 {
      PublishFromConserves(fs, src, reason, Min(maxAttempts, NAME_ATTEMPTS), 1, a);
    }
  }

  /** With a fresh id and nothing failing, the object is published under it; the contents survive. */
  lemma FreshIdPublishes(fs: Files, src: Path, reason: nat, maxAttempts: nat, a: Attempts, k: nat)
    requires src in fs && 1 <= k <= Min(maxAttempts, NAME_ATTEMPTS)
    requires forall i :: 1 <= i <= k ==> a.ids(i).Some? && a.troubles(i).Fine?
    requires forall i :: 1 <= i < k ==> InQuarantine(a.ids(i).value, reason) in fs
    requires InQuarantine(a.ids(k).value, reason) !in fs
    ensures var r := Publish(fs, src, reason, maxAttempts, Ready, a);
            && r.publication == Published(a.ids(k).value) && r.consumed == k
            && r.files[InQuarantine(a.ids(k).value, reason)] == fs[src]
            && (src !in r.files)
            && forall q :: q in fs && q != src ==> q in r.files && r.files[q] == fs[q]
  {
    FreshFrom(fs, src, reason, Min(maxAttempts, NAME_ATTEMPTS), 1, a, k);
    PublishConserves(fs, src, reason, maxAttempts, Ready, a);
  }

  lemma {:induction false} FreshFrom(fs: Files, src: Path, reason: nat, limit: nat, j: nat, a: Attempts, k: nat)
    requires src in fs && 1 <= j <= k <= limit <= NAME_ATTEMPTS
    requires forall i :: j <= i <= k ==> a.ids(i).Some? && a.troubles(i).Fine?
    requires forall i :: j <= i < k ==> InQuarantine(a.ids(i).value, reason) in fs
    requires InQuarantine(a.ids(k).value, reason) !in fs
    ensures var r := PublishFrom(fs, src, reason, limit, j, a);
            r.publication == Published(a.ids(k).value) && r.consumed == k
    decreases limit - j
  {
    if j < k { FreshFrom(fs, src, reason, limit, j + 1, a, k); }
  }

  // ---------- Within the operation budget ----------

  datatype Work = Work(attempted: u32, exhausted: bool, quarantined: seq<Id>)

  /** One object of a recovery pass: the counters after it, and whether the pass may go on. */
  function QuarantineWork(w: Work, r: PublishResult): (Work, bool) {
    var counted := w.(attempted := Min(U32_MAX, w.attempted + r.consumed));
    match r.publication
    case Published(id) => (counted.(quarantined := w.quarantined + [id]), true)
    case BudgetExhausted(_) => (counted.(exhausted := true), false)
    case _ => (counted, true)
  }

  function QuarantineStep(fs: Files, w: Work, max: u32, c: Candidate): (Files, Work, bool) {
    var remaining := if max < w.attempted then 0 else max - w.attempted;
    if remaining == 0 then (fs, w.(exhausted := true), false)
    else
      var r := Publish(fs, c.src, c.reason, remaining, c.preparation, c.attempts);
      var (next, goOn) := QuarantineWork(w, r);
      (r.files, next, goOn)
  }

  datatype Candidate = Candidate(src: Active, reason: nat, preparation: Preparation, attempts: Attempts)

  class RecoveryWork {
    const ns: Namespace
    const max: u32
    var attempted: u32
    var exhausted: bool
    var quarantined: seq<Id>

    ghost function State(): Work
      reads this
    {
      Work(attempted, exhausted, quarantined)
    }

    constructor (ns: Namespace, max: u32)
      ensures this.ns == ns && this.max == max && State() == Work(0, false, [])
    {
      this.ns, this.max := ns, max;
      attempted, exhausted, quarantined := 0, false, [];
    }

    method Quarantine(c: Candidate) returns (goOn: bool)
      modifies this, ns
      ensures (ns.files, State(), goOn) == QuarantineStep(old(ns.files), old(State()), max, c)
    {
      var remaining := if max < attempted then 0 else max - attempted;
      if remaining == 0 {
        exhausted := true;
        return false;
      }
      var publication, consumed := PublishObject(ns, c.src, c.reason, remaining, c.preparation, c.attempts);
      attempted := Min(U32_MAX, attempted + consumed);
      if publication.Published? {
        quarantined := quarantined + [publication.id];
        return true;
      }
      if publication.BudgetExhausted? {
        exhausted := true;
        return false;
      }
      return true;
    }

    /** One operation of a phase, once the budget allows it. */
    method Operate(op: PhaseOperation)
      modifies this, ns
      ensures (ns.files, State()) == OperateStep(old(ns.files), old(State()), max, op)
    {
      if attempted >= max {
        exhausted := true;
        return;
      }
      attempted := attempted + 1;
      match op {
        case Move(src, dst, t) => var _ := ns.MoveNoreplace(src, dst, t);
        case Unlink(path, t) => var _ := ns.Unlink(path, t);
        case Compact(c) => ns.CompactReceipt(c);
        case Prune =>
      }
    }
  }

  /** What any process does to names: rename without overwriting, unlink, compact a receipt, prune a directory. */
  datatype Operation =
    | Move(src: Path, dst: Path, moving: Trouble)
    | Unlink(path: Path, unlinking: UnlinkTrouble)
    | Compact(compaction: Compaction)
    | Prune

  predicate OutsideQuarantine(op: Operation) {
    match op
    case Move(src, dst, _) => src.Object? && dst.Object?
    case Unlink(path, _) => path.Object?
    case Compact(c) => c.receipt.Object? && c.temp.Object?
    case Prune => true
  }

  /** What the phases do besides quarantining: reap and promote move, clean-up and retention unlink. */
  type PhaseOperation = op: Operation | OutsideQuarantine(op) witness Prune

  function Effect(fs: Files, op: Operation): Files {
    match op
    case Move(src, dst, t) => if Renames(fs, src, dst, t) then Renamed(fs, src, dst) else fs
    case Unlink(path, t) => Unlinked(fs, path, t)
    case Compact(c) => Compacted(fs, c)
    case Prune => fs
  }

  function OperateStep(fs: Files, w: Work, max: u32, op: PhaseOperation): (Files, Work) {
    if w.attempted >= max then (fs, w.(exhausted := true))
    else (Effect(fs, op), w.(attempted := w.attempted + 1))
  }

  /**
   Steps of a pass, and what other processes do to the namespace meanwhile: they may also
   move objects into quarantine, remove them from there, and put new ones anywhere.
   */
  datatype PassStep =
    | SetAside(candidate: Candidate)
    | Operate(operation: PhaseOperation)
    | Elsewhere(foreign: Operation)
    | Appears(path: Path, bytes: seq<byte>)

  function StepAfter(fs: Files, w: Work, max: u32, s: PassStep): (Files, Work) {
    match s
    case SetAside(c) => var (fs1, w1, _) := QuarantineStep(fs, w, max, c); (fs1, w1)
    case Operate(op) => OperateStep(fs, w, max, op)
    case Elsewhere(op) => (Effect(fs, op), w)
    case Appears(path, bytes) => (if path in fs then fs else fs[path := bytes], w)
  }

  function PassAfter(fs: Files, w: Work, max: u32, steps: seq<PassStep>): (Files, Work)
    decreases |steps|
  {
    if steps == [] then (fs, w)
    else
      var (fs1, w1) := StepAfter(fs, w, max, steps[0]);
      PassAfter(fs1, w1, max, steps[1..])
  }

  lemma QuarantineStepWithin(fs: Files, w: Work, max: u32, c: Candidate)
    requires w.attempted <= max
    ensures var (_, w1, goOn) := QuarantineStep(fs, w, max, c);
            && w.attempted <= w1.attempted <= max
            && (!goOn ==> w1.exhausted && w1.attempted == max)
  {
    if w.attempted < max {
      PublishConserves(fs, c.src, c.reason, max - w.attempted, c.preparation, c.attempts);
    }
  }

  /** A whole pass never exceeds its operations. */
  lemma {:induction false} PassWithinBudget(fs: Files, w: Work, max: u32, steps: seq<PassStep>)
    requires w.attempted <= max
    ensures w.attempted <= PassAfter(fs, w, max, steps).1.attempted <= max
    decreases |steps|
  {
    if steps != [] {
      if steps[0].SetAside? { QuarantineStepWithin(fs, w, max, steps[0].candidate); }
      var (fs1, w1) := StepAfter(fs, w, max, steps[0]);
      PassWithinBudget(fs1, w1, max, steps[1..]);
    }
  }
}
