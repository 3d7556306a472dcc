/** The consistency check: the walk over a queue's directories and the check of each object. */
module Fsck {
  import opened Common

  type Name = seq<byte>
  type Id = seq<byte>

  datatype QueueState = ReadyState | LeasedState | DelayedState | DeadState | ReceiptState

  datatype Options = Options(repair: bool, deep: bool, maxPayloadLength: nat)

  datatype Severity = Warning | Error

  datatype FindingKind =
    | InvalidNameEncoding
    | DirectoryScanIncomplete
    | UnexpectedEntry
    | FilenameParseFailed
    | StatFailed
    | NonRegularFile
    | UnexpectedHardLink
    | OpenFailed
    | ReceiptVerificationFailed
    | ZeroLengthPublicationResidue
    | HeaderReadFailed
    | HeaderDecodeFailed
    | HeaderJobIdMismatch
    | HeaderMaxAttemptsMismatch
    | ExtensionTooLarge
    | ExtensionReadFailed
    | EnvelopeDigestMismatch
    | NegativeFileSize
    | FileSizeMismatch
    | PayloadExceedsLimit
    | NameTagMismatch
    | ShardPlacementMismatch
    | PayloadDigestMismatch
    | PayloadReadFailed
    | QuarantinedObject
    | QuarantineFailed

  datatype Finding = Finding(path: seq<Name>, kind: FindingKind, severity: Severity)

  // ---------- What the file system answers ----------

  datatype FileStat = FileGone | StatError | FileStat(regular: bool, links: nat, size: i64)

  datatype FileOpen = Opened | OpenGone | OpenError

  datatype ReceiptVerdict = FullReceiptValid | CompactReceiptValid | ReceiptInvalid

  datatype PayloadVerdict = PayloadValid | PayloadCorrupt | PayloadUnreadable

  datatype HeaderView = HeaderView(
    jobIdMatches: bool,
    maxAttemptsMatches: bool,
    extensionLength: nat,
    extensionReads: bool,
    digestValid: bool,
    payloadLength: nat)

  /** One object, as the calls made about it answer; any combination may occur. */
  datatype FileView = FileView(
    parses: bool,
    stat: FileStat,
    open: FileOpen,
    receipt: ReceiptVerdict,
    openedSize: Option<int>,
    headerReads: bool,
    header: Option<HeaderView>,
    tagAuthentic: bool,
    pathShard: Option<nat>,
    computedShard: nat,
    payload: PayloadVerdict,
    setAside: Option<Id>)

  datatype EntryStat = IsDirectory | IsOther | EntryGone | EntryStatError

  datatype DirectoryOpen = Directory(view: DirView) | NotDirectory | DirectoryGone | DirectoryError

  datatype EntryView = EntryView(name: Name, stat: EntryStat, open: DirectoryOpen, file: FileView)

  /** A directory: whether it opens, the entries it yields, and whether the listing ends. */
  datatype DirView = DirView(opens: bool, entries: seq<EntryView>, ends: bool)

  // ---------- Reports ----------

  datatype Report = Report(total: nat, verified: nat, deep: nat, findings: seq<Finding>, quarantined: seq<Id>)

  const NOTHING := Report(0, 0, 0, [], [])

  function Plus(a: Report, b: Report): Report {
    Report(a.total + b.total, a.verified + b.verified, a.deep + b.deep,
           a.findings + b.findings, a.quarantined + b.quarantined)
  }

  predicate NoErrors(r: Report) { forall f <- r.findings :: f.severity != Error }

  // ---------- One object ----------

  predicate Ascii(s: Name) { forall b <- s :: b < 128 }

  /** The name ends in `.sqj` or `.rct`. */
  predicate ObjectName(s: Name) {
    var n := |s|;
    && n >= 4 && s[n - 4] == 0x2E
    && (|| (s[n - 3] == 0x73 && s[n - 2] == 0x71 && s[n - 1] == 0x6A)
        || (s[n - 3] == 0x72 && s[n - 2] == 0x63 && s[n - 1] == 0x74))
  }

  /** Directory levels between a state root and its objects. */
  function FsckDepth(state: QueueState): nat {
    match state
    case ReadyState => 1
    case LeasedState => 3
    case _ => 2
  }

  /** Path components of an object in its place. */
  function CanonicalParts(state: QueueState): nat {
    match state
    case ReadyState => 3
    case LeasedState => 5
    case _ => 4
  }

  /** What a check of one object comes to; `aside` objects are quarantined under repair. */
  datatype Verdict =
    | Vanished
    | Residue
    | Faulty(kind: FindingKind, aside: bool)
    | Sound(deep: nat)
    | Unsound(kind: FindingKind, aside: bool)

  /** Header, size, tag and shard all agree with the name. */
  predicate HeaderSound(o: Options, state: QueueState, parts: nat, v: FileView, h: HeaderView, size: int) {
    && h.jobIdMatches && h.maxAttemptsMatches
    && h.extensionLength <= 65536 && (h.extensionLength == 0 || h.extensionReads) && h.digestValid
    && size == 128 + h.extensionLength + h.payloadLength && h.payloadLength <= o.maxPayloadLength
    && parts == CanonicalParts(state) && v.tagAuthentic
    && (v.pathShard.None? || v.pathShard.value == v.computedShard)
  }

  /** Checks after the header was decoded, in their order. */
  function HeaderFault(o: Options, state: QueueState, parts: nat, v: FileView, h: HeaderView, size: int): Option<Verdict> {
    if !h.jobIdMatches then Some(Faulty(HeaderJobIdMismatch, true))
    else if !h.maxAttemptsMatches then Some(Faulty(HeaderMaxAttemptsMismatch, true))
    else if h.extensionLength > 65536 then Some(Faulty(ExtensionTooLarge, true))
    else if h.extensionLength > 0 && !h.extensionReads then Some(Faulty(ExtensionReadFailed, true))
    else if !h.digestValid then Some(Faulty(EnvelopeDigestMismatch, true))
    else if size < 0 then Some(Faulty(NegativeFileSize, false))
    else if size != Min(U64_MAX, 128 + h.extensionLength + h.payloadLength) then Some(Faulty(FileSizeMismatch, true))
    else if h.payloadLength > o.maxPayloadLength then Some(Faulty(PayloadExceedsLimit, true))
    else if parts != CanonicalParts(state) || !v.tagAuthentic then Some(Faulty(NameTagMismatch, true))
    else if v.pathShard.Some? && v.pathShard.value != v.computedShard then Some(Faulty(ShardPlacementMismatch, true))
    else None
  }

  function DeepVerdict(o: Options, v: FileView): Verdict {
    if !o.deep then Sound(0)
    else
      match v.payload
      case PayloadValid => Sound(1)
      case PayloadCorrupt => Unsound(PayloadDigestMismatch, true)
      case PayloadUnreadable => Unsound(PayloadReadFailed, false)
  }

  function JobVerdict(o: Options, state: QueueState, parts: nat, v: FileView, size: int): Verdict {
    if v.openedSize == Some(0) then Residue
    else if !v.headerReads then Faulty(HeaderReadFailed, true)
    else if v.header.None? then Faulty(HeaderDecodeFailed, true)
    else
      match HeaderFault(o, state, parts, v, v.header.value, size)
      case Some(fault) => fault
      case None => DeepVerdict(o, v)
  }

  function ReceiptFileVerdict(parts: nat, v: FileView): Verdict {
    if parts != CanonicalParts(ReceiptState) || v.receipt.ReceiptInvalid? then Faulty(ReceiptVerificationFailed, true)
    else Sound(if v.receipt.FullReceiptValid? then 1 else 0)
  }

  function FileVerdict(o: Options, state: QueueState, parts: nat, v: FileView): Verdict {
    if !v.parses then Faulty(FilenameParseFailed, true)
    else
      match v.stat
      case FileGone => Vanished
      case StatError => Faulty(StatFailed, false)
      case FileStat(regular, links, size) =>
        if !regular then Faulty(NonRegularFile, true)
        else if links != 1 then Faulty(UnexpectedHardLink, true)
        else if v.open.OpenGone? then Vanished
        else if v.open.OpenError? then Faulty(OpenFailed, false)
        else if state.ReceiptState? then ReceiptFileVerdict(parts, v)
        else JobVerdict(o, state, parts, v, size)
  }

  /** Moving the object aside, or the finding that it could not be. */
  function AsideReport(path: seq<Name>, v: FileView): Report {
    match v.setAside
    case Some(id) => NOTHING.(findings := [Finding(path, QuarantinedObject, Warning)], quarantined := [id])
    case None => NOTHING.(findings := [Finding(path, QuarantineFailed, Error)])
  }

  function FindingReport(o: Options, path: seq<Name>, kind: FindingKind, s: Severity, aside: bool, v: FileView): Report {
    var first := NOTHING.(findings := [Finding(path, kind, s)]);
    if o.repair && aside then Plus(first, AsideReport(path, v)) else first
  }

  function FileReport(o: Options, state: QueueState, path: seq<Name>, v: FileView): Report {
    VerdictReport(o, path, FileVerdict(o, state, |path|, v), v)
  }

  function VerdictReport(o: Options, path: seq<Name>, verdict: Verdict, v: FileView): Report {
    match verdict
    case Vanished => NOTHING
    case Residue => FindingReport(o, path, ZeroLengthPublicationResidue, Warning, true, v)
    case Faulty(kind, aside) => FindingReport(o, path, kind, Error, aside, v)
    case Sound(deep) => NOTHING.(verified := 1, deep := deep)
    case Unsound(kind, aside) => Plus(NOTHING.(verified := 1), FindingReport(o, path, kind, Error, aside, v))
  }

  // ---------- The walk ----------

  function Incomplete(path: seq<Name>): Report {
    NOTHING.(findings := [Finding(path, DirectoryScanIncomplete, Error)])
  }

  function Unexpected(path: seq<Name>): Report {
    NOTHING.(findings := [Finding(path, UnexpectedEntry, Warning)])
  }

  function ObjectReport(o: Options, state: QueueState, path: seq<Name>, v: FileView): Report {
    Plus(NOTHING.(total := 1), FileReport(o, state, path, v))
  }

  /** What the walk takes an entry for. */
  datatype EntryKind = BadName | AnObject | Subdirectory(view: DirView) | Absent | Stray | Unscannable

  function KindOf(depth: nat, e: EntryView): (k: EntryKind)
    ensures k.Subdirectory? ==> depth > 0 && e.open == Directory(k.view)
  {
    if !Ascii(e.name) then BadName
    else if depth == 0 then
      if ObjectName(e.name) then AnObject
      else
        match e.stat
        case IsDirectory => Unscannable
        case IsOther => Stray
        case EntryGone => Absent
        case EntryStatError => Unscannable
    else
      match e.open
      case Directory(view) => Subdirectory(view)
      case NotDirectory => if ObjectName(e.name) then AnObject else Stray
      case DirectoryGone => Absent
      case DirectoryError => Unscannable
  }

  /** What checking one object adds to the report. */
  type Checker = (seq<Name>, FileView) -> Report

  function CheckerFor(o: Options, state: QueueState): Checker {
    (path: seq<Name>, v: FileView) => ObjectReport(o, state, path, v)
  }

  function EntryReport(check: Checker, parent: seq<Name>, depth: nat, e: EntryView): Report
    decreases e
  {
    var path := parent + [e.name];
    match KindOf(depth, e)
    case BadName => NOTHING.(findings := [Finding(path, InvalidNameEncoding, Error)])
    case AnObject => check(path, e.file)
    case Subdirectory(view) => WalkReport(check, path, depth - 1, view)
    case Absent => NOTHING
    case Stray => Unexpected(path)
    case Unscannable => Incomplete(path)
  }

  function EntriesReport(check: Checker, parent: seq<Name>, depth: nat, es: seq<EntryView>): Report
    decreases es
  {
    if es == [] then NOTHING
    else
      assert es decreases to es[0];
      Plus(EntryReport(check, parent, depth, es[0]), EntriesReport(check, parent, depth, es[1..]))
  }

  /** The walk of `depth` levels below a directory. */
  function WalkReport(check: Checker, path: seq<Name>, depth: nat, d: DirView): Report
    decreases d
  {
    if !d.opens then Incomplete(path)
    else
      var listed := EntriesReport(check, path, depth, d.entries);
      if d.ends then listed else Plus(listed, Incomplete(path))
  }

  // ---------- The report in place ----------

  class FsckReport {
    var total: nat
    var verified: nat
    var deep: nat
    var findings: seq<Finding>
    var quarantined: seq<Id>

    ghost function State(): Report
      reads this
    {
      Report(total, verified, deep, findings, quarantined)
    }

    constructor ()
      ensures State() == NOTHING
    {
      total, verified, deep, findings, quarantined := 0, 0, 0, [], [];
    }

    method Push(path: seq<Name>, kind: FindingKind, severity: Severity)
      modifies this`findings
      ensures State() == Plus(old(State()), NOTHING.(findings := [Finding(path, kind, severity)]))
    {
      findings := findings + [Finding(path, kind, severity)];
    }

    /** Moves the object to quarantine, or records that it could not be moved. */
    method QuarantineOrRecord(path: seq<Name>, v: FileView)
      modifies this`findings, this`quarantined
      ensures State() == Plus(old(State()), AsideReport(path, v))
    {
      if v.setAside.Some? {
        quarantined := quarantined + [v.setAside.value];
        Push(path, QuarantinedObject, Warning);
      } else {
        Push(path, QuarantineFailed, Error);
      }
    }

    method Fault(o: Options, path: seq<Name>, kind: FindingKind, severity: Severity, aside: bool, v: FileView)
      modifies this`findings, this`quarantined
      ensures State() == Plus(old(State()), FindingReport(o, path, kind, severity, aside, v))
    {
      Push(path, kind, severity);
      if o.repair && aside { QuarantineOrRecord(path, v); }
    }

    /** The checks of one object, stopping at the first that fails. */
    method CheckFile(o: Options, state: QueueState, path: seq<Name>, v: FileView)
      modifies this
      ensures State() == Plus(old(State()), FileReport(o, state, path, v))
    {
      if !v.parses { Fault(o, path, FilenameParseFailed, Error, true, v); return; }
      if v.stat == FileGone { return; }
      if v.stat == StatError { Fault(o, path, StatFailed, Error, false, v); return; }
      if !v.stat.regular { Fault(o, path, NonRegularFile, Error, true, v); return; }
      if v.stat.links != 1 { Fault(o, path, UnexpectedHardLink, Error, true, v); return; }
      if v.open == OpenGone { return; }
      if v.open == OpenError { Fault(o, path, OpenFailed, Error, false, v); return; }
      if state == ReceiptState {
        CheckReceipt(o, path, v);
      } else {
        CheckJob(o, state, path, v, v.stat.size);
      }
    }

    method CheckReceipt(o: Options, path: seq<Name>, v: FileView)
      modifies this
      ensures State() == Plus(old(State()), VerdictReport(o, path, ReceiptFileVerdict(|path|, v), v))
    {
      if |path| != CanonicalParts(ReceiptState) || v.receipt == ReceiptInvalid {
        Fault(o, path, ReceiptVerificationFailed, Error, true, v);
        return;
      }
      verified := verified + 1;
      if v.receipt == FullReceiptValid { deep := deep + 1; }
    }

    method CheckJob(o: Options, state: QueueState, path: seq<Name>, v: FileView, size: i64)
      modifies this
      ensures State() == Plus(old(State()), VerdictReport(o, path, JobVerdict(o, state, |path|, v, size), v))
    {
      if v.openedSize == Some(0) { Fault(o, path, ZeroLengthPublicationResidue, Warning, true, v); return; }
      if !v.headerReads { Fault(o, path, HeaderReadFailed, Error, true, v); return; }
      if v.header.None? { Fault(o, path, HeaderDecodeFailed, Error, true, v); return; }
      var fault := CheckHeader(o, state, |path|, v, v.header.value, size);
      if fault.Some? { Fault(o, path, fault.value.kind, Error, fault.value.aside, v); return; }
      CheckPayload(o, path, v);
    }

    method CheckPayload(o: Options, path: seq<Name>, v: FileView)
      modifies this
      ensures State() == Plus(old(State()), VerdictReport(o, path, DeepVerdict(o, v), v))
    {
      verified := verified + 1;
      if o.deep {
        if v.payload == PayloadValid {
          deep := deep + 1;
        } else if v.payload == PayloadCorrupt {
          Fault(o, path, PayloadDigestMismatch, Error, true, v);
        } else {
          Fault(o, path, PayloadReadFailed, Error, false, v);
        }
      }
    }

    static method CheckHeader(o: Options, state: QueueState, parts: nat, v: FileView, h: HeaderView, size: i64)
      returns (fault: Option<Verdict>)
      ensures fault.None? <==> HeaderSound(o, state, parts, v, h, size)
      ensures fault.Some? ==> fault.value.Faulty? && (fault.value.aside <==> !fault.value.kind.NegativeFileSize?)
      ensures fault == HeaderFault(o, state, parts, v, h, size)
    {
      if !h.jobIdMatches { return Some(Faulty(HeaderJobIdMismatch, true)); }
      if !h.maxAttemptsMatches { return Some(Faulty(HeaderMaxAttemptsMismatch, true)); }
      if h.extensionLength > 65536 { return Some(Faulty(ExtensionTooLarge, true)); }
      if h.extensionLength > 0 && !h.extensionReads { return Some(Faulty(ExtensionReadFailed, true)); }
      if !h.digestValid { return Some(Faulty(EnvelopeDigestMismatch, true)); }
      if size < 0 { return Some(Faulty(NegativeFileSize, false)); }
      var expected := Min(U64_MAX, 128 + h.extensionLength + h.payloadLength);
      if size != expected { return Some(Faulty(FileSizeMismatch, true)); }
      if h.payloadLength > o.maxPayloadLength { return Some(Faulty(PayloadExceedsLimit, true)); }
      var tagOk := parts == CanonicalParts(state) && v.tagAuthentic;
      if !tagOk { return Some(Faulty(NameTagMismatch, true)); }
      if v.pathShard.Some? && v.pathShard.value != v.computedShard {
        return Some(Faulty(ShardPlacementMismatch, true));
      }
      return None;
    }

    /** Walks `depth` levels below a directory, then checks the files. */
    method Walk(o: Options, state: QueueState, path: seq<Name>, depth: nat, d: DirView)
      modifies this
      ensures State() == Plus(old(State()), WalkReport(CheckerFor(o, state), path, depth, d))
      decreases d, 0
    {
      if !d.opens {
        Push(path, DirectoryScanIncomplete, Error);
        return;
      }
      ghost var start := State();
      ghost var check := CheckerFor(o, state);
      assert d.entries[0..] == d.entries;
      for i := 0 to |d.entries|
        invariant Plus(State(), EntriesReport(check, path, depth, d.entries[i..]))
               == Plus(start, EntriesReport(check, path, depth, d.entries))
      {
        ghost var before := State();
        ghost var rest := EntriesReport(check, path, depth, d.entries[i + 1..]);
        assert d.entries[i..][0] == d.entries[i] && d.entries[i..][1..] == d.entries[i + 1..];
        WalkEntry(o, state, path, depth, d.entries[i]);
        PlusAssoc(before, EntryReport(check, path, depth, d.entries[i]), rest);
      }
      assert d.entries[|d.entries|..] == [];
      ghost var listed := EntriesReport(check, path, depth, d.entries);
      assert State() == Plus(start, listed);
      if !d.ends {
        Push(path, DirectoryScanIncomplete, Error);
        PlusAssoc(start, listed, Incomplete(path));
      }
    }

    method WalkEntry(o: Options, state: QueueState, parent: seq<Name>, depth: nat, e: EntryView)
      modifies this
      ensures State() == Plus(old(State()), EntryReport(CheckerFor(o, state), parent, depth, e))
      decreases e, 1
    {
      var path := parent + [e.name];
      match KindOf(depth, e) {
        case BadName => Push(path, InvalidNameEncoding, Error);
        case AnObject => CheckObject(o, state, path, e.file);
        case Subdirectory(view) => Walk(o, state, path, depth - 1, view);
        case Absent =>
        case Stray => Push(path, UnexpectedEntry, Warning);
        case Unscannable => Push(path, DirectoryScanIncomplete, Error);
      }
    }

    /** One state: a root that does not open is an incomplete scan. */
    method FsckState(o: Options, q: QueueView, state: QueueState)
      modifies this
      ensures State() == Plus(old(State()), StateReport(o, q, state))
    {
      var root := Root(q, state);
      if root.None? {
        Push([StateName(state)], DirectoryScanIncomplete, Error);
      } else {
        Walk(o, state, [StateName(state)], FsckDepth(state), root.value);
      }
    }

    method CheckObject(o: Options, state: QueueState, path: seq<Name>, v: FileView)
      modifies this
      ensures State() == Plus(old(State()), CheckerFor(o, state)(path, v))
    {
      ghost var start := State();
      total := total + 1;
      ghost var counted := State();
      CheckFile(o, state, path, v);
      CountFirst(start, counted, FileReport(o, state, path, v));
    }
  }

  lemma CountFirst(start: Report, counted: Report, file: Report)
    requires counted == start.(total := start.total + 1)
    ensures Plus(counted, file) == Plus(start, Plus(NOTHING.(total := 1), file))
  {
  }

  lemma PlusAssoc(a: Report, b: Report, c: Report)
    ensures Plus(Plus(a, b), c) == Plus(a, Plus(b, c))
  {
  }

  // ---------- All five states ----------

  /** The state roots; a root that does not open is none. */
  datatype QueueView = QueueView(ready: Option<DirView>, leased: Option<DirView>, delayed: Option<DirView>,
                                 dead: Option<DirView>, receipts: Option<DirView>)

  function Root(q: QueueView, state: QueueState): Option<DirView> {
    match state
    case ReadyState => q.ready
    case LeasedState => q.leased
    case DelayedState => q.delayed
    case DeadState => q.dead
    case ReceiptState => q.receipts
  }

  function StateName(state: QueueState): Name {
    match state
    case ReadyState => [0x72, 0x65, 0x61, 0x64, 0x79]
    case LeasedState => [0x6C, 0x65, 0x61, 0x73, 0x65, 0x64]
    case DelayedState => [0x64, 0x65, 0x6C, 0x61, 0x79, 0x65, 0x64]
    case DeadState => [0x64, 0x65, 0x61, 0x64]
    case ReceiptState => [0x72, 0x65, 0x63, 0x65, 0x69, 0x70, 0x74, 0x73]
  }

  function StateReport(o: Options, q: QueueView, state: QueueState): Report {
    match Root(q, state)
    case None => Incomplete([StateName(state)])
    case Some(d) => WalkReport(CheckerFor(o, state), [StateName(state)], FsckDepth(state), d)
  }

  const STATES: seq<QueueState> := [ReadyState, LeasedState, DelayedState, DeadState, ReceiptState]

  function StatesReport(o: Options, q: QueueView, states: seq<QueueState>): Report {
    if states == [] then NOTHING
    else Plus(StatesReport(o, q, states[..|states| - 1]), StateReport(o, q, states[|states| - 1]))
  }

  method FsckStates(o: Options, q: QueueView, states: seq<QueueState>) returns (report: FsckReport)
    ensures fresh(report) && report.State() == StatesReport(o, q, states)
  {
    report := new FsckReport();
    for i := 0 to |states|
      invariant fresh(report) && report.State() == StatesReport(o, q, states[..i])
    {
      assert states[..i + 1][..i] == states[..i];
      report.FsckState(o, q, states[i]);
    }
    assert states[..|states|] == states;
  }

  /** The whole check. */
  method RunFsck(o: Options, q: QueueView) returns (report: FsckReport)
    ensures fresh(report) && report.State() == StatesReport(o, q, STATES)
  {
    report := FsckStates(o, q, STATES);
  }
}
