/** What a report means: a clean one is complete, and counts add up. */
module FsckTheorems {
  import opened Common
  import opened Fsck

  // ---------- Objects ----------

  /** The object was renamed away between the listing and the check. */
  predicate IsGone(v: FileView) {
    || v.stat.FileGone?
    || (v.stat.FileStat? && v.stat.regular && v.stat.links == 1 && v.open.OpenGone?)
  }

  /** A regular file with one link that could be opened. */
  predicate Readable(v: FileView) {
    v.stat.FileStat? && v.stat.regular && v.stat.links == 1 && v.open.Opened?
  }

  /** An interrupted publication: a name without content. */
  predicate IsResidue(state: QueueState, v: FileView) {
    Readable(v) && !state.ReceiptState? && v.openedSize == Some(0)
  }

  /** A receipt in its place whose own verification succeeded. */
  predicate ReceiptVerified(parts: nat, v: FileView) {
    Readable(v) && parts == 4 && !v.receipt.ReceiptInvalid?
  }

  /** A job in its place whose envelope, size, tag and shard all agree with its name. */
  predicate JobVerified(o: Options, state: QueueState, parts: nat, v: FileView) {
    && Readable(v) && v.openedSize != Some(0) && v.headerReads && v.header.Some?
    && HeaderSound(o, state, parts, v, v.header.value, v.stat.size)
  }

  // ---------- The order of the header checks ----------

  /** Where the check for a header fault comes among the ten. */
  function Rank(kind: FindingKind): nat {
    match kind
    case HeaderJobIdMismatch => 0
    case HeaderMaxAttemptsMismatch => 1
    case ExtensionTooLarge => 2
    case ExtensionReadFailed => 3
    case EnvelopeDigestMismatch => 4
    case NegativeFileSize => 5
    case FileSizeMismatch => 6
    case PayloadExceedsLimit => 7
    case NameTagMismatch => 8
    case ShardPlacementMismatch => 9
    case _ => 10
  }

  /** What is wrong when a header fault is reported. */
  predicate Wrong(kind: FindingKind, o: Options, state: QueueState, parts: nat, v: FileView, h: HeaderView, size: int) {
    match kind
    case HeaderJobIdMismatch => !h.jobIdMatches
    case HeaderMaxAttemptsMismatch => !h.maxAttemptsMatches
    case ExtensionTooLarge => h.extensionLength > 65536
    case ExtensionReadFailed => h.extensionLength > 0 && !h.extensionReads
    case EnvelopeDigestMismatch => !h.digestValid
    case NegativeFileSize => size < 0
    case FileSizeMismatch => size != 128 + h.extensionLength + h.payloadLength
    case PayloadExceedsLimit => h.payloadLength > o.maxPayloadLength
    case NameTagMismatch => !(parts == CanonicalParts(state) && v.tagAuthentic)
    case ShardPlacementMismatch => v.pathShard.Some? && v.pathShard.value != v.computedShard
    case _ => false
  }

  /** The fault reported applies and no fault of an earlier check does; without one, none applies. */
  lemma HeaderFaultIsFirst(o: Options, state: QueueState, parts: nat, v: FileView, h: HeaderView, size: i64)
    ensures match HeaderFault(o, state, parts, v, h, size)
            case None => forall k :: !Wrong(k, o, state, parts, v, h, size)
            case Some(f) =>
              && f.Faulty? && Wrong(f.kind, o, state, parts, v, h, size)
              && forall k :: Wrong(k, o, state, parts, v, h, size) ==> k == f.kind || Rank(f.kind) < Rank(k)
  {
    var fault := HeaderFault(o, state, parts, v, h, size);
    forall k | Wrong(k, o, state, parts, v, h, size)
      ensures fault.Some? && (k == fault.value.kind || Rank(fault.value.kind) < Rank(k))
    {
    }
  }

  predicate ObjectVerified(o: Options, state: QueueState, parts: nat, v: FileView) {
    v.parses && if state.ReceiptState? then ReceiptVerified(parts, v) else JobVerified(o, state, parts, v)
  }

  /** The payload was hashed where that was asked for. */
  predicate PayloadChecked(o: Options, state: QueueState, v: FileView) {
    o.deep && !state.ReceiptState? ==> v.payload.PayloadValid?
  }

  /** Nothing is wrong with the object: verified, gone, or residue that repair could set aside. */
  predicate ObjectClean(o: Options, state: QueueState, parts: nat, v: FileView) {
    v.parses && (|| IsGone(v)
                 || (IsResidue(state, v) && (o.repair ==> v.setAside.Some?))
                 || (ObjectVerified(o, state, parts, v) && PayloadChecked(o, state, v)))
  }

  /** An object is counted as verified exactly when it is. */
  lemma VerifiedExactly(o: Options, state: QueueState, path: seq<Name>, v: FileView)
    ensures FileReport(o, state, path, v).verified == if ObjectVerified(o, state, |path|, v) then 1 else 0
  {
  }

  lemma FindingReportErrors(o: Options, path: seq<Name>, kind: FindingKind, s: Severity, aside: bool, v: FileView)
    ensures var r := FindingReport(o, path, kind, s, aside, v);
            && r.verified == r.total == r.deep == 0
            && (NoErrors(r) <==> s == Warning && (o.repair && aside ==> v.setAside.Some?))
  {
  }

  lemma PlusErrors(a: Report, b: Report)
    ensures NoErrors(Plus(a, b)) <==> NoErrors(a) && NoErrors(b)
  {
  }

  lemma VerdictExactly(o: Options, state: QueueState, parts: nat, v: FileView)
    ensures match FileVerdict(o, state, parts, v)
            case Vanished => v.parses && IsGone(v)
            case Residue => v.parses && IsResidue(state, v)
            case Sound(_) => ObjectVerified(o, state, parts, v) && PayloadChecked(o, state, v)
            case Unsound(_, _) => ObjectVerified(o, state, parts, v) && !PayloadChecked(o, state, v)
            case Faulty(_, _) =>
              !(v.parses && (IsGone(v) || IsResidue(state, v))) && !ObjectVerified(o, state, parts, v)
  {
  }

  /** The check of an object raises no error exactly when nothing is wrong with it. */
  lemma ObjectCleanExactly(o: Options, state: QueueState, path: seq<Name>, v: FileView)
    ensures NoErrors(FileReport(o, state, path, v)) <==> ObjectClean(o, state, |path|, v)
  {
    VerdictExactly(o, state, |path|, v);
    match FileVerdict(o, state, |path|, v) {
      case Vanished =>
      case Residue => FindingReportErrors(o, path, ZeroLengthPublicationResidue, Warning, true, v);
      case Faulty(kind, aside) => FindingReportErrors(o, path, kind, Error, aside, v);
      case Sound(_) =>
      case Unsound(kind, aside) =>
        FindingReportErrors(o, path, kind, Error, aside, v);
        PlusErrors(NOTHING.(verified := 1), FindingReport(o, path, kind, Error, aside, v));
    }
  }

  lemma ObjectReportClean(o: Options, state: QueueState, path: seq<Name>, v: FileView)
    ensures NoErrors(ObjectReport(o, state, path, v)) <==> ObjectClean(o, state, |path|, v)
  {
    ObjectCleanExactly(o, state, path, v);
    PlusErrors(NOTHING.(total := 1), FileReport(o, state, path, v));
  }

  // ---------- Trees ----------

  /** The directory was listed to its end and everything in it, down to the shards, is clean. */
  predicate TreeClean(clean: (nat, FileView) -> bool, parts: nat, depth: nat, d: DirView)
    decreases d
  {
    d.opens && d.ends && forall i :: 0 <= i < |d.entries| ==> EntryClean(clean, parts + 1, depth, d.entries[i])
  }

  predicate EntryClean(clean: (nat, FileView) -> bool, parts: nat, depth: nat, e: EntryView)
    decreases e
  {
    && Ascii(e.name)
    && if depth == 0 then
         if ObjectName(e.name) then clean(parts, e.file)
         else e.stat.IsOther? || e.stat.EntryGone?
       else
         match e.open
         case Directory(view) => TreeClean(clean, parts, depth - 1, view)
         case NotDirectory => ObjectName(e.name) ==> clean(parts, e.file)
         case DirectoryGone => true
         case DirectoryError => false
  }

  lemma SingleErrors(f: Finding)
    ensures NoErrors(NOTHING.(findings := [f])) <==> f.severity == Warning
  {
  }

  /** The check of an object raises no error exactly when the object is clean. */
  ghost predicate Exact(check: Checker, clean: (nat, FileView) -> bool) {
    forall path, v :: NoErrors(check(path, v)) <==> clean(|path|, v)
  }

  lemma {:induction false} EntryCleanExactly(
      check: Checker, clean: (nat, FileView) -> bool, parent: seq<Name>, depth: nat, e: EntryView)
    requires Exact(check, clean)
    ensures NoErrors(EntryReport(check, parent, depth, e)) <==> EntryClean(clean, |parent| + 1, depth, e)
    decreases e
  {
    var path := parent + [e.name];
    match KindOf(depth, e) {
      case BadName => SingleErrors(Finding(path, InvalidNameEncoding, Error));
      case AnObject => assert NoErrors(check(path, e.file)) <==> clean(|path|, e.file);
      case Subdirectory(view) => TreeCleanExactly(check, clean, path, depth - 1, view);
      case Absent =>
      case Stray => SingleErrors(Finding(path, UnexpectedEntry, Warning));
      case Unscannable => SingleErrors(Finding(path, DirectoryScanIncomplete, Error));
    }
  }

  lemma {:induction false} EntriesCleanExactly(
      check: Checker, clean: (nat, FileView) -> bool, parent: seq<Name>, depth: nat, es: seq<EntryView>)
    requires Exact(check, clean)
    ensures NoErrors(EntriesReport(check, parent, depth, es))
       <==> forall i :: 0 <= i < |es| ==> EntryClean(clean, |parent| + 1, depth, es[i])
    decreases es
  {
    if es != [] {
      assert es decreases to es[0];
      var rest := es[1..];
      EntryCleanExactly(check, clean, parent, depth, es[0]);
      EntriesCleanExactly(check, clean, parent, depth, rest);
      PlusErrors(EntryReport(check, parent, depth, es[0]), EntriesReport(check, parent, depth, rest));
      assert forall i :: 0 < i < |es| ==> es[i] == rest[i - 1];
      assert forall i :: 0 <= i < |rest| ==> rest[i] == es[i + 1];
    }
  }

  /** A walk reports no error exactly when the tree is clean: an unread directory is never a clean one. */
  lemma {:induction false} TreeCleanExactly(
      check: Checker, clean: (nat, FileView) -> bool, path: seq<Name>, depth: nat, d: DirView)
    requires Exact(check, clean)
    ensures NoErrors(WalkReport(check, path, depth, d)) <==> TreeClean(clean, |path|, depth, d)
    decreases d
  {
    SingleErrors(Finding(path, DirectoryScanIncomplete, Error));
    EntriesCleanExactly(check, clean, path, depth, d.entries);
    PlusErrors(EntriesReport(check, path, depth, d.entries), Incomplete(path));
  }

  function CleanFor(o: Options, state: QueueState): (nat, FileView) -> bool {
    (parts: nat, v: FileView) => ObjectClean(o, state, parts, v)
  }

  lemma CheckerIsExact(o: Options, state: QueueState)
    ensures Exact(CheckerFor(o, state), CleanFor(o, state))
  {
    forall path, v ensures NoErrors(CheckerFor(o, state)(path, v)) <==> CleanFor(o, state)(|path|, v) {
      ObjectReportClean(o, state, path, v);
    }
  }

  ghost predicate QueueClean(o: Options, q: QueueView) {
    forall state: QueueState ::
      Root(q, state).Some? && TreeClean(CleanFor(o, state), 1, FsckDepth(state), Root(q, state).value)
  }

  lemma StateCleanExactly(o: Options, q: QueueView, state: QueueState)
    ensures NoErrors(StateReport(o, q, state))
       <==> Root(q, state).Some? && TreeClean(CleanFor(o, state), 1, FsckDepth(state), Root(q, state).value)
  {
    SingleErrors(Finding([StateName(state)], DirectoryScanIncomplete, Error));
    if Root(q, state).Some? {
      CheckerIsExact(o, state);
      TreeCleanExactly(CheckerFor(o, state), CleanFor(o, state), [StateName(state)], FsckDepth(state),
                       Root(q, state).value);
    }
  }

  lemma {:induction false} StatesErrors(o: Options, q: QueueView, states: seq<QueueState>)
    ensures NoErrors(StatesReport(o, q, states))
       <==> forall i :: 0 <= i < |states| ==> NoErrors(StateReport(o, q, states[i]))
  {
    if states != [] {
      var front, last := states[..|states| - 1], states[|states| - 1];
      StatesErrors(o, q, front);
      PlusErrors(StatesReport(o, q, front), StateReport(o, q, last));
      assert forall i :: 0 <= i < |states| ==> states[i] == if i < |front| then front[i] else last;
      assert forall i :: 0 <= i < |front| ==> front[i] == states[i];
    }
  }

  /** A report without errors is a complete one, for every queue and every failure of the file system. */
  lemma CleanMeansComplete(o: Options, q: QueueView)
    ensures NoErrors(StatesReport(o, q, STATES)) <==> QueueClean(o, q)
  {
    StatesErrors(o, q, STATES);
    forall state: QueueState
      ensures NoErrors(StateReport(o, q, state))
         <==> Root(q, state).Some? && TreeClean(CleanFor(o, state), 1, FsckDepth(state), Root(q, state).value)
    {
      StateCleanExactly(o, q, state);
    }
    assert STATES[0] == ReadyState && STATES[1] == LeasedState && STATES[2] == DelayedState;
    assert STATES[3] == DeadState && STATES[4] == ReceiptState;
  }

  // ---------- Counts ----------

  /** How many objects of a tree `pick` picks, given the depth they are found at. */
  function CountEntry(pick: (nat, nat, FileView) -> bool, parts: nat, depth: nat, e: EntryView): nat
    decreases e
  {
    match KindOf(depth, e)
    case AnObject => if pick(depth, parts, e.file) then 1 else 0
    case Subdirectory(view) => CountTree(pick, parts, depth - 1, view)
    case _ => 0
  }

  function CountEntries(pick: (nat, nat, FileView) -> bool, parts: nat, depth: nat, es: seq<EntryView>): nat
    decreases es
  {
    if es == [] then 0
    else
      assert es decreases to es[0];
      CountEntry(pick, parts, depth, es[0]) + CountEntries(pick, parts, depth, es[1..])
  }

  function CountTree(pick: (nat, nat, FileView) -> bool, parts: nat, depth: nat, d: DirView): nat
    decreases d
  {
    if d.opens then CountEntries(pick, parts + 1, depth, d.entries) else 0
  }

  predicate CountsVerified(v: Verdict) { v.Sound? || v.Unsound? }

  predicate Spared(v: Verdict) { v.Vanished? || v.Residue? }

  /** Every object. */
  function AnyObject(): (nat, nat, FileView) -> bool { (depth: nat, parts: nat, v: FileView) => true }

  /** Objects at shard level whose every structural check passed. */
  function VerifiedAtShard(o: Options, state: QueueState): (nat, nat, FileView) -> bool {
    (depth: nat, parts: nat, v: FileView) => depth == 0 && ObjectVerified(o, state, parts, v)
  }

  function SparedObject(o: Options, state: QueueState): (nat, nat, FileView) -> bool {
    (depth: nat, parts: nat, v: FileView) => Spared(FileVerdict(o, state, parts, v))
  }

  function FaultyObject(o: Options, state: QueueState): (nat, nat, FileView) -> bool {
    (depth: nat, parts: nat, v: FileView) => FileVerdict(o, state, parts, v).Faulty?
  }

  lemma ReportOfVerdict(o: Options, state: QueueState, path: seq<Name>, v: FileView)
    ensures var r := FileReport(o, state, path, v);
            r.total == 0 && r.verified == if CountsVerified(FileVerdict(o, state, |path|, v)) then 1 else 0
  {
  }

  /** One of three things is true of an object, and the counters say which. */
  ghost predicate TallyAt(check: Checker, all: (nat, nat, FileView) -> bool, verified: (nat, nat, FileView) -> bool,
                          spared: (nat, nat, FileView) -> bool, faulty: (nat, nat, FileView) -> bool,
                          path: seq<Name>, depth: nat, v: FileView) {
    var r := check(path, v);
    && all(depth, |path|, v) && r.total == 1
    && r.verified == (if verified(depth, |path|, v) then 1 else 0)
    && (if verified(depth, |path|, v) then 1 else 0) + (if spared(depth, |path|, v) then 1 else 0)
       + (if faulty(depth, |path|, v) then 1 else 0) == 1
  }

  ghost predicate Tallies(check: Checker, all: (nat, nat, FileView) -> bool, verified: (nat, nat, FileView) -> bool,
                          spared: (nat, nat, FileView) -> bool, faulty: (nat, nat, FileView) -> bool, parts: nat) {
    forall path, depth: nat, v :: |path| + depth <= parts ==>
      TallyAt(check, all, verified, spared, faulty, path, depth, v)
  }

  lemma CountedOne(file: Report)
    requires file.total == 0
    ensures Plus(NOTHING.(total := 1), file).total == 1
    ensures Plus(NOTHING.(total := 1), file).verified == file.verified
  {
  }

  lemma ObjectCounts(o: Options, state: QueueState, path: seq<Name>, v: FileView)
    ensures ObjectReport(o, state, path, v).total == 1
    ensures ObjectReport(o, state, path, v).verified == if ObjectVerified(o, state, |path|, v) then 1 else 0
  {
    ReportOfVerdict(o, state, path, v);
    CountedOne(FileReport(o, state, path, v));
    VerifiedExactly(o, state, path, v);
  }

  lemma VerdictCounts(o: Options, state: QueueState, parts: nat, depth: nat, v: FileView)
    requires parts + depth <= CanonicalParts(state)
    ensures ObjectVerified(o, state, parts, v) ==> depth == 0
    ensures CountsVerified(FileVerdict(o, state, parts, v)) <==> ObjectVerified(o, state, parts, v)
  {
    VerdictExactly(o, state, parts, v);
  }

  lemma CheckerTallies(o: Options, state: QueueState)
    ensures Tallies(CheckerFor(o, state), AnyObject(), VerifiedAtShard(o, state), SparedObject(o, state),
                    FaultyObject(o, state), CanonicalParts(state))
  {
    forall path, depth: nat, v | |path| + depth <= CanonicalParts(state)
      ensures TallyAt(CheckerFor(o, state), AnyObject(), VerifiedAtShard(o, state), SparedObject(o, state),
                      FaultyObject(o, state), path, depth, v)
    {
      ObjectCounts(o, state, path, v);
      VerdictCounts(o, state, |path|, depth, v);
    }
  }

  lemma {:induction false} EntryTallies(check: Checker, all: (nat, nat, FileView) -> bool,
      verified: (nat, nat, FileView) -> bool, spared: (nat, nat, FileView) -> bool, faulty: (nat, nat, FileView) -> bool,
      parts: nat, parent: seq<Name>, depth: nat, e: EntryView)
    requires Tallies(check, all, verified, spared, faulty, parts) && |parent| + 1 + depth <= parts
    ensures var n := |parent| + 1;
            var r := EntryReport(check, parent, depth, e);
            && r.total == CountEntry(all, n, depth, e) && r.verified == CountEntry(verified, n, depth, e)
            && r.total == r.verified + CountEntry(spared, n, depth, e) + CountEntry(faulty, n, depth, e)
    decreases e
  {
    var path := parent + [e.name];
    match KindOf(depth, e) {
      case AnObject => assert TallyAt(check, all, verified, spared, faulty, path, depth, e.file);
      case Subdirectory(view) => TreeTallies(check, all, verified, spared, faulty, parts, path, depth - 1, view);
      case _ =>
    }
  }

  lemma {:induction false} EntriesTallies(check: Checker, all: (nat, nat, FileView) -> bool,
      verified: (nat, nat, FileView) -> bool, spared: (nat, nat, FileView) -> bool, faulty: (nat, nat, FileView) -> bool,
      parts: nat, parent: seq<Name>, depth: nat, es: seq<EntryView>)
    requires Tallies(check, all, verified, spared, faulty, parts) && |parent| + 1 + depth <= parts
    ensures var n := |parent| + 1;
            var r := EntriesReport(check, parent, depth, es);
            && r.total == CountEntries(all, n, depth, es) && r.verified == CountEntries(verified, n, depth, es)
            && r.total == r.verified + CountEntries(spared, n, depth, es) + CountEntries(faulty, n, depth, es)
    decreases es
  {
    if es != [] {
      assert es decreases to es[0];
      EntryTallies(check, all, verified, spared, faulty, parts, parent, depth, es[0]);
      EntriesTallies(check, all, verified, spared, faulty, parts, parent, depth, es[1..]);
    }
  }

  lemma {:induction false} TreeTallies(check: Checker, all: (nat, nat, FileView) -> bool,
      verified: (nat, nat, FileView) -> bool, spared: (nat, nat, FileView) -> bool, faulty: (nat, nat, FileView) -> bool,
      parts: nat, path: seq<Name>, depth: nat, d: DirView)
    requires Tallies(check, all, verified, spared, faulty, parts) && |path| + 1 + depth <= parts
    ensures var n := |path|;
            var r := WalkReport(check, path, depth, d);
            && r.total == CountTree(all, n, depth, d) && r.verified == CountTree(verified, n, depth, d)
            && r.total == r.verified + CountTree(spared, n, depth, d) + CountTree(faulty, n, depth, d)
    decreases d
  {
    if d.opens { EntriesTallies(check, all, verified, spared, faulty, parts, path, depth, d.entries); }
  }

  /**
   For every tree: the totals count the objects reached, what is counted as
   verified is verified and at shard level, and the rest vanished, was residue or
   is at fault.
   */
  lemma WalkCountsExactly(o: Options, state: QueueState, d: DirView)
    ensures var r := WalkReport(CheckerFor(o, state), [StateName(state)], FsckDepth(state), d);
            && r.total == CountTree(AnyObject(), 1, FsckDepth(state), d)
            && r.verified == CountTree(VerifiedAtShard(o, state), 1, FsckDepth(state), d)
            && r.total == r.verified + CountTree(SparedObject(o, state), 1, FsckDepth(state), d)
                          + CountTree(FaultyObject(o, state), 1, FsckDepth(state), d)
  {
    CheckerTallies(o, state);
    RootDepthIsCanonical(state);
    TreeTallies(CheckerFor(o, state), AnyObject(), VerifiedAtShard(o, state), SparedObject(o, state),
                FaultyObject(o, state), CanonicalParts(state), [StateName(state)], FsckDepth(state), d);
  }

  /** The walk of each state starts at the depth that puts its objects in place. */
  lemma RootDepthIsCanonical(state: QueueState)
    ensures |[StateName(state)]| + 1 + FsckDepth(state) == CanonicalParts(state)
  {
  }
}
