/**
 The recovery cursor's ledger of directories to retry: which one each attempt
 takes, and what an attempt, a new failure and a full ledger do to it.
 */
module RetryLedger {
  import opened Common
  import opened LexOrder
  import opened Utf8

  const MAX_RETRIES := 64

  type Name = seq<byte>

  datatype Phase = ReapLeases | PromoteDelayed | CleanupTemp | CompactReceipts | DeleteReceipts

  datatype RetryKind = Open | Enumerate

  datatype Retry = Retry(phase: Phase, kind: RetryKind, components: seq<Name>)

  /**
   `resume` holds the last classified entry of a phase as its path: the saved
   directory names, root first, and the entry name.
   */
  datatype Ledger = Ledger(
    resume: map<Phase, seq<Name>>,
    retries: seq<Retry>,
    frontiers: seq<Retry>,
    overflow: seq<Phase>)

  datatype Remembered = Exact | Overflow | Invalid

  // ---------- Orders ----------

  function PhaseIndex(p: Phase): (i: nat)
    ensures i < 5
  {
    match p
    case ReapLeases => 0
    case PromoteDelayed => 1
    case CleanupTemp => 2
    case CompactReceipts => 3
    case DeleteReceipts => 4
  }

  function KindIndex(k: RetryKind): nat {
    if k.Open? then 0 else 1
  }

  predicate PhaseBelow(p: Phase, q: Phase) { PhaseIndex(p) < PhaseIndex(q) }

  /** By phase, then kind, then component names as byte strings. */
  predicate RetryBelow(a: Retry, b: Retry) {
    || PhaseBelow(a.phase, b.phase)
    || (a.phase == b.phase
        && (|| KindIndex(a.kind) < KindIndex(b.kind)
            || (a.kind == b.kind && Below(BytesBelow, a.components, b.components))))
  }

  predicate FrontierBelow(a: Retry, b: Retry) { PhaseBelow(a.phase, b.phase) }

  lemma RetryBelowIsTotal()
    ensures StrictTotalOrder(RetryBelow)
  {
    BytesBelowIsTotal();
    forall x ensures !RetryBelow(x, x) { BelowIrreflexive(BytesBelow, x.components); }
    forall x, y, z | RetryBelow(x, y) && RetryBelow(y, z) ensures RetryBelow(x, z) {
      if x.phase == z.phase && x.kind == z.kind {
        BelowTransitive(BytesBelow, x.components, y.components, z.components);
      }
    }
    forall x, y ensures x == y || RetryBelow(x, y) || RetryBelow(y, x) {
      BelowTotal(BytesBelow, x.components, y.components);
    }
  }

  // ---------- Canonical directory names ----------

  predicate LowerHex(b: byte) { 0x30 <= b <= 0x39 || 0x61 <= b <= 0x66 }

  predicate BucketName(s: Name) { |s| == 16 && forall b <- s :: LowerHex(b) }

  predicate ShardName(s: Name) { |s| == 4 && forall b <- s :: LowerHex(b) }

  /** A lowercase UUID, 8-4-4-4-12. */
  predicate BootName(s: Name) {
    && |s| == 36
    && forall i :: 0 <= i < 36 ==>
         if i == 8 || i == 13 || i == 18 || i == 23 then s[i] == 0x2D else LowerHex(s[i])
  }

  predicate CanonicalComponent(p: Phase, index: nat, s: Name) {
    match p
    case ReapLeases =>
      if index == 0 then BootName(s) else if index == 1 then BucketName(s) else index == 2 && ShardName(s)
    case CleanupTemp => if index == 0 then BootName(s) else index == 1 && ShardName(s)
    case _ => if index == 0 then BucketName(s) else index == 1 && ShardName(s)
  }

  predicate CanonicalRetry(r: Retry) {
    && 1 <= |r.components| <= (if r.phase.ReapLeases? then 3 else 2)
    && forall i :: 0 <= i < |r.components| ==> CanonicalComponent(r.phase, i, r.components[i])
  }

  /** A name the cursor may hold: not empty, `.` or `..`, no slash, no NUL. */
  predicate PlainName(s: Name) {
    1 <= |s| <= 255 && s != [0x2E] && s != [0x2E, 0x2E] && 0x2F !in s && 0 !in s
  }

  predicate ResumePath(p: Phase, path: seq<Name>) {
    |path| == (if p.ReapLeases? then 4 else 3) && forall c <- path :: PlainName(c)
  }

  /** What a cursor read back from disk must satisfy. */
  ghost predicate ValidLedger(l: Ledger) {
    && (forall p <- l.resume :: ResumePath(p, l.resume[p]))
    && |l.retries| <= MAX_RETRIES
    && (forall r <- l.retries :: CanonicalRetry(r))
    && Sorted(RetryBelow, l.retries)
    && |l.frontiers| <= 5
    && (forall r <- l.frontiers :: CanonicalRetry(r))
    && Sorted(FrontierBelow, l.frontiers)
    && Sorted(PhaseBelow, l.overflow)
  }

  // ---------- Operations ----------

  /** Where a binary search of the sorted `s` puts `x`. */
  function Position<T>(lt: (T, T) -> bool, s: seq<T>, x: T): (i: nat)
    ensures i <= |s|
    ensures forall j :: 0 <= j < i ==> lt(s[j], x)
    ensures i < |s| ==> !lt(s[i], x)
  {
    if s == [] || !lt(s[0], x) then 0
    else
      var i := Position(lt, s[1..], x);
      assert forall j :: 0 < j < i + 1 ==> s[j] == s[1..][j - 1];
      i + 1
  }

  function InsertAt<T>(s: seq<T>, i: nat, x: T): seq<T>
    requires i <= |s|
  {
    s[..i] + [x] + s[i..]
  }

  function Remember(l: Ledger, r: Retry): Ledger {
    var i := Position(RetryBelow, l.retries, r);
    if i < |l.retries| && l.retries[i] == r then l
    else if |l.retries| < MAX_RETRIES then l.(retries := InsertAt(l.retries, i, r))
    else
      var k := Position(PhaseBelow, l.overflow, r.phase);
      if k < |l.overflow| && l.overflow[k] == r.phase then l
      else l.(overflow := InsertAt(l.overflow, k, r.phase))
  }

  function ClearResume(l: Ledger, p: Phase): Ledger {
    l.(resume := l.resume - {p})
  }

  function Prepare(l: Ledger, p: Phase): Ledger {
    var k := Position(PhaseBelow, l.overflow, p);
    if k < |l.overflow| && l.overflow[k] == p then
      ClearResume(l.(overflow := l.overflow[..k] + l.overflow[k + 1..]), p)
    else l
  }

  function FrontierOf(fs: seq<Retry>, p: Phase): (r: Option<Retry>)
    ensures r.Some? ==> r.value in fs && r.value.phase == p
    ensures r.None? ==> forall f <- fs :: f.phase != p
  {
    if fs == [] then None else if fs[0].phase == p then Some(fs[0]) else FrontierOf(fs[1..], p)
  }

  /** Whether a scan that starts behind `f` has yet to reach `x`. */
  predicate Beyond(f: Option<Retry>, x: Retry) { f.None? || RetryBelow(f.value, x) }

  /** First retry of phase `p` beyond `f`. */
  function FirstBeyond(rs: seq<Retry>, p: Phase, f: Option<Retry>): Option<Retry> {
    if rs == [] then None
    else if rs[0].phase == p && Beyond(f, rs[0]) then Some(rs[0])
    else FirstBeyond(rs[1..], p, f)
  }

  /** The retry the next attempt of phase `p` takes. */
  function Next(l: Ledger, p: Phase): Option<Retry> {
    match FirstBeyond(l.retries, p, FrontierOf(l.frontiers, p))
    case Some(r) => Some(r)
    case None => FirstBeyond(l.retries, p, None)
  }

  function SetFrontier(fs: seq<Retry>, r: Retry): seq<Retry> {
    var i := Position(FrontierBelow, fs, r);
    if i < |fs| && fs[i].phase == r.phase then fs[i := r] else InsertAt(fs, i, r)
  }

  function Advance(l: Ledger, r: Retry): Ledger {
    l.(frontiers := SetFrontier(l.frontiers, r))
  }

  function DropFrontier(l: Ledger, p: Phase): Ledger {
    l.(frontiers := WithoutPhase(l.frontiers, p))
  }

  function WithoutPhase(fs: seq<Retry>, p: Phase): (s: seq<Retry>)
    ensures |s| <= |fs|
    ensures forall x :: x in s <==> x in fs && x.phase != p
  {
    if fs == [] then []
    else (if fs[0].phase == p then [] else [fs[0]]) + WithoutPhase(fs[1..], p)
  }

  function Without(rs: seq<Retry>, r: Retry): (s: seq<Retry>)
    ensures |s| <= |rs|
    ensures forall x :: x in s <==> x in rs && x != r
  {
    if rs == [] then []
    else (if rs[0] == r then [] else [rs[0]]) + Without(rs[1..], r)
  }

  predicate AnyOfPhase(rs: seq<Retry>, p: Phase) { exists r <- rs :: r.phase == p }

  function Resolve(l: Ledger, r: Retry): Ledger {
    var kept := ClearResume(l.(retries := Without(l.retries, r)), r.phase);
    if AnyOfPhase(kept.retries, r.phase) then Advance(kept, r) else DropFrontier(kept, r.phase)
  }

  // ---------- One attempt ----------

  /** How an attempt ends: out of budget, another failure, or the retry is settled. */
  datatype Outcome = Interrupted | Failed | Resolved

  datatype Clock = Within | Exceeded | Unavailable

  datatype OpenResult = Opened | Missing | OpenError

  datatype ReadResult = Listed | ReadBudget | ReadClock | ReadError

  /**
   What the system answers during one attempt: `clock(0)` on entry, then for
   component `i` the clock and the open, then the directory read.
   */
  datatype Environment = Environment(clock: nat -> Clock, open: nat -> OpenResult, read: ReadResult)

  /** Components from `i` on. */
  function OpenFrom(env: Environment, r: Retry, i: nat): Outcome
    requires i <= |r.components|
    decreases |r.components| - i
  {
    if i == |r.components| then
      if r.kind.Enumerate? then
        match env.read
        case Listed => Resolved
        case ReadError => Failed
        case _ => Interrupted
      else Resolved
    else if !env.clock(i + 1).Within? then Interrupted
    else
      match env.open(i)
      case Opened => OpenFrom(env, r, i + 1)
      case Missing => Resolved
      case OpenError => Failed
  }

  function AttemptOutcome(env: Environment, r: Retry): Outcome {
    if !env.clock(0).Within? then Interrupted else OpenFrom(env, r, 0)
  }

  function Settle(l: Ledger, r: Retry, o: Outcome): Ledger {
    match o
    case Interrupted => l
    case Failed => Advance(l, r)
    case Resolved => Resolve(l, r)
  }

  /** A phase starts: the overflow flag is acted on, then one retry is attempted. */
  function BeginPhase(l: Ledger, p: Phase, env: Environment): Ledger {
    var l1 := Prepare(l, p);
    match Next(l1, p)
    case None => DropFrontier(l1, p)
    case Some(r) => Settle(l1, r, AttemptOutcome(env, r))
  }

  // ---------- The cursor in place ----------

  class RecoveryCursor {
    var resume: map<Phase, seq<Name>>
    var retries: seq<Retry>
    var frontiers: seq<Retry>
    var overflow: seq<Phase>

    ghost function State(): Ledger
      reads this
    {
      Ledger(resume, retries, frontiers, overflow)
    }

    constructor ()
      ensures State() == Ledger(map[], [], [], [])
    {
      resume, retries, frontiers, overflow := map[], [], [], [];
    }

    /** Records a directory that could not be opened or read. */
    method RememberRetry(phase: Phase, kind: RetryKind, components: seq<Name>) returns (result: Remembered)
      modifies this
      ensures var r := Retry(phase, kind, components);
              State() == if forall c <- components :: ValidUtf8(c) then Remember(old(State()), r) else old(State())
      ensures result.Invalid? <==> !forall c <- components :: ValidUtf8(c)
      ensures ValidLedger(old(State())) && !result.Invalid?
              ==> (result.Exact? <==> Retry(phase, kind, components) in retries)
      ensures result.Overflow? ==> phase in overflow
    {
      for i := 0 to |components|
        invariant forall j :: 0 <= j < i ==> ValidUtf8(components[j])
      {
        if !ValidUtf8(components[i]) { return Invalid; }
      }
      var r := Retry(phase, kind, components);
      var i := Position(RetryBelow, retries, r);
      if i < |retries| && retries[i] == r { return Exact; }
      ghost var before := State();
      if |retries| < MAX_RETRIES {
        retries := InsertAt(retries, i, r);
        assert retries[i] == r;
        return Exact;
      }
      var k := Position(PhaseBelow, overflow, phase);
      if !(k < |overflow| && overflow[k] == phase) {
        overflow := InsertAt(overflow, k, phase);
        assert overflow[k] == phase;
      }
      RetryBelowIsTotal();
      if ValidLedger(before) { SearchExact(RetryBelow, retries, r); }
      return Overflow;
    }

    method PreparePhase(p: Phase) returns (retry: Option<Retry>)
      modifies this
      ensures State() == Prepare(old(State()), p)
      ensures retry == Next(State(), p)
    {
      var k := Position(PhaseBelow, overflow, p);
      if k < |overflow| && overflow[k] == p {
        overflow := overflow[..k] + overflow[k + 1..];
        resume := resume - {p};
      }
      retry := NextRetry(p);
    }

    method NextRetry(p: Phase) returns (retry: Option<Retry>)
      ensures retry == Next(State(), p)
    {
      var frontier := FrontierOf(frontiers, p);
      var first: Option<Retry> := None;
      for i := 0 to |retries|
        invariant first == None ==> FirstBeyond(retries, p, None) == FirstBeyond(retries[i..], p, None)
        invariant first != None ==> FirstBeyond(retries, p, None) == first
        invariant FirstBeyond(retries, p, frontier) == FirstBeyond(retries[i..], p, frontier)
      {
        var r := retries[i];
        assert retries[i..][0] == r && retries[i..][1..] == retries[i + 1..];
        if r.phase == p {
          if first == None { first := Some(r); }
          if Beyond(frontier, r) { return Some(r); }
        }
      }
      return first;
    }

    /** Attempts one retry; true when the phase must stop for lack of budget. */
    method RetryOne(p: Phase, retry: Option<Retry>, env: Environment) returns (stop: bool)
      requires retry.Some? ==> retry.value.phase == p
      modifies this
      ensures retry.None? ==> State() == DropFrontier(old(State()), p) && !stop
      ensures retry.Some? ==>
                var o := AttemptOutcome(env, retry.value);
                State() == Settle(old(State()), retry.value, o) && stop == o.Interrupted?
    {
      if retry.None? {
        frontiers := WithoutPhase(frontiers, p);
        return false;
      }
      var r := retry.value;
      if !env.clock(0).Within? { return true; }
      var failure, absent := false, false;
      var i := 0;
      while i < |r.components|
        invariant 0 <= i <= |r.components| && !failure && !absent
        invariant State() == old(State())
        invariant OpenFrom(env, r, i) == OpenFrom(env, r, 0)
      {
        if !env.clock(i + 1).Within? { return true; }
        var answer := env.open(i);
        if answer == Missing {
          absent := true;
          break;
        }
        if answer == OpenError {
          failure := true;
          break;
        }
        i := i + 1;
      }
      if failure {
        frontiers := SetFrontier(frontiers, r);
        return false;
      }
      if !absent && r.kind == Enumerate {
        if env.read != Listed {
          if env.read != ReadError { return true; }
          frontiers := SetFrontier(frontiers, r);
          return false;
        }
      }
      retries := Without(retries, r);
      resume := resume - {p};
      if AnyOfPhase(retries, p) {
        frontiers := SetFrontier(frontiers, r);
      } else {
        frontiers := WithoutPhase(frontiers, p);
      }
      return false;
    }

    method Begin(p: Phase, env: Environment) returns (stop: bool)
      modifies this
      ensures State() == BeginPhase(old(State()), p, env)
    {
      var retry := PreparePhase(p);
      if retry.Some? { NextIsPending(State(), p); }
      stop := RetryOne(p, retry, env);
    }
  }

  /** A binary search finds what is there. */
  lemma SearchExact<T(!new)>(lt: (T, T) -> bool, s: seq<T>, x: T)
    requires StrictOrder(lt) && Sorted(lt, s)
    ensures x in s <==> Position(lt, s, x) < |s| && s[Position(lt, s, x)] == x
  {
  }

  lemma NextIsPending(l: Ledger, p: Phase)
    requires Next(l, p).Some?
    ensures Next(l, p).value in l.retries && Next(l, p).value.phase == p
  {
    FirstIsPending(l.retries, p, FrontierOf(l.frontiers, p));
    FirstIsPending(l.retries, p, None);
  }

  lemma {:induction false} FirstIsPending(rs: seq<Retry>, p: Phase, f: Option<Retry>)
    ensures FirstBeyond(rs, p, f).Some? ==>
              var r := FirstBeyond(rs, p, f).value; r in rs && r.phase == p && Beyond(f, r)
  {
    if rs != [] { FirstIsPending(rs[1..], p, f); }
  }
}
