/**
 Every run of the retry ledger: it stays valid, it loses nothing, and it takes
 the pending retries in turn.
 */
module RetryProofs {
  import opened Common
  import opened LexOrder
  import opened Utf8
  import opened RetryLedger

  // ---------- Runs ----------

  /** What the recovery phases do to the cursor. */
  datatype Step =
    | NewFailure(retry: Retry)
    | Start(phase: Phase, env: Environment)
    | SaveResume(phase: Phase, path: seq<Name>)
    | FinishScan(phase: Phase)

  /** Scans record canonical directory names and plain entry names only. */
  predicate Admissible(s: Step) {
    match s
    case NewFailure(r) => CanonicalRetry(r)
    case SaveResume(p, path) => ResumePath(p, path)
    case _ => true
  }

  function Apply(l: Ledger, s: Step): Ledger {
    match s
    case NewFailure(r) => Remember(l, r)
    case Start(p, env) => BeginPhase(l, p, env)
    case SaveResume(p, path) => l.(resume := l.resume[p := path])
    case FinishScan(p) => ClearResume(l, p)
  }

  function Run(l: Ledger, steps: seq<Step>): Ledger
    decreases |steps|
  {
    if steps == [] then l else Run(Apply(l, steps[0]), steps[1..])
  }

  // ---------- Sorted lists ----------

  lemma InsertAtSorted<T(!new)>(lt: (T, T) -> bool, s: seq<T>, i: nat, x: T)
    requires i <= |s| && Sorted(lt, s)
    requires forall j :: 0 <= j < i ==> lt(s[j], x)
    requires forall j :: i <= j < |s| ==> lt(x, s[j])
    ensures Sorted(lt, InsertAt(s, i, x))
    ensures forall y :: y in InsertAt(s, i, x) <==> y in s || y == x
  {
  }

  lemma InsertSorted<T(!new)>(lt: (T, T) -> bool, s: seq<T>, x: T)
    requires StrictTotalOrder(lt) && Sorted(lt, s) && x !in s
    ensures Sorted(lt, InsertAt(s, Position(lt, s, x), x))
    ensures forall y :: y in InsertAt(s, Position(lt, s, x), x) <==> y in s || y == x
  {
    var i := Position(lt, s, x);
    assert forall j :: i <= j < |s| ==> lt(x, s[j]);
    InsertAtSorted(lt, s, i, x);
  }

  lemma RemoveAtSorted<T(!new)>(lt: (T, T) -> bool, s: seq<T>, k: nat)
    requires StrictOrder(lt) && k < |s| && Sorted(lt, s)
    ensures Sorted(lt, s[..k] + s[k + 1..])
    ensures forall q :: q in s[..k] + s[k + 1..] <==> q in s && q != s[k]
  {
  }

  lemma {:induction false} WithoutSorted(rs: seq<Retry>, r: Retry)
    requires Sorted(RetryBelow, rs)
    ensures Sorted(RetryBelow, Without(rs, r))
  {
    if rs != [] {
      WithoutSorted(rs[1..], r);
      assert forall x <- rs[1..] :: RetryBelow(rs[0], x);
    }
  }

  lemma {:induction false} WithoutPhaseSorted(fs: seq<Retry>, p: Phase)
    requires Sorted(FrontierBelow, fs)
    ensures Sorted(FrontierBelow, WithoutPhase(fs, p))
  {
    if fs != [] {
      WithoutPhaseSorted(fs[1..], p);
      assert forall x <- fs[1..] :: FrontierBelow(fs[0], x);
    }
  }

  lemma {:induction false} PhaseAtLeast(fs: seq<Retry>, i: nat)
    requires Sorted(FrontierBelow, fs) && i < |fs|
    ensures PhaseIndex(fs[i].phase) >= i
  {
    if i > 0 {
      PhaseAtLeast(fs, i - 1);
      assert FrontierBelow(fs[i - 1], fs[i]);
    }
  }

  /** Five phases leave room for five frontiers. */
  lemma FrontierCap(fs: seq<Retry>)
    requires Sorted(FrontierBelow, fs)
    ensures |fs| <= 5
  {
    if fs != [] { PhaseAtLeast(fs, |fs| - 1); }
  }

  lemma PhaseSearch(s: seq<Phase>, p: Phase)
    requires Sorted(PhaseBelow, s)
    ensures p in s <==> Position(PhaseBelow, s, p) < |s| && s[Position(PhaseBelow, s, p)] == p
  {
  }

  lemma SetFrontierSorted(fs: seq<Retry>, r: Retry)
    requires Sorted(FrontierBelow, fs)
    ensures Sorted(FrontierBelow, SetFrontier(fs, r))
    ensures forall x :: x in SetFrontier(fs, r) <==> x == r || (x in fs && x.phase != r.phase)
  {
    var i := Position(FrontierBelow, fs, r);
    if i < |fs| && fs[i].phase == r.phase {
      ReplaceFrontier(fs, i, r);
    } else {
      assert i < |fs| ==> FrontierBelow(r, fs[i]);
      assert forall j :: i < j < |fs| ==> FrontierBelow(fs[i], fs[j]);
      InsertAtSorted(FrontierBelow, fs, i, r);
      assert forall x <- fs :: x.phase != r.phase;
    }
  }

  lemma ReplaceFrontier(fs: seq<Retry>, i: nat, r: Retry)
    requires Sorted(FrontierBelow, fs) && i < |fs| && fs[i].phase == r.phase
    ensures Sorted(FrontierBelow, fs[i := r])
    ensures forall x :: x in fs[i := r] <==> x == r || (x in fs && x.phase != r.phase)
  {
    var t := fs[i := r];
    assert t[i] == r;
    forall x ensures x in t <==> x == r || (x in fs && x.phase != r.phase) {
      if x in fs && x.phase != r.phase {
        var j :| 0 <= j < |fs| && fs[j] == x;
        assert t[j] == x;
      }
    }
  }

  /** The frontier of a phase is the one listed. */
  lemma FrontierUnique(fs: seq<Retry>, r: Retry)
    requires Sorted(FrontierBelow, fs) && r in fs
    ensures FrontierOf(fs, r.phase) == Some(r)
  {
  }

  // ---------- Validity ----------

  lemma RememberEffect(l: Ledger, r: Retry)
    requires ValidLedger(l)
    ensures var n := Remember(l, r);
            && n.resume == l.resume && n.frontiers == l.frontiers
            && Sorted(RetryBelow, n.retries) && Sorted(PhaseBelow, n.overflow)
            && (if r in l.retries then n == l
                else if |l.retries| < MAX_RETRIES then
                  n.overflow == l.overflow && |n.retries| == |l.retries| + 1
                  && forall x :: x in n.retries <==> x in l.retries || x == r
                else n.retries == l.retries && forall q :: q in n.overflow <==> q in l.overflow || q == r.phase)
  {
    RetryBelowIsTotal();
    SearchExact(RetryBelow, l.retries, r);
    PhaseSearch(l.overflow, r.phase);
    if r !in l.retries { InsertSorted(RetryBelow, l.retries, r); }
    if r.phase !in l.overflow { InsertSorted(PhaseBelow, l.overflow, r.phase); }
  }

  /** Only a recorded non-canonical retry makes a valid ledger invalid. */
  lemma RememberValidExactly(l: Ledger, r: Retry)
    requires ValidLedger(l)
    ensures ValidLedger(Remember(l, r)) <==> CanonicalRetry(r) || |l.retries| == MAX_RETRIES
  {
    RememberEffect(l, r);
  }

  lemma PrepareEffect(l: Ledger, p: Phase)
    requires ValidLedger(l)
    ensures ValidLedger(Prepare(l, p))
    ensures var n := Prepare(l, p);
            && n.retries == l.retries && n.frontiers == l.frontiers
            && (forall q :: q in n.overflow <==> q in l.overflow && q != p)
            && n.resume == (if p in l.overflow then l.resume - {p} else l.resume)
  {
    PhaseSearch(l.overflow, p);
    var k := Position(PhaseBelow, l.overflow, p);
    if p in l.overflow { RemoveAtSorted(PhaseBelow, l.overflow, k); }
  }

  lemma AdvanceEffect(l: Ledger, r: Retry)
    requires ValidLedger(l) && CanonicalRetry(r)
    ensures ValidLedger(Advance(l, r))
    ensures forall q ::
              FrontierOf(Advance(l, r).frontiers, q) == if q == r.phase then Some(r) else FrontierOf(l.frontiers, q)
  {
    SetFrontierSorted(l.frontiers, r);
    var fs := SetFrontier(l.frontiers, r);
    FrontierCap(fs);
    forall q ensures FrontierOf(fs, q) == if q == r.phase then Some(r) else FrontierOf(l.frontiers, q) {
      if q == r.phase {
        FrontierUnique(fs, r);
      } else {
        SameFrontier(l.frontiers, fs, q);
      }
    }
  }

  lemma SameFrontier(fs: seq<Retry>, gs: seq<Retry>, q: Phase)
    requires Sorted(FrontierBelow, fs) && Sorted(FrontierBelow, gs)
    requires forall x: Retry :: x.phase == q ==> (x in fs <==> x in gs)
    ensures FrontierOf(fs, q) == FrontierOf(gs, q)
  {
  }

  lemma DropEffect(l: Ledger, p: Phase)
    requires ValidLedger(l)
    ensures ValidLedger(DropFrontier(l, p))
    ensures forall q :: FrontierOf(DropFrontier(l, p).frontiers, q) == if q == p then None else FrontierOf(l.frontiers, q)
  {
    WithoutPhaseSorted(l.frontiers, p);
    var fs := WithoutPhase(l.frontiers, p);
    forall q ensures FrontierOf(fs, q) == if q == p then None else FrontierOf(l.frontiers, q) {
      if q != p { SameFrontier(l.frontiers, fs, q); }
    }
  }

  lemma ResolveEffect(l: Ledger, r: Retry)
    requires ValidLedger(l) && CanonicalRetry(r)
    ensures ValidLedger(Resolve(l, r))
    ensures var n := Resolve(l, r);
            && n.overflow == l.overflow && n.resume == l.resume - {r.phase}
            && (forall x :: x in n.retries <==> x in l.retries && x != r)
            && forall q :: FrontierOf(n.frontiers, q) ==
                 if q != r.phase then FrontierOf(l.frontiers, q)
                 else if AnyOfPhase(n.retries, q) then Some(r) else None
  {
    WithoutSorted(l.retries, r);
    var kept := ClearResume(l.(retries := Without(l.retries, r)), r.phase);
    assert ValidLedger(kept);
    AdvanceEffect(kept, r);
    DropEffect(kept, r.phase);
  }

  lemma BeginPhaseValid(l: Ledger, p: Phase, env: Environment)
    requires ValidLedger(l)
    ensures ValidLedger(BeginPhase(l, p, env))
  {
    PrepareEffect(l, p);
    var l1 := Prepare(l, p);
    if Next(l1, p).None? {
      DropEffect(l1, p);
    } else {
      NextIsPending(l1, p);
      var r := Next(l1, p).value;
      match AttemptOutcome(env, r) {
        case Interrupted =>
        case Failed => AdvanceEffect(l1, r);
        case Resolved => ResolveEffect(l1, r);
      }
    }
  }

  lemma ApplyValid(l: Ledger, s: Step)
    requires ValidLedger(l) && Admissible(s)
    ensures ValidLedger(Apply(l, s))
  {
    match s {
      case NewFailure(r) => RememberValidExactly(l, r);
      case Start(p, env) => BeginPhaseValid(l, p, env);
      case _ =>
    }
  }

  /** Every state a run reaches would be accepted when read back from disk. */
  lemma {:induction false} RunValid(l: Ledger, steps: seq<Step>)
    requires ValidLedger(l) && forall s <- steps :: Admissible(s)
    ensures ValidLedger(Run(l, steps))
    decreases |steps|
  {
    if steps != [] {
      ApplyValid(l, steps[0]);
      RunValid(Apply(l, steps[0]), steps[1..]);
    }
  }

  // ---------- Nothing is lost ----------

  /** A prefix of a run, seen from after its first step. */
  lemma RunPrefix(l: Ledger, steps: seq<Step>, k: nat)
    requires k < |steps|
    ensures Run(l, steps[..k + 1]) == Run(Apply(l, steps[0]), steps[1..][..k])
  {
    assert steps[..k + 1][0] == steps[0] && steps[..k + 1][1..] == steps[1..][..k];
  }

  /** The retry an attempt of phase `p` takes, and how it ends. */
  function Attempted(l: Ledger, s: Step): Option<Retry> {
    if s.Start? then Next(l, s.phase) else None
  }

  predicate Completes(l: Ledger, s: Step) {
    Attempted(l, s).Some? && !AttemptOutcome(s.env, Attempted(l, s).value).Interrupted?
  }

  predicate Resolves(l: Ledger, s: Step, r: Retry) {
    Attempted(l, s) == Some(r) && AttemptOutcome(s.env, r).Resolved?
  }

  lemma NextUnprepared(l: Ledger, p: Phase)
    requires ValidLedger(l)
    ensures Next(Prepare(l, p), p) == Next(l, p)
  {
  }

  /** What starting a phase does to the ledger, attempt by attempt. */
  lemma StartEffect(l: Ledger, p: Phase, env: Environment)
    requires ValidLedger(l)
    ensures var n := BeginPhase(l, p, env);
            match Next(l, p)
            case None => n.retries == l.retries
            case Some(r) =>
              match AttemptOutcome(env, r)
              case Resolved => forall x :: x in n.retries <==> x in l.retries && x != r
              case _ => n.retries == l.retries
    ensures forall q :: q in BeginPhase(l, p, env).overflow <==> q in l.overflow && q != p
    ensures p in l.overflow ==> p !in BeginPhase(l, p, env).resume
  {
    PrepareEffect(l, p);
    NextUnprepared(l, p);
    var l1 := Prepare(l, p);
    if Next(l1, p).Some? {
      NextIsPending(l1, p);
      ResolveEffect(l1, Next(l1, p).value);
    }
  }

  /** A failure is either listed or, in a full ledger, its phase is flagged. */
  lemma FailureIsRecorded(l: Ledger, r: Retry)
    requires ValidLedger(l)
    ensures r in Remember(l, r).retries || r.phase in Remember(l, r).overflow
    ensures r !in Remember(l, r).retries ==> |l.retries| == MAX_RETRIES
  {
  }

  /** A listed retry stays listed until an attempt of its own resolves it. */
  lemma {:induction false} ListedUntilResolved(l: Ledger, steps: seq<Step>, r: Retry)
    requires ValidLedger(l) && (forall s <- steps :: Admissible(s)) && r in l.retries
    ensures r in Run(l, steps).retries
         || exists k :: 0 <= k < |steps| && Resolves(Run(l, steps[..k]), steps[k], r)
    decreases |steps|
  {
    if steps != [] {
      assert steps[..0] == [];
      if !Resolves(l, steps[0], r) {
        var next := Apply(l, steps[0]);
        StepKeepsListed(l, steps[0], r);
        ApplyValid(l, steps[0]);
        ListedUntilResolved(next, steps[1..], r);
        if k :| 0 <= k < |steps[1..]| && Resolves(Run(next, steps[1..][..k]), steps[1..][k], r) {
          RunPrefix(l, steps, k);
          assert Resolves(Run(l, steps[..k + 1]), steps[k + 1], r);
        }
      } else {
        assert Resolves(Run(l, steps[..0]), steps[0], r);
      }
    }
  }

  lemma StepKeepsListed(l: Ledger, s: Step, r: Retry)
    requires ValidLedger(l) && r in l.retries && !Resolves(l, s, r)
    ensures r in Apply(l, s).retries
  {
    match s {
      case NewFailure(x) => RememberEffect(l, x);
      case Start(p, env) => StartEffect(l, p, env);
      case _ =>
    }
  }

  /** The step starts phase `p` while it is flagged, and the scan starts over. */
  ghost predicate Restarts(l: Ledger, s: Step, p: Phase) {
    s.Start? && s.phase == p && p in l.overflow && p !in Apply(l, s).resume
  }

  /** A flagged phase stays flagged until it starts, and then it starts over. */
  lemma {:induction false} FlaggedUntilRestart(l: Ledger, steps: seq<Step>, p: Phase)
    requires ValidLedger(l) && (forall s <- steps :: Admissible(s)) && p in l.overflow
    ensures p in Run(l, steps).overflow
         || exists k :: 0 <= k < |steps| && Restarts(Run(l, steps[..k]), steps[k], p)
    decreases |steps|
  {
    if steps != [] {
      assert steps[..0] == [];
      if steps[0].Start? && steps[0].phase == p {
        StartEffect(l, p, steps[0].env);
        assert Restarts(Run(l, steps[..0]), steps[0], p);
      } else {
        var next := Apply(l, steps[0]);
        StepKeepsFlag(l, steps[0], p);
        ApplyValid(l, steps[0]);
        FlaggedUntilRestart(next, steps[1..], p);
        if k :| 0 <= k < |steps[1..]| && Restarts(Run(next, steps[1..][..k]), steps[1..][k], p) {
          RunPrefix(l, steps, k);
          assert Restarts(Run(l, steps[..k + 1]), steps[k + 1], p);
        }
      }
    }
  }

  lemma StepKeepsFlag(l: Ledger, s: Step, p: Phase)
    requires ValidLedger(l) && p in l.overflow && !(s.Start? && s.phase == p)
    ensures p in Apply(l, s).overflow
  {
    match s {
      case NewFailure(x) => RememberEffect(l, x);
      case Start(q, env) => StartEffect(l, q, env);
      case _ =>
    }
  }
}
