/**
 Round robin: attempts of a phase take its pending retries in cyclic order, and
 nothing but a new failure ahead of a retry delays it.
 */
module RetryFairness {
  import opened Common
  import opened LexOrder
  import opened RetryLedger
  import opened RetryProofs

  function Pending(l: Ledger, p: Phase): set<Retry> {
    set r | r in l.retries && r.phase == p
  }

  function Frontier(l: Ledger, p: Phase): Option<Retry> {
    FrontierOf(l.frontiers, p)
  }

  /** Cyclic order from just behind `f`: what lies beyond `f` first, then the rest. */
  predicate CyclicBelow(f: Option<Retry>, x: Retry, y: Retry) {
    if Beyond(f, x) == Beyond(f, y) then RetryBelow(x, y) else Beyond(f, x)
  }

  /** `n` comes first among `s`. */
  ghost predicate Least(f: Option<Retry>, s: set<Retry>, n: Retry) {
    n in s && forall x <- s :: x == n || CyclicBelow(f, n, x)
  }

  // ---------- What an attempt takes ----------

  lemma {:induction false} FirstIsLeast(rs: seq<Retry>, p: Phase, f: Option<Retry>)
    requires Sorted(RetryBelow, rs)
    ensures match FirstBeyond(rs, p, f)
            case None => forall x <- rs :: x.phase == p ==> !Beyond(f, x)
            case Some(n) =>
              && n in rs && n.phase == p && Beyond(f, n)
              && forall x <- rs :: x.phase == p && Beyond(f, x) ==> x == n || RetryBelow(n, x)
  {
    if rs != [] {
      FirstIsLeast(rs[1..], p, f);
      assert forall x <- rs[1..] :: RetryBelow(rs[0], x);
    }
  }

  /** The attempt takes the first pending retry in cyclic order, if there is one. */
  lemma NextIsLeast(l: Ledger, p: Phase)
    requires ValidLedger(l)
    ensures match Next(l, p)
            case None => Pending(l, p) == {}
            case Some(n) => Least(Frontier(l, p), Pending(l, p), n)
  {
    FirstIsLeast(l.retries, p, Frontier(l, p));
    FirstIsLeast(l.retries, p, None);
  }

  // ---------- Turning the cycle by one ----------

  /** Moving the frontier to the first retry puts it last and keeps the others in order. */
  lemma Rotate(f: Option<Retry>, s: set<Retry>, n: Retry, x: Retry, y: Retry)
    requires Least(f, s, n) && x in s && y in s && x != n
    ensures y == n ==> CyclicBelow(Some(n), x, y)
    ensures y != n ==> (CyclicBelow(Some(n), x, y) <==> CyclicBelow(f, x, y))
  {
    RetryBelowIsTotal();
  }

  /** A retry of phase `r.phase` is settled: the pending set and the frontier of phase `q`. */
  lemma SettleTurns(l: Ledger, r: Retry, o: Outcome, q: Phase)
    requires ValidLedger(l) && CanonicalRetry(r)
    ensures var n := Settle(l, r, o);
            if q != r.phase || o.Interrupted? then
              Pending(n, q) == Pending(l, q) && Frontier(n, q) == Frontier(l, q)
            else if o.Failed? then
              Pending(n, q) == Pending(l, q) && Frontier(n, q) == Some(r)
            else
              && Pending(n, q) == Pending(l, q) - {r}
              && Frontier(n, q) == if Pending(n, q) == {} then None else Some(r)
  {
    match o {
      case Interrupted =>
      case Failed => AdvanceEffect(l, r);
      case Resolved => ResolveTurns(l, r, Resolve(l, r), q);
    }
  }

  lemma ResolveTurns(l: Ledger, r: Retry, n: Ledger, q: Phase)
    requires ValidLedger(l) && CanonicalRetry(r) && n == Resolve(l, r)
    ensures if q != r.phase then Pending(n, q) == Pending(l, q) && Frontier(n, q) == Frontier(l, q)
            else
              && Pending(n, q) == Pending(l, q) - {r}
              && Frontier(n, q) == if Pending(n, q) == {} then None else Some(r)
  {
    ResolveEffect(l, r);
    AnyIsPending(n, q);
  }

  lemma AnyIsPending(l: Ledger, p: Phase)
    ensures AnyOfPhase(l.retries, p) <==> Pending(l, p) != {}
  {
    if x :| x in l.retries && x.phase == p { assert x in Pending(l, p); }
    if Pending(l, p) != {} { var x :| x in Pending(l, p); }
  }

  /** An attempt that completes: the pending set and the frontier of its phase. */
  lemma CompletedTurns(l: Ledger, p: Phase, env: Environment)
    requires ValidLedger(l) && Completes(l, Start(p, env))
    ensures var n := BeginPhase(l, p, env);
            var r := Next(l, p).value;
            && Frontier(n, p) == (if Pending(n, p) == {} then None else Some(r))
            && Pending(n, p) == (if AttemptOutcome(env, r).Failed? then Pending(l, p) else Pending(l, p) - {r})
  {
    var l1 := Prepared(l, p, env);
    var r := Next(l, p).value;
    NextIsPending(l, p);
    assert Pending(l1, p) == Pending(l, p) && r in Pending(l, p);
    SettleTurns(l1, r, AttemptOutcome(env, r), p);
  }

  /** Anything else a phase start does leaves the phase `q` as it was. */
  lemma OtherTurns(l: Ledger, p: Phase, env: Environment, q: Phase)
    requires ValidLedger(l) && (q != p || !Completes(l, Start(p, env)))
    ensures var n := BeginPhase(l, p, env);
            && Pending(n, q) == Pending(l, q)
            && (q != p || Next(l, p).Some? ==> Frontier(n, q) == Frontier(l, q))
  {
    var l1 := Prepared(l, p, env);
    assert Pending(l1, q) == Pending(l, q);
    if Next(l, p).Some? {
      NextIsPending(l, p);
      SettleTurns(l1, Next(l, p).value, AttemptOutcome(env, Next(l, p).value), q);
    }
  }

  lemma Prepared(l: Ledger, p: Phase, env: Environment) returns (l1: Ledger)
    requires ValidLedger(l)
    ensures ValidLedger(l1) && l1.retries == l.retries && l1.frontiers == l.frontiers
    ensures match Next(l, p)
            case None =>
              var n := BeginPhase(l, p, env);
              n.retries == l.retries && forall q :: q != p ==> Frontier(n, q) == Frontier(l, q)
            case Some(r) => BeginPhase(l, p, env) == Settle(l1, r, AttemptOutcome(env, r))
  {
    PrepareEffect(l, p);
    NextUnprepared(l, p);
    l1 := Prepare(l, p);
    if Next(l, p).None? { DropEffect(l1, p); }
  }

  // ---------- Any run at all ----------

  /** The pending retries that come before `r`. */
  function Ahead(l: Ledger, r: Retry): set<Retry> {
    set x | x in Pending(l, r.phase) && CyclicBelow(Frontier(l, r.phase), x, r)
  }

  /** The step lists a new failure ahead of `r`. */
  predicate PushesBack(l: Ledger, s: Step, r: Retry) {
    && s.NewFailure? && s.retry.phase == r.phase
    && s.retry !in l.retries && |l.retries| < MAX_RETRIES
    && CyclicBelow(Frontier(l, r.phase), s.retry, r)
  }

  /** The step completes an attempt in the phase of `r`. */
  predicate Turn(l: Ledger, s: Step, r: Retry) {
    s.Start? && s.phase == r.phase && Completes(l, s)
  }

  /** The step completes an attempt of `r` itself. */
  predicate OwnTurn(l: Ledger, s: Step, r: Retry) {
    Turn(l, s, r) && Attempted(l, s) == Some(r)
  }

  predicate OwnTurnAt(l: Ledger, steps: seq<Step>, k: nat, r: Retry)
    requires k < |steps|
  {
    OwnTurn(Run(l, steps[..k]), steps[k], r)
  }

  function Turns(l: Ledger, steps: seq<Step>, r: Retry): nat
    decreases |steps|
  {
    if steps == [] then 0
    else (if Turn(l, steps[0], r) then 1 else 0) + Turns(Apply(l, steps[0]), steps[1..], r)
  }

  function PushBacks(l: Ledger, steps: seq<Step>, r: Retry): nat
    decreases |steps|
  {
    if steps == [] then 0
    else (if PushesBack(l, steps[0], r) then 1 else 0) + PushBacks(Apply(l, steps[0]), steps[1..], r)
  }

  lemma StartAdvances(l: Ledger, p: Phase, env: Environment, r: Retry)
    requires ValidLedger(l) && r in l.retries && !OwnTurn(l, Start(p, env), r)
    ensures var n := BeginPhase(l, p, env);
            && r in n.retries
            && |Ahead(n, r)| == |Ahead(l, r)| - if Turn(l, Start(p, env), r) then 1 else 0
  {
    var n := BeginPhase(l, p, env);
    assert r in Pending(l, r.phase);
    NextIsLeast(l, p);
    if Turn(l, Start(p, env), r) {
      CompletedTurns(l, p, env);
      assert r in Pending(n, p);
      FirstLeavesFront(l, n, Next(l, p).value, r);
    } else {
      OtherTurns(l, p, env, r.phase);
      assert r in Pending(n, r.phase);
      assert Ahead(n, r) == Ahead(l, r);
    }
  }

  /** When the frontier moves to the first retry, it no longer comes before the others. */
  lemma FirstLeavesFront(l: Ledger, n: Ledger, first: Retry, r: Retry)
    requires Least(Frontier(l, r.phase), Pending(l, r.phase), first) && r in Pending(l, r.phase) && r != first
    requires Frontier(n, r.phase) == Some(first)
    requires Pending(n, r.phase) == Pending(l, r.phase) || Pending(n, r.phase) == Pending(l, r.phase) - {first}
    ensures |Ahead(n, r)| == |Ahead(l, r)| - 1
  {
    var p := r.phase;
    forall x | x in Pending(n, p)
      ensures x in Ahead(n, r) <==> x in Ahead(l, r) && x != first
    {
      RetryBelowIsTotal();
      if x != first { Rotate(Frontier(l, p), Pending(l, p), first, x, r); }
    }
    assert Ahead(n, r) == Ahead(l, r) - {first};
  }

  lemma FailurePushesBack(l: Ledger, x: Retry, r: Retry)
    requires ValidLedger(l) && r in l.retries
    ensures var n := Remember(l, x);
            && r in n.retries
            && |Ahead(n, r)| == |Ahead(l, r)| + if PushesBack(l, NewFailure(x), r) then 1 else 0
  {
    RememberEffect(l, x);
    ListedAhead(l, Remember(l, x), x, r);
  }

  lemma ListedAhead(l: Ledger, n: Ledger, x: Retry, r: Retry)
    requires n.frontiers == l.frontiers && r in l.retries
    requires if x in l.retries || |l.retries| >= MAX_RETRIES then n.retries == l.retries
             else forall y :: y in n.retries <==> y in l.retries || y == x
    ensures r in n.retries
    ensures |Ahead(n, r)| == |Ahead(l, r)| + if PushesBack(l, NewFailure(x), r) then 1 else 0
  {
    var p := r.phase;
    if x !in l.retries && |l.retries| < MAX_RETRIES && x.phase == p {
      assert Pending(n, p) == Pending(l, p) + {x};
      OneMoreAhead(l, n, x, r);
    } else {
      assert Pending(n, p) == Pending(l, p);
      assert Ahead(n, r) == Ahead(l, r);
    }
  }

  lemma OneMoreAhead(l: Ledger, n: Ledger, x: Retry, r: Retry)
    requires n.frontiers == l.frontiers && x !in Pending(l, r.phase)
    requires Pending(n, r.phase) == Pending(l, r.phase) + {x}
    ensures |Ahead(n, r)| == |Ahead(l, r)| + if CyclicBelow(Frontier(l, r.phase), x, r) then 1 else 0
  {
    if CyclicBelow(Frontier(l, r.phase), x, r) {
      assert Ahead(n, r) == Ahead(l, r) + {x};
    } else {
      assert Ahead(n, r) == Ahead(l, r);
    }
  }

  /**
   Until `r` gets its own turn, every turn of its phase brings it one closer and
   only new failures ahead of it push it back.
   */
  lemma {:induction false} TurnsBringCloser(l: Ledger, steps: seq<Step>, r: Retry)
    requires ValidLedger(l) && (forall s <- steps :: Admissible(s)) && r in l.retries
    ensures || (exists k :: 0 <= k < |steps| && OwnTurnAt(l, steps, k, r))
            || (r in Run(l, steps).retries
                && Turns(l, steps, r) + |Ahead(Run(l, steps), r)| == |Ahead(l, r)| + PushBacks(l, steps, r))
    decreases |steps|
  {
    if steps != [] {
      OwnTurnShift(l, steps, 0, r);
      if !OwnTurn(l, steps[0], r) {
        var next := Apply(l, steps[0]);
        ApplyValid(l, steps[0]);
        StepMoves(l, steps[0], r);
        TurnsBringCloser(next, steps[1..], r);
        if k :| 0 <= k < |steps[1..]| && OwnTurnAt(next, steps[1..], k, r) { OwnTurnShift(l, steps, k + 1, r); }
      }
    }
  }

  lemma StepMoves(l: Ledger, s: Step, r: Retry)
    requires ValidLedger(l) && r in l.retries && !OwnTurn(l, s, r)
    ensures r in Apply(l, s).retries
    ensures |Ahead(Apply(l, s), r)| + (if Turn(l, s, r) then 1 else 0)
         == |Ahead(l, r)| + if PushesBack(l, s, r) then 1 else 0
  {
    match s {
      case NewFailure(x) => FailurePushesBack(l, x, r);
      case Start(p, env) => StartAdvances(l, p, env, r);
      case SaveResume(_, _) => assert Ahead(Apply(l, s), r) == Ahead(l, r);
      case FinishScan(_) => assert Ahead(Apply(l, s), r) == Ahead(l, r);
    }
  }

  /** A failure at or behind the frontier does not delay what is still beyond it. */
  lemma BehindFrontierDoesNotDelay(l: Ledger, x: Retry, r: Retry)
    requires ValidLedger(l) && r in l.retries && x.phase == r.phase
    requires Beyond(Frontier(l, r.phase), r) && !Beyond(Frontier(l, r.phase), x)
    ensures |Ahead(Remember(l, x), r)| == |Ahead(l, r)|
  {
    FailurePushesBack(l, x, r);
  }

  /** A list that covers a set is at least as long. */
  lemma {:induction false} ListedSize(s: set<Retry>, list: seq<Retry>)
    requires forall x <- s :: x in list
    ensures |s| <= |list|
    decreases |list|
  {
    if s != {} {
      var x := list[0];
      ListedSize(s - {x}, list[1..]);
      assert s <= (s - {x}) + {x};
    }
  }

  lemma AheadIsSmaller(l: Ledger, r: Retry)
    requires r in l.retries
    ensures |Ahead(l, r)| < |Pending(l, r.phase)| <= |l.retries|
  {
    RetryBelowIsTotal();
    SubsetSize(Ahead(l, r), Pending(l, r.phase) - {r});
    ListedSize(Pending(l, r.phase), l.retries);
  }

  lemma {:induction false} SubsetSize(s: set<Retry>, t: set<Retry>)
    requires s <= t
    ensures |s| <= |t|
    decreases t
  {
    if x :| x in s { SubsetSize(s - {x}, t - {x}); }
  }

  /** Turns for all that are pending, and one for each failure listed ahead, include one for `r`. */
  lemma TurnComes(l: Ledger, steps: seq<Step>, r: Retry)
    requires ValidLedger(l) && (forall s <- steps :: Admissible(s)) && r in l.retries
    requires Turns(l, steps, r) >= |Pending(l, r.phase)| + PushBacks(l, steps, r)
    ensures exists k :: 0 <= k < |steps| && OwnTurnAt(l, steps, k, r)
  {
    TurnsBringCloser(l, steps, r);
    AheadIsSmaller(l, r);
  }

  // ---------- A whole round ----------

  /** The step lists a retry of phase `p` that was not listed. */
  predicate Lists(l: Ledger, s: Step, p: Phase) {
    s.NewFailure? && s.retry.phase == p && s.retry !in l.retries && |l.retries| < MAX_RETRIES
  }

  predicate ListsNone(l: Ledger, steps: seq<Step>, p: Phase)
    decreases |steps|
  {
    steps == [] || (!Lists(l, steps[0], p) && ListsNone(Apply(l, steps[0]), steps[1..], p))
  }

  function OwnTurns(l: Ledger, steps: seq<Step>, r: Retry): nat
    decreases |steps|
  {
    if steps == [] then 0
    else (if OwnTurn(l, steps[0], r) then 1 else 0) + OwnTurns(Apply(l, steps[0]), steps[1..], r)
  }

  lemma {:induction false} NothingPushesBack(l: Ledger, steps: seq<Step>, r: Retry)
    requires ListsNone(l, steps, r.phase)
    ensures PushBacks(l, steps, r) == 0
    decreases |steps|
  {
    if steps != [] { NothingPushesBack(Apply(l, steps[0]), steps[1..], r); }
  }

  /** What is not listed and not listed anew gets no turn. */
  lemma {:induction false} UnlistedGetsNoTurn(l: Ledger, steps: seq<Step>, r: Retry)
    requires ValidLedger(l) && (forall s <- steps :: Admissible(s))
    requires r !in l.retries && ListsNone(l, steps, r.phase)
    ensures OwnTurns(l, steps, r) == 0
    decreases |steps|
  {
    if steps != [] {
      var s := steps[0];
      match s {
        case NewFailure(x) => RememberEffect(l, x);
        case Start(p, env) =>
          StartEffect(l, p, env);
          NextIsLeast(l, p);
        case _ =>
      }
      ApplyValid(l, s);
      UnlistedGetsNoTurn(Apply(l, s), steps[1..], r);
    }
  }

  /** Without new listings a step removes at most the retry whose turn it is. */
  lemma StepPending(l: Ledger, s: Step, p: Phase)
    requires ValidLedger(l) && !Lists(l, s, p)
    ensures Pending(Apply(l, s), p) == Pending(l, p)
         || (s.Start? && s.phase == p && Completes(l, s)
             && Pending(Apply(l, s), p) == Pending(l, p) - {Next(l, p).value})
  {
    match s {
      case NewFailure(x) =>
        RememberEffect(l, x);
        assert Pending(Apply(l, s), p) == Pending(l, p);
      case Start(q, env) =>
        if q == p && Completes(l, s) { CompletedTurns(l, p, env); } else { OtherTurns(l, q, env, p); }
      case _ =>
    }
  }

  /** After its own turn a retry is gone or behind all others. */
  lemma OwnTurnPutsLast(l: Ledger, s: Step, r: Retry)
    requires ValidLedger(l) && r in l.retries && OwnTurn(l, s, r)
    ensures |Ahead(l, r)| == 0
    ensures var n := Apply(l, s);
            r !in n.retries || (Pending(n, r.phase) == Pending(l, r.phase)
                                && |Ahead(n, r)| == |Pending(l, r.phase)| - 1)
  {
    var p, n := r.phase, Apply(l, s);
    NextIsLeast(l, p);
    RetryBelowIsTotal();
    assert Ahead(l, r) == {};
    CompletedTurns(l, p, s.env);
    if r in n.retries {
      assert r in Pending(n, p);
      assert Ahead(n, r) == Pending(n, p) - {r};
    }
  }

  /**
   In any run that lists no new retry of the phase, with at most as many turns as
   retries are pending, a retry gets one turn if fewer are ahead of it than there
   are turns, and none otherwise.
   */
  lemma {:induction false} RoundRobin(l: Ledger, steps: seq<Step>, r: Retry)
    requires ValidLedger(l) && (forall s <- steps :: Admissible(s)) && r in l.retries
    requires ListsNone(l, steps, r.phase) && Turns(l, steps, r) <= |Pending(l, r.phase)|
    ensures OwnTurns(l, steps, r) == if |Ahead(l, r)| < Turns(l, steps, r) then 1 else 0
    decreases |steps|
  {
    if steps != [] {
      var s, n := steps[0], Apply(l, steps[0]);
      ApplyValid(l, s);
      StepPending(l, s, r.phase);
      if OwnTurn(l, s, r) {
        OwnTurnPutsLast(l, s, r);
        if r in n.retries { RoundRobin(n, steps[1..], r); } else { UnlistedGetsNoTurn(n, steps[1..], r); }
      } else {
        StepMoves(l, s, r);
        NextIsLeast(l, r.phase);
        RoundRobin(n, steps[1..], r);
      }
    }
  }

  /** One turn counted is one step of the run. */
  lemma {:induction false} CountedOnce(l: Ledger, steps: seq<Step>, r: Retry) returns (k: nat)
    requires OwnTurns(l, steps, r) <= 1
    ensures OwnTurns(l, steps, r) == 0 ==> forall j :: 0 <= j < |steps| ==> !OwnTurnAt(l, steps, j, r)
    ensures OwnTurns(l, steps, r) == 1 ==>
              && k < |steps| && OwnTurnAt(l, steps, k, r)
              && forall j :: 0 <= j < |steps| && OwnTurnAt(l, steps, j, r) ==> j == k
    decreases |steps|
  {
    k := 0;
    if steps != [] {
      var rest := CountedOnce(Apply(l, steps[0]), steps[1..], r);
      k := if OwnTurn(l, steps[0], r) then 0 else rest + 1;
      forall j | 0 <= j < |steps|
        ensures OwnTurnAt(l, steps, j, r)
           <==> if j == 0 then OwnTurn(l, steps[0], r) else OwnTurnAt(Apply(l, steps[0]), steps[1..], j - 1, r)
      {
        OwnTurnShift(l, steps, j, r);
      }
    }
  }

  lemma OwnTurnShift(l: Ledger, steps: seq<Step>, k: nat, r: Retry)
    requires k < |steps|
    ensures OwnTurnAt(l, steps, k, r)
       <==> if k == 0 then OwnTurn(l, steps[0], r) else OwnTurnAt(Apply(l, steps[0]), steps[1..], k - 1, r)
  {
    if k == 0 { assert steps[..0] == []; } else { RunPrefix(l, steps, k - 1); }
  }

  /**
   A full round: over any run that lists no new retry of the phase and has as many
   completed attempts of it as retries are pending, whatever else happens between
   them, each pending retry has exactly one turn.
   */
  lemma FullRound(l: Ledger, steps: seq<Step>, r: Retry) returns (k: nat)
    requires ValidLedger(l) && (forall s <- steps :: Admissible(s)) && r in l.retries
    requires ListsNone(l, steps, r.phase) && Turns(l, steps, r) == |Pending(l, r.phase)|
    ensures k < |steps| && OwnTurnAt(l, steps, k, r)
    ensures forall j :: 0 <= j < |steps| && OwnTurnAt(l, steps, j, r) ==> j == k
    ensures Turns(l, steps[..k], r) == |Ahead(l, r)|
  {
    RoundRobin(l, steps, r);
    AheadIsSmaller(l, r);
    k := CountedOnce(l, steps, r);
    var before := steps[..k];
    forall j | 0 <= j < k ensures !OwnTurnAt(l, before, j, r) { TurnInPrefix(l, steps, before, k, j, r); }
    ListsNonePrefix(l, steps, k, r.phase);
    FirstTurnInOrder(l, before, steps[k], r);
  }

  lemma TurnInPrefix(l: Ledger, steps: seq<Step>, before: seq<Step>, k: nat, j: nat, r: Retry)
    requires j < k <= |steps| && before == steps[..k]
    ensures OwnTurnAt(l, before, j, r) == OwnTurnAt(l, steps, j, r)
  {
    assert before[..j] == steps[..j];
  }

  /** A first turn comes after the turns of exactly those that were ahead. */
  lemma FirstTurnInOrder(l: Ledger, before: seq<Step>, s: Step, r: Retry)
    requires ValidLedger(l) && (forall s <- before :: Admissible(s)) && r in l.retries
    requires ListsNone(l, before, r.phase) && OwnTurn(Run(l, before), s, r)
    requires forall j :: 0 <= j < |before| ==> !OwnTurnAt(l, before, j, r)
    ensures Turns(l, before, r) == |Ahead(l, r)|
  {
    TurnsBringCloser(l, before, r);
    NothingPushesBack(l, before, r);
    RunValid(l, before);
    OwnTurnPutsLast(Run(l, before), s, r);
  }

  lemma {:induction false} ListsNonePrefix(l: Ledger, steps: seq<Step>, k: nat, p: Phase)
    requires k <= |steps| && ListsNone(l, steps, p)
    ensures ListsNone(l, steps[..k], p)
    decreases k
  {
    if k > 0 {
      ListsNonePrefix(Apply(l, steps[0]), steps[1..], k - 1, p);
      assert steps[..k][1..] == steps[1..][..k - 1];
    }
  }
}
