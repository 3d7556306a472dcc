/** What holds of every run of the job protocol, from an empty queue on. */
module JobTheorems {
  import opened Common
  import opened StateMachine
  import opened JobProtocol

  ghost predicate Reachable(w: World) {
    exists actions :: FreshRun(EMPTY_WORLD, actions) && w == Run(EMPTY_WORLD, actions)
  }

  lemma ReachableInv(w: World)
    requires Reachable(w)
    ensures Inv(w)
  {
    var actions :| FreshRun(EMPTY_WORLD, actions) && w == Run(EMPTY_WORLD, actions);
    RunKeeps(EMPTY_WORLD, actions);
  }

  // ---------- One winner ----------

  /** A job never has two visible names. */
  lemma OneNamePerJob(w: World, n: JobName, m: JobName)
    requires Reachable(w) && n in w.names && m in w.names && n.common.jobId == m.common.jobId
    ensures n == m
  {
    ReachableInv(w);
  }

  lemma {:induction false} StepsGrow(h: seq<Event>, i: nat, k: nat, j: JobId)
    requires i < k <= |h| && h[i].job == j
    ensures Steps(h[..i], j) < Steps(h[..k], j)
  {
    assert h[..k][..k - 1] == h[..k - 1];
    if k - 1 > i { StepsGrow(h, i, k - 1, j); }
  }

  /** No generation of a job is left twice, and generations are left in order. */
  lemma OneWinnerPerGeneration(w: World, i: nat, k: nat)
    requires Reachable(w) && i < k < |w.history| && w.history[i].job == w.history[k].job
    ensures w.history[i].generation < w.history[k].generation
  {
    ReachableInv(w);
    assert EventInv(w, i) && EventInv(w, k);
    StepsGrow(w.history, i, k, w.history[i].job);
  }

  /** A move never finds its destination taken: it takes effect exactly when its source is there. */
  lemma DestinationIsFree(w: World, op: Operation, handle: JobName, detail: seq<byte>)
    requires Reachable(w) && Destination(op, handle, detail).Some?
    ensures handle in w.names ==> Destination(op, handle, detail).value !in w.names
    ensures Act(w, Move(op, handle, detail)) != w <==> handle in w.names
  {
    ReachableInv(w);
    if handle in w.names {
      assert NameInv(w, handle);
      MoveFollows(op, handle, detail);
      assert |Act(w, Move(op, handle, detail)).history| == |w.history| + 1;
    }
  }

  // ---------- Stale handles ----------

  /** The job has moved past this generation, or has no name any more. */
  ghost predicate Stale(w: World, n: JobName) {
    var j := n.common.jobId;
    && j in w.published
    && (n.common.generation < Steps(w.history, j) || forall m :: m in w.names ==> m.common.jobId != j)
  }

  /** The action names `n` as its source. */
  predicate Uses(a: Action, n: JobName) {
    match a
    case Publish(_, _) => false
    case Move(_, handle, _) => handle == n
    case SetAside(handle, _) => handle == n
    case Delete(handle) => handle == n
  }

  lemma StaleIsAbsent(w: World, n: JobName)
    requires Inv(w) && Stale(w, n)
    ensures n !in w.names
  {
  }

  lemma StaleStays(w: World, a: Action, n: JobName)
    requires Inv(w) && Fresh(w, a) && Stale(w, n)
    ensures Stale(Act(w, a), n)
  {
  }

  function CauseOf(a: Action): Cause
    requires !a.Publish?
  {
    if a.Move? then Moved(a.op) else if a.SetAside? then Moved(Quarantine) else Deleted
  }

  lemma LeavingMakesStale(w: World, a: Action, n: JobName)
    requires Inv(w) && Uses(a, n) && Act(w, a) != w
    ensures Stale(Act(w, a), n)
  {
  }

  lemma {:induction false} StaleForever(w: World, actions: seq<Action>, n: JobName)
    requires Inv(w) && FreshRun(w, actions) && Stale(w, n)
    ensures Inv(Run(w, actions)) && Stale(Run(w, actions), n)
    decreases |actions|
  {
    if actions != [] {
      StaleStays(w, actions[0], n);
      ActKeeps(w, actions[0]);
      StaleForever(Act(w, actions[0]), actions[1..], n);
    }
  }

  /**
   Fencing: once one worker has used a handle, no handle of the same job and
   generation, its own or another worker's, ever has an effect again.
   */
  lemma UsedHandleIsFenced(w: World, a: Action, n: JobName, later: seq<Action>, b: Action, m: JobName)
    requires Reachable(w) && Fresh(w, a) && FreshRun(Act(w, a), later)
    requires Uses(a, n) && Act(w, a) != w
    requires Uses(b, m) && m.common.jobId == n.common.jobId && m.common.generation <= n.common.generation
    ensures Act(Run(Act(w, a), later), b) == Run(Act(w, a), later)
  {
    ReachableInv(w);
    LeavingMakesStale(w, a, n);
    ActKeeps(w, a);
    assert Stale(Act(w, a), m) by {
      assert NameInv(w, n);
      CountAppend(w.history, Event(CauseOf(a), n.common.jobId, n.common.generation), n.common.jobId);
    }
    StaleForever(Act(w, a), later, m);
    StaleIsAbsent(Run(Act(w, a), later), m);
  }

  // ---------- Accounting ----------

  /** The name tells the job's history: generation its steps, attempt its claims. */
  lemma NameTellsHistory(w: World, n: JobName)
    requires Reachable(w) && n in w.names
    ensures n.common.generation == Steps(w.history, n.common.jobId)
    ensures n.common.attempt == Claims(w.history, n.common.jobId) <= n.common.maximumAttempts
    ensures n.common.jobId in w.published && n.common.maximumAttempts == w.published[n.common.jobId]
  {
    ReachableInv(w);
    assert NameInv(w, n);
  }

  // ---------- Tickets ----------

  /** A ticket is valid exactly when it describes a move the table allows with an attempt to spare. */
  lemma TicketExact(t: Ticket, canonical: seq<byte> -> bool)
    ensures var op := ProtocolOperation(t.operation);
            var c := t.common;
            ValidateTicket(t, canonical).None? <==>
              && 1 <= c.maximumAttempts && c.generation < U64_MAX
              && (if op.Claim? then c.attempt < c.maximumAttempts else c.attempt <= c.maximumAttempts)
              && t.source.state == Transition(op).source && t.destination.state == Transition(op).destination
              && CanonicalBoot(canonical, t.source) && CanonicalBoot(canonical, t.destination)
  {
  }

  /** The name a valid ticket leads to is the one its move creates. */
  lemma TicketDestination(t: Ticket, canonical: seq<byte> -> bool, handle: JobName, detail: seq<byte>)
    requires ValidateTicket(t, canonical).None? && handle.state == t.source.state && handle.common == t.common
    ensures match Destination(ProtocolOperation(t.operation), handle, detail)
            case None => false
            case Some(n) => n.state == t.destination.state && n.common.generation == t.common.generation + 1
                            && n.common.jobId == t.common.jobId && n.detail == detail
  {
  }

  // ---------- Terminal states ----------

  lemma TerminalStep(w: World, a: Action, n: JobName)
    requires Inv(w) && Fresh(w, a) && n.common.jobId in w.published && (n.state.Dead? || n.state.Receipt?)
    requires forall m :: m in w.names && m.common.jobId == n.common.jobId ==> m == n
    ensures n.common.jobId in Act(w, a).published
    ensures forall m :: m in Act(w, a).names && m.common.jobId == n.common.jobId ==> m == n
  {
    if a.Move? && a.handle in w.names && Destination(a.op, a.handle, a.detail).Some? {
      assert NameInv(w, a.handle);
      MoveFollows(a.op, a.handle, a.detail);
    }
  }

  /** A buried or acknowledged job never comes back: its only name ever after is that one. */
  lemma {:induction false} TerminalForever(w: World, actions: seq<Action>, n: JobName)
    requires Inv(w) && FreshRun(w, actions) && n.common.jobId in w.published && (n.state.Dead? || n.state.Receipt?)
    requires forall m :: m in w.names && m.common.jobId == n.common.jobId ==> m == n
    ensures forall m :: m in Run(w, actions).names && m.common.jobId == n.common.jobId ==> m == n
    decreases |actions|
  {
    if actions != [] {
      TerminalStep(w, actions[0], n);
      ActKeeps(w, actions[0]);
      TerminalForever(Act(w, actions[0]), actions[1..], n);
    }
  }

  lemma TerminalNamesStay(w: World, n: JobName, later: seq<Action>, m: JobName)
    requires Reachable(w) && n in w.names && (n.state.Dead? || n.state.Receipt?) && FreshRun(w, later)
    requires m in Run(w, later).names && m.common.jobId == n.common.jobId
    ensures m == n
  {
    ReachableInv(w);
    assert NameInv(w, n);
    TerminalForever(w, later, n);
  }

  // ---------- Bounded lifetime ----------

  /** A job takes at most three steps for each attempt and three more, renewals aside. */
  lemma LifetimeBound(w: World, j: JobId)
    requires Reachable(w) && j in w.published
    ensures NonRenewals(w.history, j) <= 3 * w.published[j] + 3
  {
    ReachableInv(w);
  }

  // ---------- The bound is reached ----------

  /** Reached by fresh actions; when `limited`, each within the limit. */
  ghost predicate ReachedBy(w: World, limited: bool) {
    exists xs :: FreshRun(EMPTY_WORLD, xs) && w == Run(EMPTY_WORLD, xs) && (limited ==> AllWithin(xs))
  }

  ghost predicate AllWithin(xs: seq<Action>) {
    forall a <- xs :: WithinLimit(a)
  }

  /** Reached, with one job, after `steps` steps, none of them a renewal. */
  ghost predicate Alone(w: World, n: JobName, steps: nat, limited: bool) {
    && ReachedBy(w, limited) && w.names == {n} && w.quarantine == {}
    && w.published == map[n.common.jobId := n.common.maximumAttempts]
    && NonRenewals(w.history, n.common.jobId) == steps == n.common.generation
  }

  lemma {:induction false} RunAppend(w: World, xs: seq<Action>, a: Action)
    requires FreshRun(w, xs) && Fresh(Run(w, xs), a)
    ensures FreshRun(w, xs + [a]) && Run(w, xs + [a]) == Act(Run(w, xs), a)
    decreases |xs|
  {
    if xs == [] {
      assert xs + [a] == [a];
    } else {
      FirstOfConcat(xs, [a]);
      RunAppend(Act(w, xs[0]), xs[1..], a);
    }
  }

  lemma ReachNext(w: World, a: Action, limited: bool)
    requires ReachedBy(w, limited) && Fresh(w, a) && (limited ==> WithinLimit(a))
    ensures ReachedBy(Act(w, a), limited)
  {
    var xs :| FreshRun(EMPTY_WORLD, xs) && w == Run(EMPTY_WORLD, xs) && (limited ==> AllWithin(xs));
    RunAppend(EMPTY_WORLD, xs, a);
    assert limited ==> AllWithin(xs + [a]);
  }

  lemma ReachedIsReachable(w: World, limited: bool)
    requires ReachedBy(w, limited)
    ensures Reachable(w)
  {
  }

  /** One lawful move of the only job. */
  lemma MoveAlone(w: World, n: JobName, steps: nat, op: Operation, limited: bool) returns (v: World, next: JobName)
    requires Alone(w, n, steps, limited) && steps < U64_MAX && !Enqueues(op) && !op.Quarantine? && !op.Renew?
    requires n.state == Transition(op).source && (limited ==> WithinLimit(Move(op, n, [])))
    requires op.Claim? ==> n.common.attempt < n.common.maximumAttempts
    ensures next.state == Transition(op).destination && next.detail == []
    ensures next.common == n.common.(generation := steps + 1,
                                     attempt := n.common.attempt + if op.Claim? then 1 else 0)
    ensures Alone(v, next, steps + 1, limited)
  {
    ReachedIsReachable(w, limited);
    ReachableInv(w);
    assert NameInv(w, n);
    MovesStepIdentity(op, n.common);
    next := Destination(op, n, []).value;
    v := Act(w, Move(op, n, []));
    ReachNext(w, Move(op, n, []), limited);
    CountAppend(w.history, Event(Moved(op), n.common.jobId, n.common.generation), n.common.jobId);
    assert v.names == {next};
  }

  lemma PublishAlone(n: JobName, limited: bool) returns (w: World)
    requires Publishable(EnqueueDelayed, n)
    ensures Alone(w, n, 0, limited)
  {
    assert Run(EMPTY_WORLD, []) == EMPTY_WORLD && AllWithin([]);
    w := Act(EMPTY_WORLD, Publish(EnqueueDelayed, n));
    ReachNext(EMPTY_WORLD, Publish(EnqueueDelayed, n), limited);
    assert w.names == {n};
  }

  function DelayedName(j: JobId, steps: nat, attempt: nat, max: u32): JobName
    requires steps < U64_LIMIT && attempt <= max
  {
    JobName(Delayed, CommonFields(j, steps, attempt, max), [])
  }

  /** `k` times around: promoted, claimed, retried later. */
  lemma {:induction false} Cycles(j: JobId, max: u32, k: nat, limited: bool) returns (w: World)
    requires 1 <= max && k <= max && (limited ==> k < max)
    ensures Alone(w, DelayedName(j, 3 * k, k, max), 3 * k, limited)
  {
    if k == 0 {
      w := PublishAlone(DelayedName(j, 0, 0, max), limited);
    } else {
      var w0 := Cycles(j, max, k - 1, limited);
      w := OneCycle(w0, j, max, k - 1, 3 * (k - 1), limited);
    }
  }

  lemma OneCycle(w: World, j: JobId, max: u32, k: nat, steps: nat, limited: bool) returns (v: World)
    requires k < max && (limited ==> k + 1 < max) && steps == 3 * k
    requires Alone(w, DelayedName(j, steps, k, max), steps, limited)
    ensures Alone(v, DelayedName(j, steps + 3, k + 1, max), steps + 3, limited)
  {
    var w1, n1 := MoveAlone(w, DelayedName(j, steps, k, max), steps, Promote, limited);
    var w2, n2 := MoveAlone(w1, n1, steps + 1, Claim, limited);
    var w3, n3 := MoveAlone(w2, n2, steps + 2, RetryLater, limited);
    v := w3;
    assert n3 == DelayedName(j, steps + 3, k + 1, max);
  }

  /** The lifetime bound cannot be lowered, whatever the number of attempts. */
  lemma LifetimeBoundIsReached(j: JobId, max: u32) returns (w: World)
    requires 1 <= max
    ensures Reachable(w) && j in w.published && w.published[j] == max
    ensures NonRenewals(w.history, j) == 3 * max + 3
  {
    var w0 := Cycles(j, max, max, false);
    var w1, n1 := MoveAlone(w0, DelayedName(j, 3 * max, max, max), 3 * max, Promote, false);
    var w2, n2 := MoveAlone(w1, n1, 3 * max + 1, ExhaustedReadyCleanup, false);
    w := LeaveAlone(w2, n2, 3 * max + 2, SetAside(n2, []), false);
  }

  /** Nor can the bound with the limit. */
  lemma LimitedLifetimeIsReached(j: JobId, max: u32) returns (actions: seq<Action>)
    requires 1 <= max
    ensures FreshRun(EMPTY_WORLD, actions) && forall a <- actions :: WithinLimit(a)
    ensures var w := Run(EMPTY_WORLD, actions);
            j in w.published && w.published[j] == max && NonRenewals(w.history, j) == 3 * max + 1
  {
    var steps := 3 * (max - 1);
    var w0 := Cycles(j, max, max - 1, true);
    var w1, n := LastCycle(w0, DelayedName(j, steps, max - 1, max), steps);
    var w := LeaveAlone(w1, n, steps + 3, Delete(n), true);
    actions :| FreshRun(EMPTY_WORLD, actions) && w == Run(EMPTY_WORLD, actions) && AllWithin(actions);
  }

  /** Promoted, claimed and acknowledged. */
  lemma LastCycle(w: World, n: JobName, steps: nat) returns (v: World, last: JobName)
    requires steps < U64_MAX - 2 && Alone(w, n, steps, true)
    requires n.state.Delayed? && n.common.attempt < n.common.maximumAttempts
    ensures Alone(v, last, steps + 3, true) && last.state.Receipt?
    ensures last.common.jobId == n.common.jobId && last.common.maximumAttempts == n.common.maximumAttempts
  {
    var w1, n1 := MoveAlone(w, n, steps, Promote, true);
    var w2, n2 := MoveAlone(w1, n1, steps + 1, Claim, true);
    v, last := MoveAlone(w2, n2, steps + 2, Acknowledge, true);
  }

  /** The only job is set aside or deleted. */
  lemma LeaveAlone(w: World, n: JobName, steps: nat, a: Action, limited: bool) returns (v: World)
    requires Alone(w, n, steps, limited) && (a == SetAside(n, []) || (a == Delete(n) && n.state.Receipt?))
    ensures ReachedBy(v, limited) && Reachable(v) && v.published == w.published
    ensures NonRenewals(v.history, n.common.jobId) == steps + 1
  {
    v := Act(w, a);
    ReachNext(w, a, limited);
    ReachedIsReachable(v, limited);
    CountAppend(w.history, Event(if a.Delete? then Deleted else Moved(Quarantine), n.common.jobId, n.common.generation),
                n.common.jobId);
  }

  // ---------- With the retry limit ----------

  /** What the consumer and the reaper check before they move a job. */
  predicate WithinLimit(a: Action) {
    a.Move? ==>
      && (a.op.RetryNow? || a.op.RetryLater? || a.op.ReapExpiredToReady?
          ==> a.handle.common.attempt < a.handle.common.maximumAttempts)
      && (a.op.ReapExpiredToDead? || a.op.ExhaustedReadyCleanup?
          ==> a.handle.common.attempt >= a.handle.common.maximumAttempts)
  }

  function RemainingWithin(n: JobName): int {
    var left := 3 * (n.common.maximumAttempts - n.common.attempt);
    match n.state
    case Leased => left + 2
    case Delayed => left + 1
    case Ready => left
    case _ => 1
  }

  ghost predicate LimitInv(w: World) {
    && (forall n :: n in w.names ==>
          && (n.state.Ready? || n.state.Delayed? ==> n.common.attempt < n.common.maximumAttempts)
          && NonRenewals(w.history, n.common.jobId) + RemainingWithin(n) <= 3 * n.common.maximumAttempts + 1)
    && (forall j :: j in w.published ==> NonRenewals(w.history, j) <= 3 * w.published[j] + 1)
  }

  /** What the limit needs of the name put in place of another. */
  ghost predicate FollowsWithin(handle: JobName, put: JobName, cause: Cause) {
    && put.common.jobId == handle.common.jobId && put.common.maximumAttempts == handle.common.maximumAttempts
    && (put.state.Ready? || put.state.Delayed? ==> put.common.attempt < put.common.maximumAttempts)
    && RemainingWithin(put) + (if IsRenew(cause) then 0 else 1) <= RemainingWithin(handle)
  }

  lemma LimitLeave(w: World, handle: JobName, put: set<JobName>, cause: Cause)
    requires Inv(w) && LimitInv(w) && handle in w.names
    requires forall p :: p in put ==> FollowsWithin(handle, p, cause)
    ensures LimitInv(Leave(w, handle, put, cause))
  {
  }

  lemma LimitPublish(w: World, op: Operation, name: JobName)
    requires Inv(w) && LimitInv(w) && Fresh(w, Publish(op, name))
    ensures LimitInv(Act(w, Publish(op, name)))
  {
    if Act(w, Publish(op, name)) != w {
      forall e | e in w.history ensures e.job != name.common.jobId {
        var i :| 0 <= i < |w.history| && w.history[i] == e;
        assert EventInv(w, i);
      }
      CountNone(w.history, name.common.jobId);
    }
  }

  lemma LimitStep(w: World, a: Action)
    requires Inv(w) && LimitInv(w) && Fresh(w, a) && WithinLimit(a)
    ensures LimitInv(Act(w, a))
  {
    match a {
      case Publish(op, name) => LimitPublish(w, op, name);
      case Move(op, handle, detail) =>
        if handle in w.names && Destination(op, handle, detail).Some? {
          LimitMove(op, handle, detail);
          LimitLeave(w, handle, {Destination(op, handle, detail).value}, Moved(op));
        }
      case SetAside(handle, _) =>
        if handle in w.names { LimitLeave(w, handle, {}, Moved(Quarantine)); }
      case Delete(handle) =>
        if handle in w.names { LimitLeave(w, handle, {}, Deleted); }
    }
  }

  lemma LimitMove(op: Operation, handle: JobName, detail: seq<byte>)
    requires Destination(op, handle, detail).Some? && WithinLimit(Move(op, handle, detail))
    requires handle.state.Ready? || handle.state.Delayed? ==> handle.common.attempt < handle.common.maximumAttempts
    ensures var next := Destination(op, handle, detail).value;
            && next.common.jobId == handle.common.jobId
            && next.common.maximumAttempts == handle.common.maximumAttempts
            && (next.state.Ready? || next.state.Delayed? ==> next.common.attempt < next.common.maximumAttempts)
            && RemainingWithin(next) + (if op.Renew? then 0 else 1) <= RemainingWithin(handle)
  {
  }

  lemma {:induction false} LimitRun(w: World, actions: seq<Action>)
    requires Inv(w) && LimitInv(w) && FreshRun(w, actions) && forall a <- actions :: WithinLimit(a)
    ensures Inv(Run(w, actions)) && LimitInv(Run(w, actions))
    decreases |actions|
  {
    if actions != [] {
      ActKeeps(w, actions[0]);
      LimitStep(w, actions[0]);
      LimitRun(Act(w, actions[0]), actions[1..]);
    }
  }

  /**
   When every retry respects the limit, the bound drops by two and a waiting job
   always has an attempt left, so cleaning up an exhausted ready job never applies.
   */
  lemma LimitedLifetime(actions: seq<Action>, j: JobId, n: JobName, detail: seq<byte>)
    requires FreshRun(EMPTY_WORLD, actions) && forall a <- actions :: WithinLimit(a)
    requires var w := Run(EMPTY_WORLD, actions); j in w.published && n in w.names
    ensures var w := Run(EMPTY_WORLD, actions);
            && NonRenewals(w.history, j) <= 3 * w.published[j] + 1
            && (n.state.Ready? || n.state.Delayed? ==> n.common.attempt < n.common.maximumAttempts)
            && (n.state.Ready? ==> !WithinLimit(Move(ExhaustedReadyCleanup, n, detail)))
  {
    LimitRun(EMPTY_WORLD, actions);
  }
}
