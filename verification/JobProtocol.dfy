/**
 Jobs as names in one shared namespace.  Any number of workers publish and
 rename without overwriting, with fresh or stale handles.
 */
module JobProtocol {
  import opened Common
  import opened StateMachine

  /** A visible name; `detail` is the rest of it: token, deadlines, bucket, reason and tag. */
  datatype JobName = JobName(state: State, common: CommonFields, detail: seq<byte>)

  datatype Cause = Moved(op: Operation) | Deleted

  /** A job left the name of generation `generation`. */
  datatype Event = Event(cause: Cause, job: JobId, generation: nat)

  /** The namespace, the maximum attempts of every job published, and what happened so far. */
  datatype World = World(
    names: set<JobName>,
    quarantine: set<seq<byte>>,
    published: map<JobId, nat>,
    history: seq<Event>)

  const EMPTY_WORLD := World({}, {}, map[], [])

  /** One attempt of one worker; `handle` is whatever name the worker remembers. */
  datatype Action =
    | Publish(op: Operation, name: JobName)
    | Move(op: Operation, handle: JobName, detail: seq<byte>)
    | SetAside(handle: JobName, id: seq<byte>)
    | Delete(handle: JobName)

  // ---------- Steps ----------

  predicate Visible(s: State) { s.Ready? || s.Leased? || s.Delayed? || s.Dead? || s.Receipt? }

  /** The name a move creates, unless the protocol refuses it. */
  function Destination(op: Operation, handle: JobName, detail: seq<byte>): Option<JobName> {
    var d := Transition(op);
    if Enqueues(op) || op.Quarantine? || handle.state != d.source then None
    else
      match NextCommonFields(op, handle.common)
      case Err(_) => None
      case Ok(next) =>
        if next.attempt > next.maximumAttempts then None
        else Some(JobName(d.destination, next, detail))
  }

  predicate Publishable(op: Operation, name: JobName) {
    && Enqueues(op) && name.state == Transition(op).destination
    && name.common.generation == 0 && name.common.attempt == 0 && name.common.maximumAttempts >= 1
  }

  /** The world after the handle's name is gone, and `put` there instead. */
  function Leave(w: World, handle: JobName, put: set<JobName>, cause: Cause): World {
    w.(names := w.names - {handle} + put,
       history := w.history + [Event(cause, handle.common.jobId, handle.common.generation)])
  }

  /** Publication and rename never replace a name; whatever they refuse changes nothing. */
  function Act(w: World, a: Action): World {
    match a
    case Publish(op, name) =>
      if Publishable(op, name) && name !in w.names then
        w.(names := w.names + {name},
           published := w.published[name.common.jobId := name.common.maximumAttempts])
      else w
    case Move(op, handle, detail) =>
      var d := Destination(op, handle, detail);
      if d.Some? && handle in w.names && d.value !in w.names then Leave(w, handle, {d.value}, Moved(op)) else w
    case SetAside(handle, id) =>
      if handle in w.names && id !in w.quarantine then
        Leave(w, handle, {}, Moved(Quarantine)).(quarantine := w.quarantine + {id})
      else w
    case Delete(handle) =>
      if handle in w.names && handle.state.Receipt? then Leave(w, handle, {}, Deleted) else w
  }

  /** A publication uses a job id nobody has used: ids are 128 random bits. */
  predicate Fresh(w: World, a: Action) {
    a.Publish? ==> a.name.common.jobId !in w.published
  }

  function Run(w: World, actions: seq<Action>): World
    decreases |actions|
  {
    if actions == [] then w else Run(Act(w, actions[0]), actions[1..])
  }

  predicate FreshRun(w: World, actions: seq<Action>)
    decreases |actions|
  {
    actions == [] || (Fresh(w, actions[0]) && FreshRun(Act(w, actions[0]), actions[1..]))
  }

  // ---------- Counting ----------

  predicate IsClaim(c: Cause) { c == Moved(Claim) }

  predicate IsRenew(c: Cause) { c == Moved(Renew) }

  function Steps(h: seq<Event>, j: JobId): nat {
    if h == [] then 0 else Steps(h[..|h| - 1], j) + if h[|h| - 1].job == j then 1 else 0
  }

  function Claims(h: seq<Event>, j: JobId): nat {
    if h == [] then 0
    else Claims(h[..|h| - 1], j) + if h[|h| - 1].job == j && IsClaim(h[|h| - 1].cause) then 1 else 0
  }

  function NonRenewals(h: seq<Event>, j: JobId): nat {
    if h == [] then 0
    else NonRenewals(h[..|h| - 1], j) + if h[|h| - 1].job == j && !IsRenew(h[|h| - 1].cause) then 1 else 0
  }

  lemma CountAppend(h: seq<Event>, e: Event, j: JobId)
    ensures Steps(h + [e], j) == Steps(h, j) + if e.job == j then 1 else 0
    ensures Claims(h + [e], j) == Claims(h, j) + if e.job == j && IsClaim(e.cause) then 1 else 0
    ensures NonRenewals(h + [e], j) == NonRenewals(h, j) + if e.job == j && !IsRenew(e.cause) then 1 else 0
  {
  }

  lemma {:induction false} CountNone(h: seq<Event>, j: JobId)
    requires forall e <- h :: e.job != j
    ensures Steps(h, j) == Claims(h, j) == NonRenewals(h, j) == 0
  {
    if h != [] { CountNone(h[..|h| - 1], j); }
  }

  // ---------- The invariant ----------

  function Rank(s: State): nat {
    match s
    case Leased => 4
    case Delayed => 3
    case Ready => 2
    case Dead => 1
    case Receipt => 1
    case _ => 0
  }

  /** How many more steps other than renewals a name can take. */
  function Remaining(n: JobName): int {
    3 * (n.common.maximumAttempts - n.common.attempt) + Rank(n.state)
  }

  ghost predicate NameInv(w: World, n: JobName) {
    var j := n.common.jobId;
    && j in w.published && w.published[j] == n.common.maximumAttempts
    && Visible(n.state)
    && n.common.generation == Steps(w.history, j)
    && n.common.attempt == Claims(w.history, j) <= n.common.maximumAttempts
    && NonRenewals(w.history, j) + Remaining(n) <= 3 * n.common.maximumAttempts + 3
  }

  ghost predicate EventInv(w: World, i: nat)
    requires i < |w.history|
  {
    var e := w.history[i];
    e.job in w.published && e.generation == Steps(w.history[..i], e.job)
  }

  ghost predicate Inv(w: World) {
    && (forall n, m :: n in w.names && m in w.names && n.common.jobId == m.common.jobId ==> n == m)
    && (forall n :: n in w.names ==> NameInv(w, n))
    && (forall i :: 0 <= i < |w.history| ==> EventInv(w, i))
    && (forall j :: j in w.published ==> NonRenewals(w.history, j) <= 3 * w.published[j] + 3)
  }

  lemma PublishKeeps(w: World, op: Operation, name: JobName)
    requires Inv(w) && Fresh(w, Publish(op, name))
    ensures Inv(Act(w, Publish(op, name)))
  {
    var n := Act(w, Publish(op, name));
    if n != w {
      var j := name.common.jobId;
      forall e | e in w.history ensures e.job != j {
        var i :| 0 <= i < |w.history| && w.history[i] == e;
        assert EventInv(w, i);
      }
      CountNone(w.history, j);
      forall m | m in n.names ensures NameInv(n, m) {
        if m != name { assert NameInv(w, m); }
      }
      forall i | 0 <= i < |n.history| ensures EventInv(n, i) { assert EventInv(w, i); }
      forall a, b | a in n.names && b in n.names && a.common.jobId == b.common.jobId ensures a == b {
        if a != name { assert NameInv(w, a); }
        if b != name { assert NameInv(w, b); }
      }
    }
  }

  /** What leaving a name needs of the name put in its place. */
  ghost predicate Follows(handle: JobName, put: JobName, cause: Cause) {
    && put.common.jobId == handle.common.jobId && put.common.maximumAttempts == handle.common.maximumAttempts
    && Visible(put.state)
    && put.common.generation == handle.common.generation + 1
    && put.common.attempt == handle.common.attempt + (if IsClaim(cause) then 1 else 0)
    && put.common.attempt <= put.common.maximumAttempts
    && Remaining(put) + (if IsRenew(cause) then 0 else 1) <= Remaining(handle)
  }

  lemma LeaveKeeps(w: World, handle: JobName, put: set<JobName>, cause: Cause)
    requires Inv(w) && handle in w.names
    requires forall p :: p in put ==> Follows(handle, p, cause)
    requires forall p, q :: p in put && q in put ==> p == q
    ensures Inv(Leave(w, handle, put, cause))
  {
    var n := Leave(w, handle, put, cause);
    var e := Event(cause, handle.common.jobId, handle.common.generation);
    assert NameInv(w, handle);
    forall m | m in n.names ensures NameInv(n, m) {
      CountAppend(w.history, e, m.common.jobId);
      if m !in put { assert NameInv(w, m); }
    }
    forall i | 0 <= i < |n.history| ensures EventInv(n, i) {
      if i < |w.history| {
        assert EventInv(w, i);
        assert n.history[..i] == w.history[..i];
      } else {
        assert n.history[..i] == w.history;
      }
    }
    forall j | j in n.published ensures NonRenewals(n.history, j) <= 3 * n.published[j] + 3 {
      CountAppend(w.history, e, j);
    }
  }

  lemma MoveFollows(op: Operation, handle: JobName, detail: seq<byte>)
    requires Visible(handle.state) && Destination(op, handle, detail).Some?
    ensures Follows(handle, Destination(op, handle, detail).value, Moved(op))
  {
  }

  lemma ActKeeps(w: World, a: Action)
    requires Inv(w) && Fresh(w, a)
    ensures Inv(Act(w, a))
  {
    match a {
      case Publish(op, name) => PublishKeeps(w, op, name);
      case Move(op, handle, detail) =>
        if handle in w.names && Destination(op, handle, detail).Some? {
          assert NameInv(w, handle);
          MoveFollows(op, handle, detail);
          LeaveKeeps(w, handle, {Destination(op, handle, detail).value}, Moved(op));
        }
      case SetAside(handle, id) =>
        if handle in w.names {
          LeaveKeeps(w, handle, {}, Moved(Quarantine));
          SameButQuarantine(Leave(w, handle, {}, Moved(Quarantine)), w.quarantine + {id});
        }
      case Delete(handle) =>
        if handle in w.names { LeaveKeeps(w, handle, {}, Deleted); }
    }
  }

  lemma SameButQuarantine(w: World, q: set<seq<byte>>)
    requires Inv(w)
    ensures Inv(w.(quarantine := q))
  {
    var n := w.(quarantine := q);
    forall m | m in n.names ensures NameInv(n, m) { assert NameInv(w, m); }
    forall i | 0 <= i < |n.history| ensures EventInv(n, i) { assert EventInv(w, i); }
  }

  /** The invariant holds in every world that any interleaving reaches. */
  lemma {:induction false} RunKeeps(w: World, actions: seq<Action>)
    requires Inv(w) && FreshRun(w, actions)
    ensures Inv(Run(w, actions))
    decreases |actions|
  {
    if actions != [] {
      ActKeeps(w, actions[0]);
      RunKeeps(Act(w, actions[0]), actions[1..]);
    }
  }
}
