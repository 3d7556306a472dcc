/**
 What becomes of every object over a whole recovery pass, with its renames, unlinks and
 compactions and whatever other processes do meanwhile.
 */
module PassConservation {
  import opened Common
  import opened QuarantinePublish

  /** Where an object is and what it holds. */
  datatype Fate = Gone | At(path: Path, bytes: seq<byte>)

  /** The id under which one quarantine call moves its object, if it does. */
  function MovesTo(fs: Files, w: Work, max: u32, c: Candidate): Option<Id> {
    if w.attempted >= max then None
    else MovedTo(Publish(fs, c.src, c.reason, max - w.attempted, c.preparation, c.attempts).publication)
  }

  function EffectFate(fs: Files, op: Operation, f: Fate): Fate {
    if f.Gone? then f
    else
      match op
      case Move(src, dst, t) => if f.path == src && Renames(fs, src, dst, t) then f.(path := dst) else f
      case Unlink(path, t) => if f.path == path && !t.UnlinkFails? then Gone else f
      case Compact(c) => if f.path == c.receipt && Replaces(fs, c) then f.(bytes := c.bytes) else f
      case Prune => f
  }

  function StepFate(fs: Files, w: Work, max: u32, s: PassStep, f: Fate): Fate {
    match s
    case SetAside(c) =>
      if f.At? && f.path == c.src && MovesTo(fs, w, max, c).Some? then
        f.(path := InQuarantine(MovesTo(fs, w, max, c).value, c.reason))
      else f
    case Operate(op) => if w.attempted >= max then f else EffectFate(fs, op, f)
    case Elsewhere(op) => EffectFate(fs, op, f)
    case Appears(_, _) => f
  }

  function PassFate(fs: Files, w: Work, max: u32, steps: seq<PassStep>, f: Fate): Fate
    decreases |steps|
  {
    if steps == [] then f
    else
      var (fs1, w1) := StepAfter(fs, w, max, steps[0]);
      PassFate(fs1, w1, max, steps[1..], StepFate(fs, w, max, steps[0], f))
  }

  // ---------- One step ----------

  /** The object is where its fate says. */
  predicate Holds(fs: Files, f: Fate) {
    f.At? ==> f.path in fs && fs[f.path] == f.bytes
  }

  lemma SetAsideMoves(fs: Files, w: Work, max: u32, c: Candidate)
    ensures var fs1 := QuarantineStep(fs, w, max, c).0;
            match MovesTo(fs, w, max, c)
            case None => fs1 == fs
            case Some(id) =>
              c.src in fs && InQuarantine(id, c.reason) !in fs && fs1 == Renamed(fs, c.src, InQuarantine(id, c.reason))
  {
    if w.attempted < max {
      PublishConserves(fs, c.src, c.reason, max - w.attempted, c.preparation, c.attempts);
    }
  }

  lemma StepHolds(fs: Files, w: Work, max: u32, s: PassStep, f: Fate)
    requires Holds(fs, f)
    ensures Holds(StepAfter(fs, w, max, s).0, StepFate(fs, w, max, s, f))
  {
    if s.SetAside? { SetAsideMoves(fs, w, max, s.candidate); }
  }

  /** Both are there and under different names, or one is gone. */
  predicate Apart(f: Fate, g: Fate) {
    f.At? && g.At? ==> f.path != g.path
  }

  lemma StepApart(fs: Files, w: Work, max: u32, s: PassStep, f: Fate, g: Fate)
    requires Holds(fs, f) && Holds(fs, g) && Apart(f, g)
    ensures Apart(StepFate(fs, w, max, s, f), StepFate(fs, w, max, s, g))
  {
    if s.SetAside? { SetAsideMoves(fs, w, max, s.candidate); }
  }

  /** The temporary file that an operation leaves behind. */
  function LeftBehind(fs: Files, op: Operation): Option<Path> {
    if op.Compact? && Leaves(fs, op.compaction) then Some(op.compaction.temp) else None
  }

  /** The name at which a step puts an object of its own. */
  function NewAt(fs: Files, w: Work, max: u32, s: PassStep): Option<Path> {
    match s
    case SetAside(_) => None
    case Operate(op) => if w.attempted < max then LeftBehind(fs, op) else None
    case Elsewhere(op) => LeftBehind(fs, op)
    case Appears(path, _) => if path in fs then None else Some(path)
  }

  lemma StepFrom(fs: Files, w: Work, max: u32, s: PassStep, q: Path) returns (p: Path)
    requires q in StepAfter(fs, w, max, s).0
    ensures || NewAt(fs, w, max, s) == Some(q)
            || (p in fs && StepFate(fs, w, max, s, At(p, fs[p])) == At(q, StepAfter(fs, w, max, s).0[q]))
  {
    p := q;
    match s {
      case SetAside(c) =>
        SetAsideMoves(fs, w, max, c);
        if q !in fs { p := c.src; }
      case Operate(op) => if op.Move? && q !in fs { p := op.src; }
      case Elsewhere(op) => if op.Move? && q !in fs { p := op.src; }
      case Appears(_, _) =>
    }
  }

  // ---------- Whole passes ----------

  /** Every object is where its fate says, with the bytes its fate says. */
  lemma {:induction false} PassKeepsObjects(fs: Files, w: Work, max: u32, steps: seq<PassStep>, f: Fate)
    requires Holds(fs, f)
    ensures Holds(PassAfter(fs, w, max, steps).0, PassFate(fs, w, max, steps, f))
    decreases |steps|
  {
    if steps != [] {
      var (fs1, w1) := StepAfter(fs, w, max, steps[0]);
      StepHolds(fs, w, max, steps[0], f);
      PassKeepsObjects(fs1, w1, max, steps[1..], StepFate(fs, w, max, steps[0], f));
    }
  }

  /** No two objects end up under one name: nothing is overwritten but receipts by their own compaction. */
  lemma {:induction false} PassKeepsApart(fs: Files, w: Work, max: u32, steps: seq<PassStep>, f: Fate, g: Fate)
    requires Holds(fs, f) && Holds(fs, g) && Apart(f, g)
    ensures Apart(PassFate(fs, w, max, steps, f), PassFate(fs, w, max, steps, g))
    decreases |steps|
  {
    if steps != [] {
      var (fs1, w1) := StepAfter(fs, w, max, steps[0]);
      StepHolds(fs, w, max, steps[0], f);
      StepHolds(fs, w, max, steps[0], g);
      StepApart(fs, w, max, steps[0], f, g);
      PassKeepsApart(fs1, w1, max, steps[1..], StepFate(fs, w, max, steps[0], f), StepFate(fs, w, max, steps[0], g));
    }
  }

  /** The operation of a step, if it has one. */
  function OperationOf(s: PassStep): Option<Operation> {
    match s
    case Operate(op) => Some(op)
    case Elsewhere(op) => Some(op)
    case _ => None
  }

  /** The step unlinks the name, or compacts the receipt there. */
  predicate Destroys(s: PassStep, p: Path) {
    match OperationOf(s)
    case Some(Unlink(path, _)) => path == p
    case Some(Compact(c)) => c.receipt == p
    case _ => false
  }

  predicate DestroysAt(fs: Files, w: Work, max: u32, steps: seq<PassStep>, f: Fate, k: nat)
    requires k < |steps|
  {
    var g := PassFate(fs, w, max, steps[..k], f);
    g.At? && Destroys(steps[k], g.path)
  }

  /**
   Only an unlink or a compaction that names an object where it then is takes its bytes
   away: otherwise it survives the pass with them.
   */
  lemma {:induction false} LostOnlyByName(fs: Files, w: Work, max: u32, steps: seq<PassStep>, f: Fate)
    requires f.At?
    ensures var g := PassFate(fs, w, max, steps, f);
            || (g.At? && g.bytes == f.bytes)
            || exists k :: 0 <= k < |steps| && DestroysAt(fs, w, max, steps, f, k)
    decreases |steps|
  {
    if steps != [] {
      assert steps[..0] == [];
      if Destroys(steps[0], f.path) {
        assert DestroysAt(fs, w, max, steps, f, 0);
      } else {
        var (fs1, w1) := StepAfter(fs, w, max, steps[0]);
        var f1 := StepFate(fs, w, max, steps[0], f);
        LostOnlyByName(fs1, w1, max, steps[1..], f1);
        if k :| 0 <= k < |steps[1..]| && DestroysAt(fs1, w1, max, steps[1..], f1, k) {
          assert steps[..k + 1][0] == steps[0] && steps[..k + 1][1..] == steps[1..][..k];
          assert DestroysAt(fs, w, max, steps, f, k + 1);
        }
      }
    }
  }

  /** The step's operation moves, unlinks or compacts what is at `p`. */
  predicate Names(s: PassStep, p: Path) {
    Destroys(s, p) || (OperationOf(s).Some? && OperationOf(s).value.Move? && OperationOf(s).value.src == p)
  }

  predicate NamesAt(fs: Files, w: Work, max: u32, steps: seq<PassStep>, f: Fate, k: nat)
    requires k < |steps|
  {
    var g := PassFate(fs, w, max, steps[..k], f);
    g.At? && Names(steps[k], g.path)
  }

  lemma NamesShift(fs: Files, w: Work, max: u32, steps: seq<PassStep>, f: Fate, k: nat)
    requires k + 1 < |steps|
    ensures var (fs1, w1) := StepAfter(fs, w, max, steps[0]);
            var f1 := StepFate(fs, w, max, steps[0], f);
            NamesAt(fs, w, max, steps, f, k + 1) == NamesAt(fs1, w1, max, steps[1..], f1, k)
  {
    assert steps[..k + 1][0] == steps[0] && steps[..k + 1][1..] == steps[1..][..k];
  }

  /**
   An object that no operation names where it then is keeps its bytes, and its name unless
   the pass puts it in quarantine.
   */
  lemma {:induction false} UnnamedIsKept(fs: Files, w: Work, max: u32, steps: seq<PassStep>, f: Fate)
    requires f.At? && forall k :: 0 <= k < |steps| ==> !NamesAt(fs, w, max, steps, f, k)
    ensures var g := PassFate(fs, w, max, steps, f);
            g.At? && g.bytes == f.bytes && (g.path == f.path || g.path.InQuarantine?)
    decreases |steps|
  {
    if steps != [] {
      var (fs1, w1) := StepAfter(fs, w, max, steps[0]);
      var f1 := StepFate(fs, w, max, steps[0], f);
      assert steps[..0] == [];
      assert !NamesAt(fs, w, max, steps, f, 0);
      forall k | 0 <= k < |steps[1..]| ensures !NamesAt(fs1, w1, max, steps[1..], f1, k) {
        assert !NamesAt(fs, w, max, steps, f, k + 1);
        NamesShift(fs, w, max, steps, f, k);
      }
      UnnamedIsKept(fs1, w1, max, steps[1..], f1);
    }
  }

  // ---------- Quarantine ----------

  /** The operation succeeds in moving, removing or changing the object. */
  predicate Takes(fs: Files, op: Operation, f: Fate)
    requires f.At?
  {
    match op
    case Move(src, dst, t) => src == f.path && !t.RenameFails? && src in fs && dst !in fs
    case Unlink(path, t) => path == f.path && !t.UnlinkFails?
    case Compact(c) => c.receipt == f.path && Replaces(fs, c) && c.bytes != f.bytes
    case Prune => false
  }

  /** Another process takes the object in step `k`. */
  predicate TakenAt(fs: Files, w: Work, max: u32, steps: seq<PassStep>, f: Fate, k: nat)
    requires k < |steps| && f.At?
  {
    steps[k].Elsewhere? && Takes(PassAfter(fs, w, max, steps[..k]).0, steps[k].foreign, f)
  }

  predicate NeverTaken(fs: Files, w: Work, max: u32, steps: seq<PassStep>, f: Fate)
    requires f.At?
    decreases |steps|
  {
    steps == [] ||
    (!(steps[0].Elsewhere? && Takes(fs, steps[0].foreign, f))
     && var (fs1, w1) := StepAfter(fs, w, max, steps[0]); NeverTaken(fs1, w1, max, steps[1..], f))
  }

  /** No step of the pass itself touches an object in quarantine. */
  lemma StepKeepsQuarantined(fs: Files, w: Work, max: u32, s: PassStep, f: Fate)
    requires f.At? && f.path.InQuarantine?
    ensures StepFate(fs, w, max, s, f) == f <==> !(s.Elsewhere? && Takes(fs, s.foreign, f))
  {
  }

  lemma {:induction false} NeverTakenExactly(fs: Files, w: Work, max: u32, steps: seq<PassStep>, f: Fate)
    requires f.At?
    ensures NeverTaken(fs, w, max, steps, f) <==> forall k :: 0 <= k < |steps| ==> !TakenAt(fs, w, max, steps, f, k)
    decreases |steps|
  {
    if steps != [] {
      var (fs1, w1) := StepAfter(fs, w, max, steps[0]);
      NeverTakenExactly(fs1, w1, max, steps[1..], f);
      TakenShift(fs, w, max, steps, f, 0);
      forall k | 0 <= k < |steps[1..]|
        ensures TakenAt(fs, w, max, steps, f, k + 1) == TakenAt(fs1, w1, max, steps[1..], f, k)
      {
        TakenShift(fs, w, max, steps, f, k + 1);
      }
      assert forall k :: 0 < k < |steps| ==>
        TakenAt(fs, w, max, steps, f, k) == TakenAt(fs1, w1, max, steps[1..], f, k - 1);
    }
  }

  lemma TakenShift(fs: Files, w: Work, max: u32, steps: seq<PassStep>, f: Fate, k: nat)
    requires f.At? && k < |steps|
    ensures var (fs1, w1) := StepAfter(fs, w, max, steps[0]);
            TakenAt(fs, w, max, steps, f, k)
            <==> if k == 0 then steps[0].Elsewhere? && Takes(fs, steps[0].foreign, f)
                 else TakenAt(fs1, w1, max, steps[1..], f, k - 1)
  {
    if k > 0 { assert steps[..k][0] == steps[0] && steps[..k][1..] == steps[1..][..k - 1]; }
  }

  /** The object is where it was, with its bytes, after each step. */
  ghost predicate Stays(fs: Files, w: Work, max: u32, steps: seq<PassStep>, f: Fate) {
    forall n :: 0 <= n <= |steps| ==> PassFate(fs, w, max, steps[..n], f) == f
  }

  /**
   An object in quarantine stays there as it is, all through the pass, exactly when no step
   of another process takes it.
   */
  lemma QuarantineIsKept(fs: Files, w: Work, max: u32, steps: seq<PassStep>, f: Fate)
    requires f.At? && f.path.InQuarantine?
    ensures Stays(fs, w, max, steps, f)
       <==> (forall k :: 0 <= k < |steps| ==> !TakenAt(fs, w, max, steps, f, k))
  {
    NeverTakenExactly(fs, w, max, steps, f);
    StaysUntilTaken(fs, w, max, steps, f);
  }

  lemma {:induction false} StaysUntilTaken(fs: Files, w: Work, max: u32, steps: seq<PassStep>, f: Fate)
    requires f.At? && f.path.InQuarantine?
    ensures Stays(fs, w, max, steps, f) <==> NeverTaken(fs, w, max, steps, f)
    decreases |steps|
  {
    if steps == [] {
      assert forall n :: 0 <= n <= |steps| ==> steps[..n] == [];
    } else {
      var (fs1, w1) := StepAfter(fs, w, max, steps[0]);
      var f1 := StepFate(fs, w, max, steps[0], f);
      StepKeepsQuarantined(fs, w, max, steps[0], f);
      forall n | 0 <= n <= |steps|
        ensures PassFate(fs, w, max, steps[..n], f)
             == if n == 0 then f else PassFate(fs1, w1, max, steps[1..][..n - 1], f1)
      {
        if n > 0 { assert steps[..n][0] == steps[0] && steps[..n][1..] == steps[1..][..n - 1]; }
      }
      StaysUntilTaken(fs1, w1, max, steps[1..], f);
      StaysShift(fs, w, max, steps, f, fs1, w1, f1);
    }
  }

  lemma StaysShift(fs: Files, w: Work, max: u32, steps: seq<PassStep>, f: Fate, fs1: Files, w1: Work, f1: Fate)
    requires steps != []
    requires forall n :: 0 <= n <= |steps| ==>
               PassFate(fs, w, max, steps[..n], f)
               == if n == 0 then f else PassFate(fs1, w1, max, steps[1..][..n - 1], f1)
    ensures Stays(fs, w, max, steps, f) <==> f1 == f && Stays(fs1, w1, max, steps[1..], f)
  {
    var rest := steps[1..];
    if Stays(fs, w, max, steps, f) {
      assert PassFate(fs, w, max, steps[..1], f) == f && rest[..0] == [];
      forall n | 0 <= n <= |rest| ensures PassFate(fs1, w1, max, rest[..n], f) == f {
        assert PassFate(fs, w, max, steps[..n + 1], f) == f;
      }
    }
  }

  /** It can be taken: removing it by its id is such a step. */
  lemma RemovalTakes(fs: Files, w: Work, max: u32, id: Id, reason: nat)
    requires InQuarantine(id, reason) in fs
    ensures var p := InQuarantine(id, reason);
            var steps := [Elsewhere(Unlink(p, UnlinkFine))];
            p !in PassAfter(fs, w, max, steps).0 && PassFate(fs, w, max, steps, At(p, fs[p])) == Gone
  {
    var steps := [Elsewhere(Unlink(InQuarantine(id, reason), UnlinkFine))];
    assert steps[1..] == [];
  }

  // ---------- Where objects come from ----------

  /** An object that was there before the pass, or that a step of it put there. */
  datatype Origin = Old(path: Path) | New(step: nat, path: Path)

  /** After the pass, `f` is the fate of what step `k` put at `n`. */
  predicate StemsFrom(fs: Files, w: Work, max: u32, steps: seq<PassStep>, k: nat, n: Path, f: Fate)
    requires k < |steps|
  {
    var (fs0, w0) := PassAfter(fs, w, max, steps[..k]);
    var (fs1, w1) := StepAfter(fs0, w0, max, steps[k]);
    NewAt(fs0, w0, max, steps[k]) == Some(n) && n in fs1 && PassFate(fs1, w1, max, steps[k + 1..], At(n, fs1[n])) == f
  }

  lemma StemsShift(fs: Files, w: Work, max: u32, steps: seq<PassStep>, k: nat, n: Path, f: Fate)
    requires k + 1 < |steps|
    ensures var (fs1, w1) := StepAfter(fs, w, max, steps[0]);
            StemsFrom(fs, w, max, steps, k + 1, n, f) == StemsFrom(fs1, w1, max, steps[1..], k, n, f)
  {
    assert steps[..k + 1][0] == steps[0] && steps[..k + 1][1..] == steps[1..][..k];
    assert steps[1..][k + 1..] == steps[k + 1 + 1..];
  }

  /** Every name after the pass holds an object from before it or one that a step put there. */
  lemma {:induction false} PassOrigin(fs: Files, w: Work, max: u32, steps: seq<PassStep>, q: Path) returns (o: Origin)
    requires q in PassAfter(fs, w, max, steps).0
    ensures var f := At(q, PassAfter(fs, w, max, steps).0[q]);
            match o
            case Old(p) => p in fs && PassFate(fs, w, max, steps, At(p, fs[p])) == f
            case New(k, n) => k < |steps| && StemsFrom(fs, w, max, steps, k, n, f)
    decreases |steps|
  {
    o := Old(q);
    if steps != [] {
      var (fs1, w1) := StepAfter(fs, w, max, steps[0]);
      var between := PassOrigin(fs1, w1, max, steps[1..], q);
      match between {
        case New(k, n) =>
          StemsShift(fs, w, max, steps, k, n, At(q, PassAfter(fs, w, max, steps).0[q]));
          o := New(k + 1, n);
        case Old(n) =>
          if NewAt(fs, w, max, steps[0]) == Some(n) {
            assert steps[..0] == [];
            o := New(0, n);
          } else {
            var p := StepFrom(fs, w, max, steps[0], n);
            o := Old(p);
          }
      }
    }
  }
}
