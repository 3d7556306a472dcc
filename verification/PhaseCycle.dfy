/** The five recovery phases: what one pass runs and what a run of passes completes. */
module PhaseCycle {
  import opened Common
  import opened RetryLedger

  function NextPhase(p: Phase): Phase {
    match p
    case ReapLeases => PromoteDelayed
    case PromoteDelayed => CleanupTemp
    case CleanupTemp => CompactReceipts
    case CompactReceipts => DeleteReceipts
    case DeleteReceipts => ReapLeases
  }

  predicate WallSensitive(p: Phase) { p.PromoteDelayed? || p.DeleteReceipts? }

  /**
   What a pass meets.  `runsOut(k)`: its `k`-th phase uses up a budget;
   `spent(k)`: the work budget is found exhausted after it.
   */
  datatype Weather = Weather(wallFloor: bool, runsOut: nat -> bool, spent: nat -> bool)

  /** A wall-sensitive phase without a wall floor does nothing and so completes. */
  predicate CompletesPhase(w: Weather, p: Phase, k: nat) {
    (WallSensitive(p) && !w.wallFloor) || !w.runsOut(k)
  }

  /** The phases a pass runs from its `k`-th on, and the phase it leaves. */
  function PassFrom(w: Weather, p: Phase, k: nat): (seq<Phase>, Phase)
    decreases 5 - PhaseIndex(p)
  {
    if !CompletesPhase(w, p, k) then ([p], p)
    else if p.DeleteReceipts? || w.spent(k) then ([p], NextPhase(p))
    else
      var (rest, end) := PassFrom(w, NextPhase(p), k + 1);
      ([p] + rest, end)
  }

  class RecoveryLoop {
    var phase: Phase

    constructor (phase: Phase)
      ensures this.phase == phase
    {
      this.phase := phase;
    }

    method RunPass(w: Weather) returns (ran: seq<Phase>)
      modifies this
      ensures (ran, phase) == PassFrom(w, old(phase), 0)
    {
      ran := [];
      var exhausted := false;
      var k := 0;
      ghost var whole := PassFrom(w, phase, 0);
      assert [] + whole.0 == whole.0;
      while true
        invariant if exhausted then whole == (ran, phase)
                  else var rest := PassFrom(w, phase, k); whole == (ran + rest.0, rest.1)
        decreases if exhausted then 0 else 1, 5 - PhaseIndex(phase)
      {
        if exhausted { break; }
        var p := phase;
        ghost var rest := PassFrom(w, p, k);
        ghost var before := ran;
        ran := ran + [p];
        if !(WallSensitive(p) && !w.wallFloor) {
          exhausted := w.runsOut(k);
        }
        if !exhausted { phase := NextPhase(p); }
        if w.spent(k) { exhausted := true; }
        if p == DeleteReceipts {
          assert whole == (ran, phase);
          break;
        }
        if !exhausted {
          assert rest.0 == [p] + PassFrom(w, NextPhase(p), k + 1).0;
          Assoc(before, [p], PassFrom(w, NextPhase(p), k + 1).0);
        }
        k := k + 1;
      }
    }
  }

  // ---------- One pass ----------

  /** `n` phases after `p` in the cycle. */
  function Ahead(p: Phase, n: nat): Phase
    decreases n
  {
    if n == 0 then p else Ahead(NextPhase(p), n - 1)
  }

  /** The phases a pass completes: all it runs, but for a last one it has to leave. */
  function Completed(w: Weather, p: Phase): seq<Phase> {
    UpTo(PassFrom(w, p, 0).0, PassFrom(w, p, 0).1)
  }

  function UpTo(ran: seq<Phase>, end: Phase): seq<Phase> {
    if ran != [] && end == ran[|ran| - 1] then ran[..|ran| - 1] else ran
  }

  /** Whether a pass goes on after its `k`-th phase. */
  predicate GoesOn(w: Weather, p: Phase, k: nat) {
    CompletesPhase(w, p, k) && !p.DeleteReceipts? && !w.spent(k)
  }

  predicate InOrder(p: Phase, ran: seq<Phase>) {
    forall i :: 0 <= i < |ran| ==> ran[i] == Ahead(p, i)
  }

  /** All phases but the last one are completed. */
  predicate CompleteButLast(w: Weather, ran: seq<Phase>, k: nat) {
    forall i :: 0 <= i < |ran| - 1 ==> CompletesPhase(w, ran[i], k + i)
  }

  /** The pass ends at its last phase or, if that one is completed, one further. */
  predicate EndsAfter(w: Weather, p: Phase, ran: seq<Phase>, end: Phase, k: nat) {
    ran != [] && end == Ahead(p, if CompletesPhase(w, ran[|ran| - 1], k + |ran| - 1) then |ran| else |ran| - 1)
  }

  lemma {:induction false} PassRunsInOrder(w: Weather, p: Phase, k: nat)
    ensures var ran := PassFrom(w, p, k).0;
            1 <= |ran| <= 5 - PhaseIndex(p) && InOrder(p, ran)
    decreases 5 - PhaseIndex(p)
  {
    if GoesOn(w, p, k) {
      PassRunsInOrder(w, NextPhase(p), k + 1);
      var rest := PassFrom(w, NextPhase(p), k + 1).0;
      forall i | 0 <= i < 1 + |rest| ensures ([p] + rest)[i] == Ahead(p, i) {
        if i > 0 { assert ([p] + rest)[i] == rest[i - 1]; }
      }
    }
  }

  lemma PassCompletesAllButLast(w: Weather, p: Phase, k: nat)
    ensures CompleteButLast(w, PassFrom(w, p, k).0, k)
  {
  }

  lemma {:induction false} PassEnd(w: Weather, p: Phase, k: nat)
    ensures EndsAfter(w, p, PassFrom(w, p, k).0, PassFrom(w, p, k).1, k)
    decreases 5 - PhaseIndex(p)
  {
    if GoesOn(w, p, k) {
      PassEnd(w, NextPhase(p), k + 1);
      var rest := PassFrom(w, NextPhase(p), k + 1).0;
      assert ([p] + rest)[|rest|] == rest[|rest| - 1];
    } else {
      assert Ahead(p, 1) == NextPhase(p);
    }
  }

  lemma {:induction false} AheadNext(p: Phase, n: nat)
    ensures Ahead(p, n + 1) == NextPhase(Ahead(p, n))
    decreases n
  {
    if n > 0 { AheadNext(NextPhase(p), n - 1); }
  }

  lemma {:induction false} AheadAdd(p: Phase, a: nat, b: nat)
    ensures Ahead(Ahead(p, a), b) == Ahead(p, a + b)
    decreases a
  {
    if a > 0 { AheadAdd(NextPhase(p), a - 1, b); }
  }

  /**
   A pass runs between one and five phases, in cycle order and without wrapping,
   and leaves the first one it did not complete.
   */
  lemma PassLeavesFirstIncomplete(w: Weather, p: Phase)
    ensures var done := Completed(w, p);
            && |done| <= 5 - PhaseIndex(p)
            && (forall i :: 0 <= i < |done| ==> done[i] == Ahead(p, i) && CompletesPhase(w, done[i], i))
            && PassFrom(w, p, 0).1 == Ahead(p, |done|)
  {
    PassRunsInOrder(w, p, 0);
    PassCompletesAllButLast(w, p, 0);
    PassEnd(w, p, 0);
    var (ran, end) := PassFrom(w, p, 0);
    EndTellsCompletion(w, p, ran, end, 0);
  }

  /** The last phase of a pass was completed exactly if the pass ends one phase on. */
  lemma EndTellsCompletion(w: Weather, p: Phase, ran: seq<Phase>, end: Phase, k: nat)
    requires InOrder(p, ran) && CompleteButLast(w, ran, k) && EndsAfter(w, p, ran, end, k)
    ensures forall i :: 0 <= i < |UpTo(ran, end)| ==> CompletesPhase(w, UpTo(ran, end)[i], k + i)
    ensures end == Ahead(p, |UpTo(ran, end)|)
  {
  }

  // ---------- Runs of passes ----------

  /** One call: whether it got as far as its phases, what it met, whether the cursor was saved. */
  datatype Call = Call(starts: bool, weather: Weather, saved: bool)

  /** The phase on disk after the calls. */
  function OnDisk(p: Phase, cs: seq<Call>): Phase
    decreases |cs|
  {
    if cs == [] then p
    else OnDisk(if cs[0].starts && cs[0].saved then PassFrom(cs[0].weather, p, 0).1 else p, cs[1..])
  }

  /** The phases completed by calls whose cursor was saved, in order. */
  function Walk(p: Phase, cs: seq<Call>): seq<Phase>
    decreases |cs|
  {
    if cs == [] then []
    else if cs[0].starts && cs[0].saved then
      Completed(cs[0].weather, p) + Walk(PassFrom(cs[0].weather, p, 0).1, cs[1..])
    else Walk(p, cs[1..])
  }

  lemma JoinWalks(p: Phase, done: seq<Phase>, end: Phase, rest: seq<Phase>)
    requires forall i :: 0 <= i < |done| ==> done[i] == Ahead(p, i)
    requires end == Ahead(p, |done|) && forall i :: 0 <= i < |rest| ==> rest[i] == Ahead(end, i)
    ensures forall i :: 0 <= i < |done + rest| ==> (done + rest)[i] == Ahead(p, i)
    ensures Ahead(end, |rest|) == Ahead(p, |done + rest|)
  {
    AheadAdd(p, |done|, |rest|);
    forall i | 0 <= i < |done + rest| ensures (done + rest)[i] == Ahead(p, i) {
      if i >= |done| { AheadAdd(p, |done|, i - |done|); }
    }
  }

  /** Over any run of calls the completed phases walk the cycle without a gap. */
  lemma {:induction false} WalkIsContiguous(p: Phase, cs: seq<Call>)
    ensures forall i :: 0 <= i < |Walk(p, cs)| ==> Walk(p, cs)[i] == Ahead(p, i)
    ensures OnDisk(p, cs) == Ahead(p, |Walk(p, cs)|)
    decreases |cs|
  {
    if cs != [] {
      if cs[0].starts && cs[0].saved {
        var w := cs[0].weather;
        var done := Completed(w, p);
        var end := PassFrom(w, p, 0).1;
        PassLeavesFirstIncomplete(w, p);
        WalkIsContiguous(end, cs[1..]);
        JoinWalks(p, done, end, Walk(end, cs[1..]));
      } else {
        WalkIsContiguous(p, cs[1..]);
      }
    }
  }
}
