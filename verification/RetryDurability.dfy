/**
 The ledger on disk over whole passes.  A pass starts from the ledger on disk and
 may fail to save what it made of it; then the next pass starts from where this one did.
 */
module RetryDurability {
  import opened Common
  import opened RetryLedger
  import opened RetryProofs
  import opened RetryFairness

  /** A pass that cannot load the ledger takes no steps and saves nothing. */
  datatype Pass = Pass(steps: seq<Step>, saved: bool)

  function OnDisk(l: Ledger, passes: seq<Pass>): Ledger
    decreases |passes|
  {
    if passes == [] then l
    else OnDisk(if passes[0].saved then Run(l, passes[0].steps) else l, passes[1..])
  }

  /** The steps whose effect reached the disk. */
  function SavedSteps(passes: seq<Pass>): seq<Step>
    decreases |passes|
  {
    if passes == [] then [] else (if passes[0].saved then passes[0].steps else []) + SavedSteps(passes[1..])
  }

  ghost predicate AllAdmissible(passes: seq<Pass>) {
    forall p <- passes, s <- p.steps :: Admissible(s)
  }

  lemma {:induction false} RunAppend(l: Ledger, a: seq<Step>, b: seq<Step>)
    ensures Run(l, a + b) == Run(Run(l, a), b)
    decreases |a|
  {
    if a == [] {
      assert a + b == b;
    } else {
      FirstOfConcat(a, b);
      RunAppend(Apply(l, a[0]), a[1..], b);
    }
  }

  /** The disk holds the run of the saved steps alone. */
  lemma {:induction false} OnDiskIsRun(l: Ledger, passes: seq<Pass>)
    ensures OnDisk(l, passes) == Run(l, SavedSteps(passes))
    decreases |passes|
  {
    if passes != [] {
      OnDiskIsRun(if passes[0].saved then Run(l, passes[0].steps) else l, passes[1..]);
      RunAppend(l, if passes[0].saved then passes[0].steps else [], SavedSteps(passes[1..]));
    }
  }

  lemma {:induction false} SavedAppend(a: seq<Pass>, b: seq<Pass>)
    ensures SavedSteps(a + b) == SavedSteps(a) + SavedSteps(b)
    decreases |a|
  {
    if a == [] {
      assert a + b == b;
    } else {
      FirstOfConcat(a, b);
      SavedAppend(a[1..], b);
      Assoc(if a[0].saved then a[0].steps else [], SavedSteps(a[1..]), SavedSteps(b));
    }
  }

  /** Where step `m` of pass `i` is among the saved steps. */
  function SavedIndex(passes: seq<Pass>, i: nat, m: nat): nat
    requires i < |passes|
  {
    |SavedSteps(passes[..i])| + m
  }

  /** Each saved step saw, among the saved steps alone, the ledger it saw in its pass. */
  lemma SavedStepSees(l: Ledger, passes: seq<Pass>, i: nat, m: nat)
    requires i < |passes| && passes[i].saved && m < |passes[i].steps|
    ensures var saved := SavedSteps(passes);
            var k := SavedIndex(passes, i, m);
            && k < |saved| && saved[k] == passes[i].steps[m]
            && Run(l, saved[..k]) == Run(OnDisk(l, passes[..i]), passes[i].steps[..m])
  {
    var a, b, c := SavedSteps(passes[..i]), passes[i].steps, SavedSteps(passes[i + 1..]);
    assert SavedSteps(passes) == a + (b + c) by {
      assert passes == passes[..i] + passes[i..];
      SavedAppend(passes[..i], passes[i..]);
      assert passes[i..][1..] == passes[i + 1..];
    }
    InMiddle(a, b, c, m);
    RunAppend(l, a, b[..m]);
    OnDiskIsRun(l, passes[..i]);
  }

  /**
   A pass that is not saved leaves no trace, wherever it comes: neither the failures it
   saw nor how far it scanned, so that the next pass scans there again.
   */
  lemma UnsavedLeavesNoTrace(l: Ledger, a: seq<Pass>, p: Pass, b: seq<Pass>)
    requires !p.saved
    ensures OnDisk(l, a + [p] + b) == OnDisk(l, a + b)
  {
    assert SavedSteps(a + [p] + b) == SavedSteps(a + b) by {
      SavedAppend(a + [p], b);
      SavedAppend(a, [p]);
      SavedAppend(a, b);
      assert [p][1..] == [] && SavedSteps([p]) == [];
    }
    OnDiskIsRun(l, a + [p] + b);
    OnDiskIsRun(l, a + b);
  }

  lemma {:induction false} SavedAdmissible(passes: seq<Pass>)
    requires AllAdmissible(passes)
    ensures forall s <- SavedSteps(passes) :: Admissible(s)
    decreases |passes|
  {
    if passes != [] {
      assert forall p <- passes[1..] :: p in passes;
      SavedAdmissible(passes[1..]);
      assert passes[0] in passes;
    }
  }

  /** Every ledger the disk ever holds would be accepted when read back. */
  lemma DiskValid(l: Ledger, passes: seq<Pass>)
    requires ValidLedger(l) && AllAdmissible(passes)
    ensures ValidLedger(OnDisk(l, passes))
  {
    OnDiskIsRun(l, passes);
    SavedAdmissible(passes);
    RunValid(l, SavedSteps(passes));
  }

  /** The step deals with `r`: an attempt resolves it, or its flagged phase starts over. */
  ghost predicate DealsWith(l: Ledger, s: Step, r: Retry) {
    Resolves(l, s, r) || Restarts(l, s, r.phase)
  }

  /** Recorded on disk: listed, or its phase flagged for a scan from the start. */
  predicate Recorded(l: Ledger, r: Retry) {
    r in l.retries || r.phase in l.overflow
  }

  lemma RecordedUntilDealtWith(l: Ledger, steps: seq<Step>, r: Retry)
    requires ValidLedger(l) && (forall s <- steps :: Admissible(s)) && Recorded(l, r)
    ensures Recorded(Run(l, steps), r) || exists k :: 0 <= k < |steps| && DealsWith(Run(l, steps[..k]), steps[k], r)
  {
    if r in l.retries {
      ListedUntilResolved(l, steps, r);
      if k :| 0 <= k < |steps| && Resolves(Run(l, steps[..k]), steps[k], r) {
        assert DealsWith(Run(l, steps[..k]), steps[k], r);
      }
    } else {
      FlaggedUntilRestart(l, steps, r.phase);
      if k :| 0 <= k < |steps| && Restarts(Run(l, steps[..k]), steps[k], r.phase) {
        assert DealsWith(Run(l, steps[..k]), steps[k], r);
      }
    }
  }

  /** The same from the step on that records the failure. */
  lemma FailureUntilDealtWith(l: Ledger, steps: seq<Step>, k: nat, r: Retry)
    requires ValidLedger(l) && (forall s <- steps :: Admissible(s)) && k < |steps| && steps[k] == NewFailure(r)
    ensures || Recorded(Run(l, steps), r)
            || exists j :: k < j < |steps| && DealsWith(Run(l, steps[..j]), steps[j], r)
  {
    var a, b := steps[..k + 1], steps[k + 1..];
    assert steps == a + b && a == steps[..k] + [steps[k]];
    RunAppend(l, a, b);
    RunAppend(l, steps[..k], [steps[k]]);
    RunValid(l, steps[..k]);
    RunValid(l, a);
    FailureIsRecorded(Run(l, steps[..k]), r);
    RecordedUntilDealtWith(Run(l, a), b, r);
    if i :| 0 <= i < |b| && DealsWith(Run(Run(l, a), b[..i]), b[i], r) {
      assert steps[..k + 1 + i] == a + b[..i];
      RunAppend(l, a, b[..i]);
      assert DealsWith(Run(l, steps[..k + 1 + i]), steps[k + 1 + i], r);
    }
  }

  /**
   No loss over passes, saved or not: a failure seen by a saved pass is recorded on
   disk until a step of that or a later saved pass deals with it.
   */
  lemma NothingIsLost(l: Ledger, passes: seq<Pass>, i: nat, m: nat, r: Retry)
    requires ValidLedger(l) && AllAdmissible(passes)
    requires i < |passes| && passes[i].saved && m < |passes[i].steps| && passes[i].steps[m] == NewFailure(r)
    ensures var saved := SavedSteps(passes);
            || Recorded(OnDisk(l, passes), r)
            || exists j :: SavedIndex(passes, i, m) < j < |saved| && DealsWith(Run(l, saved[..j]), saved[j], r)
  {
    SavedAdmissible(passes);
    SavedStepSees(l, passes, i, m);
    FailureUntilDealtWith(l, SavedSteps(passes), SavedIndex(passes, i, m), r);
    OnDiskIsRun(l, passes);
  }

  /** A full round over passes, saved or not: each pending retry has exactly one saved turn. */
  lemma FullRoundOnDisk(l: Ledger, passes: seq<Pass>, r: Retry) returns (k: nat)
    requires ValidLedger(l) && AllAdmissible(passes) && r in l.retries
    requires ListsNone(l, SavedSteps(passes), r.phase)
    requires Turns(l, SavedSteps(passes), r) == |Pending(l, r.phase)|
    ensures var saved := SavedSteps(passes);
            && k < |saved| && OwnTurnAt(l, saved, k, r)
            && forall j :: 0 <= j < |saved| && OwnTurnAt(l, saved, j, r) ==> j == k
  {
    SavedAdmissible(passes);
    k := FullRound(l, SavedSteps(passes), r);
  }
}
