/** The scan budgets over any mix of reads, and streams that resume where they stopped. */
module ScanLimits {
  import opened Common
  import opened RetryLedger
  import opened ScanBudget

  datatype Budget = Budget(maxDirectories: u64, maxEntries: u64, maxNameBytes: u64)

  datatype Stats = Stats(directories: u64, entries: u64, nameBytes: u64)

  datatype DirectoryFault = BudgetExhausted | ClockFault | IoFault

  function SaturatingAdd(a: u64, n: nat): u64 { Min(U64_MAX, a + n) }

  function SaturatingSub(a: u64, b: u64): nat { if a < b then 0 else a - b }

  predicate Validates(b: Budget) {
    b.maxDirectories >= MIN_READS && b.maxEntries >= MIN_ENTRIES && b.maxNameBytes >= MIN_NAME_BYTES
  }

  // ---------- Bounded reads ----------

  /** A bounded read starts only when its largest possible charge is left. */
  predicate Admits(b: Budget, s: Stats) {
    && s.directories < b.maxDirectories
    && SaturatingSub(b.maxEntries, s.entries) >= ENTRY_CHARGE
    && SaturatingSub(b.maxNameBytes, s.nameBytes) >= NAME_BYTE_CHARGE
  }

  function Charged(s: Stats, e: Enumeration): Stats {
    Stats(SaturatingAdd(s.directories, 1), SaturatingAdd(s.entries, e.entries), SaturatingAdd(s.nameBytes, e.nameBytes))
  }

  function FaultOf(f: ReadFault): DirectoryFault {
    match f
    case Cancelled => BudgetExhausted
    case ClockFailed => ClockFault
    case _ => IoFault
  }

  function BoundedRead(b: Budget, s: Stats, rounds: seq<Round>): (Stats, Result<seq<EntryName>, DirectoryFault>) {
    if !Admits(b, s) then (s, Err(BudgetExhausted))
    else
      var e := Enumerated(rounds, MAX_ENTRIES, MAX_NAME_BYTES);
      (Charged(s, e), match e.result case Ok(names) => Ok(names) case Err(f) => Err(FaultOf(f)))
  }

  // ---------- Streamed reads ----------

  /** What happens in the round that starts at a position: the clock, the read, the visitor. */
  datatype Visit = Visit(clock: Clock, fails: bool, stop: bool)

  datatype Flow = Finished | Stopped

  datatype Stream = Stream(stats: Stats, position: nat, visited: seq<EntryName>, outcome: Result<Flow, DirectoryFault>)

  /** Index of the next entry other than `.` and `..`, or the end. */
  function NextEntry(dir: seq<EntryName>, p: nat): (i: nat)
    requires p <= |dir|
    ensures p <= i <= |dir|
    ensures forall j :: p <= j < i ==> IsDot(dir[j])
    ensures i < |dir| ==> !IsDot(dir[i])
    decreases |dir| - p
  {
    if p == |dir| || !IsDot(dir[p]) then p else NextEntry(dir, p + 1)
  }

  function ChargedEntry(s: Stats, name: EntryName): Stats {
    s.(entries := SaturatingAdd(s.entries, 1), nameBytes := SaturatingAdd(s.nameBytes, |name|))
  }

  /** From position `p` on, when the entries `before` have been visited already. */
  function StreamFrom(b: Budget, s: Stats, dir: seq<EntryName>, p: nat, visits: nat -> Visit, before: seq<EntryName>)
    : (r: Stream)
    requires p <= |dir|
    ensures p <= r.position <= |dir|
    decreases |dir| - p
  {
    if s.entries >= b.maxEntries || s.nameBytes >= b.maxNameBytes || visits(p).clock.Exceeded? then
      Stream(s, p, before, Err(BudgetExhausted))
    else if visits(p).clock.Unavailable? then Stream(s, p, before, Err(ClockFault))
    else if visits(p).fails then Stream(s, p, before, Err(IoFault))
    else
      var i := NextEntry(dir, p);
      if i == |dir| then Stream(s, p, before, Ok(Finished))
      else if visits(p).stop then Stream(ChargedEntry(s, dir[i]), p, before + [dir[i]], Ok(Stopped))
      else StreamFrom(b, ChargedEntry(s, dir[i]), dir, i + 1, visits, before + [dir[i]])
  }

  function StreamRead(b: Budget, s: Stats, dir: seq<EntryName>, p: nat, opens: bool, visits: nat -> Visit): (r: Stream)
    requires p <= |dir|
    ensures p <= r.position <= |dir|
  {
    if s.directories >= b.maxDirectories then Stream(s, p, [], Err(BudgetExhausted))
    else
      var s1 := s.(directories := SaturatingAdd(s.directories, 1));
      if !opens then Stream(s1, p, [], Err(IoFault)) else StreamFrom(b, s1, dir, p, visits, [])
  }

  // ---------- The counters in place ----------

  class RecoveryScan {
    const budget: Budget
    var directories: u64
    var entries: u64
    var nameBytes: u64

    ghost function State(): Stats
      reads this
    {
      Stats(directories, entries, nameBytes)
    }

    constructor (budget: Budget)
      ensures this.budget == budget && State() == Stats(0, 0, 0)
    {
      this.budget := budget;
      directories, entries, nameBytes := 0, 0, 0;
    }

    method ReadDirectory(rounds: seq<Round>) returns (r: Result<seq<EntryName>, DirectoryFault>)
      modifies this
      ensures (State(), r) == BoundedRead(budget, old(State()), rounds)
    {
      if directories >= budget.maxDirectories { return Err(BudgetExhausted); }
      var remainingEntries := SaturatingSub(budget.maxEntries, entries);
      var remainingBytes := SaturatingSub(budget.maxNameBytes, nameBytes);
      if remainingEntries < ENTRY_CHARGE || remainingBytes < NAME_BYTE_CHARGE { return Err(BudgetExhausted); }
      directories := SaturatingAdd(directories, 1);
      var e := ReadDirEntryNames(rounds, MAX_ENTRIES, MAX_NAME_BYTES);
      entries := SaturatingAdd(entries, e.entries);
      nameBytes := SaturatingAdd(nameBytes, e.nameBytes);
      match e.result
      case Ok(names) => return Ok(names);
      case Err(f) => return Err(FaultOf(f));
    }

    /** Streams from `start`; `position` is where a later stream resumes. */
    method StreamDirectory(dir: seq<EntryName>, start: nat, opens: bool, visits: nat -> Visit)
      returns (position: nat, visited: seq<EntryName>, outcome: Result<Flow, DirectoryFault>)
      requires start <= |dir|
      modifies this
      ensures Stream(State(), position, visited, outcome) == StreamRead(budget, old(State()), dir, start, opens, visits)
    {
      position, visited := start, [];
      if directories >= budget.maxDirectories { return position, visited, Err(BudgetExhausted); }
      directories := SaturatingAdd(directories, 1);
      if !opens { return position, visited, Err(IoFault); }
      var at := start;
      ghost var whole := StreamFrom(budget, State(), dir, start, visits, []);
      while true
        invariant start <= at <= |dir|
        invariant StreamFrom(budget, State(), dir, at, visits, visited) == whole
        decreases |dir| - at
      {
        position := at;
        var visit := visits(at);
        if entries >= budget.maxEntries || nameBytes >= budget.maxNameBytes || visit.clock == Exceeded {
          return position, visited, Err(BudgetExhausted);
        }
        if visit.clock == Unavailable { return position, visited, Err(ClockFault); }
        if visit.fails { return position, visited, Err(IoFault); }
        var i := NextEntry(dir, at);
        if i == |dir| { return position, visited, Ok(Finished); }
        entries := SaturatingAdd(entries, 1);
        nameBytes := SaturatingAdd(nameBytes, |dir[i]|);
        visited := visited + [dir[i]];
        if visit.stop { return position, visited, Ok(Stopped); }
        at := i + 1;
      }
    }
  }

  // ---------- The budgets hold ----------

  /** Directories and entries within their maxima, name bytes at most 254 beyond. */
  predicate WithinBudget(b: Budget, s: Stats) {
    s.directories <= b.maxDirectories && s.entries <= b.maxEntries && s.nameBytes <= b.maxNameBytes + 254
  }

  lemma BoundedReadWithin(b: Budget, s: Stats, rounds: seq<Round>)
    requires WithinBudget(b, s)
    ensures WithinBudget(b, BoundedRead(b, s, rounds).0)
    ensures Admits(b, s) ==> BoundedRead(b, s, rounds).0.nameBytes <= b.maxNameBytes
  {
    EnumerateBounded(rounds, 0, MAX_ENTRIES, MAX_NAME_BYTES, []);
  }

  lemma {:induction false} StreamWithin(
      b: Budget, s: Stats, dir: seq<EntryName>, p: nat, visits: nat -> Visit, before: seq<EntryName>)
    requires WithinBudget(b, s) && p <= |dir|
    ensures WithinBudget(b, StreamFrom(b, s, dir, p, visits, before).stats)
    decreases |dir| - p
  {
    var i := NextEntry(dir, p);
    if i < |dir| && s.entries < b.maxEntries && s.nameBytes < b.maxNameBytes {
      StreamWithin(b, ChargedEntry(s, dir[i]), dir, i + 1, visits, before + [dir[i]]);
    }
  }

  datatype Read =
    | Bounded(rounds: seq<Round>)
    | Streamed(dir: seq<EntryName>, start: nat, opens: bool, visits: nat -> Visit)

  function AfterRead(b: Budget, s: Stats, r: Read): Stats {
    match r
    case Bounded(rounds) => BoundedRead(b, s, rounds).0
    case Streamed(dir, start, opens, visits) =>
      if start <= |dir| then StreamRead(b, s, dir, start, opens, visits).stats else s
  }

  function AfterReads(b: Budget, s: Stats, rs: seq<Read>): Stats
    decreases |rs|
  {
    if rs == [] then s else AfterReads(b, AfterRead(b, s, rs[0]), rs[1..])
  }

  /** No sequence of reads, of whatever directories, leaves the budgets. */
  lemma {:induction false} ReadsWithinBudget(b: Budget, s: Stats, rs: seq<Read>)
    requires WithinBudget(b, s)
    ensures WithinBudget(b, AfterReads(b, s, rs))
    decreases |rs|
  {
    if rs != [] {
      var s1 := AfterRead(b, s, rs[0]);
      match rs[0] {
        case Bounded(rounds) => BoundedReadWithin(b, s, rounds);
        case Streamed(dir, start, opens, visits) =>
          if start <= |dir| && s.directories < b.maxDirectories {
            StreamWithin(b, s.(directories := SaturatingAdd(s.directories, 1)), dir, start, visits, []);
          }
      }
      ReadsWithinBudget(b, s1, rs[1..]);
    }
  }

  // ---------- The smallest useful budget ----------

  /** What `n` successful bounded reads can have cost. */
  ghost predicate CostOf(n: nat, s: Stats) {
    s.directories == n && s.entries <= n * MAX_ENTRIES && s.nameBytes <= n * MAX_NAME_BYTES
  }

  lemma SuccessfulReadCost(b: Budget, s: Stats, n: nat, rounds: seq<Round>)
    requires CostOf(n, s) && n < MIN_READS && BoundedRead(b, s, rounds).1.Ok?
    ensures CostOf(n + 1, BoundedRead(b, s, rounds).0)
  {
    EnumerateBounded(rounds, 0, MAX_ENTRIES, MAX_NAME_BYTES, []);
  }

  /** A name of 255 bytes: three digits of the number in base 64, and padding. */
  function LongName(i: nat): EntryName {
    [64 + i / 4096 % 64, 64 + i / 64 % 64, 64 + i % 64] + seq(252, _ => 0x61)
  }

  /** A directory of the largest size a bounded read accepts. */
  function FullDirectory(n: nat): seq<Round> { seq(n, (i: nat) => Round(Within, Entry(LongName(i)))) }

  /** No two entries of a directory have the same name. */
  ghost predicate IsDirectory(rounds: seq<Round>) {
    forall i, j :: 0 <= i < j < |rounds| && rounds[i].item.Entry? ==> rounds[i].item != rounds[j].item
  }

  lemma FullDirectoryIsDirectory()
    ensures IsDirectory(FullDirectory(MAX_ENTRIES))
  {
    var d := FullDirectory(MAX_ENTRIES);
    forall i, j | 0 <= i < j < |d| ensures d[i].item != d[j].item { LongNamesDiffer(i, j); }
  }

  lemma LongNamesDiffer(i: nat, j: nat)
    requires i < j < MAX_ENTRIES
    ensures LongName(i) != LongName(j)
  {
    assert LongName(i)[0] == 64 + i / 4096 % 64 && LongName(i)[1] == 64 + i / 64 % 64 && LongName(i)[2] == 64 + i % 64;
    assert LongName(j)[0] == 64 + j / 4096 % 64 && LongName(j)[1] == 64 + j / 64 % 64 && LongName(j)[2] == 64 + j % 64;
    assert i / 4096 == i / 64 / 64 && j / 4096 == j / 64 / 64;
  }

  lemma {:induction false} FullNames(n: nat)
    ensures |NamesIn(FullDirectory(n))| == n && TotalBytes(NamesIn(FullDirectory(n))) == n * 255
  {
    if n > 0 {
      FullNames(n - 1);
      assert FullDirectory(n)[..n - 1] == FullDirectory(n - 1);
      TotalAppend(NamesIn(FullDirectory(n - 1)), LongName(n - 1));
    }
  }

  lemma FullReadCost(b: Budget, s: Stats)
    requires Admits(b, s)
    ensures var (next, r) := BoundedRead(b, s, FullDirectory(MAX_ENTRIES));
            && r.Ok?
            && next == Stats(s.directories + 1, s.entries + MAX_ENTRIES, s.nameBytes + MAX_NAME_BYTES)
  {
    var rounds := FullDirectory(MAX_ENTRIES);
    FullNames(MAX_ENTRIES);
    assert rounds[..MAX_ENTRIES] == rounds && EndsAt(rounds, MAX_ENTRIES);
    EnumerateExact(rounds, MAX_ENTRIES, MAX_NAME_BYTES, NamesIn(rounds));
    EnumerateBounded(rounds, 0, MAX_ENTRIES, MAX_NAME_BYTES, []);
  }

  /** The counters after bounded reads that all succeed, from a fresh start. */
  function ReadAll(b: Budget, rs: seq<seq<Round>>): Option<Stats> {
    if rs == [] then Some(Stats(0, 0, 0))
    else
      match ReadAll(b, rs[..|rs| - 1])
      case None => None
      case Some(s) =>
        var (next, r) := BoundedRead(b, s, rs[|rs| - 1]);
        if r.Ok? then Some(next) else None
  }

  /** After up to four successful reads, whatever directories they found, there is room for one more. */
  ghost predicate RoomForAFifth(b: Budget) {
    forall rs: seq<seq<Round>> {:trigger AllDirectories(rs)} ::
      |rs| < MIN_READS && AllDirectories(rs) && ReadAll(b, rs).Some? ==> Admits(b, ReadAll(b, rs).value)
  }

  ghost predicate AllDirectories(rs: seq<seq<Round>>) {
    forall r <- rs :: IsDirectory(r)
  }

  lemma {:induction false} ReadAllCost(b: Budget, rs: seq<seq<Round>>)
    requires |rs| < MIN_READS && ReadAll(b, rs).Some?
    ensures CostOf(|rs|, ReadAll(b, rs).value)
    decreases |rs|
  {
    if rs != [] {
      var front := rs[..|rs| - 1];
      ReadAllCost(b, front);
      SuccessfulReadCost(b, ReadAll(b, front).value, |front|, rs[|rs| - 1]);
    }
  }

  /** Each admitted read of the directory succeeds and costs the most a read can. */
  ghost predicate CostsMost(b: Budget, full: seq<Round>) {
    forall s: Stats :: Admits(b, s) ==>
      && BoundedRead(b, s, full).1.Ok?
      && BoundedRead(b, s, full).0 == Stats(s.directories + 1, s.entries + MAX_ENTRIES, s.nameBytes + MAX_NAME_BYTES)
  }

  lemma LargestDirectory(b: Budget) returns (full: seq<Round>)
    ensures IsDirectory(full) && CostsMost(b, full)
  {
    full := FullDirectory(MAX_ENTRIES);
    FullDirectoryIsDirectory();
    forall s: Stats | Admits(b, s)
      ensures && BoundedRead(b, s, full).1.Ok?
              && BoundedRead(b, s, full).0 ==
                   Stats(s.directories + 1, s.entries + MAX_ENTRIES, s.nameBytes + MAX_NAME_BYTES)
    {
      FullReadCost(b, s);
    }
  }

  function MostAfter(n: nat): Stats
    requires n < MIN_READS
  {
    Stats(n, n * MAX_ENTRIES, n * MAX_NAME_BYTES)
  }

  lemma MostAfterNext(n: nat, s: Stats)
    requires n + 1 < MIN_READS && s == MostAfter(n)
    ensures MostAfter(n + 1) == Stats(s.directories + 1, s.entries + MAX_ENTRIES, s.nameBytes + MAX_NAME_BYTES)
  {
  }

  lemma ReadOneMore(b: Budget, rs: seq<seq<Round>>, front: seq<seq<Round>>, full: seq<Round>, s: Stats)
    requires rs == front + [full] && ReadAll(b, front) == Some(s) && BoundedRead(b, s, full).1.Ok?
    ensures ReadAll(b, rs) == Some(BoundedRead(b, s, full).0)
  {
    assert rs[..|rs| - 1] == front;
  }

  lemma {:induction false} FullReads(b: Budget, rs: seq<seq<Round>>, full: seq<Round>)
    requires |rs| < MIN_READS && RoomForAFifth(b) && IsDirectory(full) && CostsMost(b, full)
    requires forall i :: 0 <= i < |rs| ==> rs[i] == full
    ensures ReadAll(b, rs) == Some(MostAfter(|rs|))
    decreases |rs|
  {
    if rs != [] {
      var front := rs[..|rs| - 1];
      FullReads(b, front, full);
      assert AllDirectories(front);
      assert Admits(b, MostAfter(|front|));
      ReadOneMore(b, rs, front, full, MostAfter(|front|));
      MostAfterNext(|front|, MostAfter(|front|));
    }
  }

  /** Validation accepts exactly the budgets that leave room for a fifth read after any four. */
  lemma MinimumBudgetExact(b: Budget)
    ensures Validates(b) <==> RoomForAFifth(b)
  {
    if Validates(b) {
      forall rs: seq<seq<Round>> | |rs| < MIN_READS && ReadAll(b, rs).Some? ensures Admits(b, ReadAll(b, rs).value)
      {
        ReadAllCost(b, rs);
      }
    }
    if RoomForAFifth(b) {
      var full := LargestDirectory(b);
      var rs := [full, full, full, full];
      FullReads(b, rs, full);
      assert AllDirectories(rs);
      assert Admits(b, ReadAll(b, rs).value);
    }
  }

  // ---------- Streams resume without a gap ----------

  function Entries(dir: seq<EntryName>): seq<EntryName> {
    if dir == [] then [] else (if IsDot(dir[0]) then [] else [dir[0]]) + Entries(dir[1..])
  }

  lemma {:induction false} EntriesConcat(a: seq<EntryName>, b: seq<EntryName>)
    ensures Entries(a + b) == Entries(a) + Entries(b)
    decreases |a|
  {
    if a == [] {
      assert a + b == b;
    } else {
      FirstOfConcat(a, b);
      EntriesConcat(a[1..], b);
      Assoc(if IsDot(a[0]) then [] else [a[0]], Entries(a[1..]), Entries(b));
    }
  }

  lemma {:induction false} OnlyDots(dir: seq<EntryName>)
    requires forall n <- dir :: IsDot(n)
    ensures Entries(dir) == []
    decreases |dir|
  {
    if dir != [] { OnlyDots(dir[1..]); }
  }

  /** The entries a stream is done with: all it visited but the one it stopped at. */
  function Done(r: Stream): seq<EntryName> {
    if r.outcome == Ok(Stopped) && r.visited != [] then r.visited[..|r.visited| - 1] else r.visited
  }

  lemma EntriesAt(dir: seq<EntryName>, p: nat, i: nat, q: nat)
    requires p <= i < q <= |dir| && i == NextEntry(dir, p)
    ensures Entries(dir[p..q]) == [dir[i]] + Entries(dir[i + 1..q])
  {
    OnlyDots(dir[p..i]);
    assert dir[p..q] == dir[p..i] + dir[i..q];
    EntriesConcat(dir[p..i], dir[i..q]);
    assert dir[i..q][0] == dir[i] && dir[i..q][1..] == dir[i + 1..q];
  }

  /** Whether the round at `p` hands its entry on and the stream continues. */
  predicate Continues(b: Budget, s: Stats, dir: seq<EntryName>, p: nat, v: Visit)
    requires p <= |dir|
  {
    && s.entries < b.maxEntries && s.nameBytes < b.maxNameBytes && v.clock.Within? && !v.fails && !v.stop
    && NextEntry(dir, p) < |dir|
  }

  /** A round that does not continue ends the stream where it stands. */
  lemma LastRound(b: Budget, s: Stats, dir: seq<EntryName>, p: nat, visits: nat -> Visit, before: seq<EntryName>)
    requires p <= |dir| && !Continues(b, s, dir, p, visits(p))
    ensures var r := StreamFrom(b, s, dir, p, visits, before);
            var i := NextEntry(dir, p);
            && r.position == p && Done(r) == before
            && (r.outcome == Ok(Finished) ==> i == |dir|)
            && (r.outcome == Ok(Stopped) ==> i < |dir| && r.visited == before + [dir[i]])
  {
  }

  lemma StreamStep(b: Budget, s: Stats, dir: seq<EntryName>, p: nat, visits: nat -> Visit, before: seq<EntryName>, i: nat)
    requires p <= |dir| && i == NextEntry(dir, p) && Continues(b, s, dir, p, visits(p))
    ensures StreamFrom(b, s, dir, p, visits, before)
         == StreamFrom(b, ChargedEntry(s, dir[i]), dir, i + 1, visits, before + [dir[i]])
  {
  }

  lemma CoversOneMore(dir: seq<EntryName>, p: nat, i: nat, r: Stream, before: seq<EntryName>)
    requires p <= i < r.position <= |dir| && i == NextEntry(dir, p)
    requires Done(r) == (before + [dir[i]]) + Entries(dir[i + 1..r.position])
    ensures Done(r) == before + Entries(dir[p..r.position])
  {
    EntriesAt(dir, p, i, r.position);
    Assoc(before, [dir[i]], Entries(dir[i + 1..r.position]));
  }

  /** A stream is done with exactly the entries between its two positions. */
  lemma {:induction false} StreamCovers(
      b: Budget, s: Stats, dir: seq<EntryName>, p: nat, visits: nat -> Visit, before: seq<EntryName>)
    requires p <= |dir|
    ensures var r := StreamFrom(b, s, dir, p, visits, before); Done(r) == before + Entries(dir[p..r.position])
    decreases |dir| - p
  {
    if Continues(b, s, dir, p, visits(p)) {
      var i := NextEntry(dir, p);
      StreamCovers(b, ChargedEntry(s, dir[i]), dir, i + 1, visits, before + [dir[i]]);
      StreamStep(b, s, dir, p, visits, before, i);
      CoversOneMore(dir, p, i, StreamFrom(b, s, dir, p, visits, before), before);
    } else {
      LastRound(b, s, dir, p, visits, before);
      assert dir[p..p] == [] && before + [] == before;
    }
  }

  /** A finished stream leaves nothing; a stopped one leaves the entry it stopped at first. */
  ghost predicate Leaves(r: Stream, left: seq<EntryName>) {
    && (r.outcome == Ok(Finished) ==> left == [])
    && (r.outcome == Ok(Stopped) ==> r.visited != [] && left != [] && r.visited[|r.visited| - 1] == left[0])
  }

  lemma {:induction false} StreamLeaves(
      b: Budget, s: Stats, dir: seq<EntryName>, p: nat, visits: nat -> Visit, before: seq<EntryName>)
    requires p <= |dir|
    ensures var r := StreamFrom(b, s, dir, p, visits, before); Leaves(r, Entries(dir[r.position..]))
    decreases |dir| - p
  {
    if Continues(b, s, dir, p, visits(p)) {
      var i := NextEntry(dir, p);
      StreamLeaves(b, ChargedEntry(s, dir[i]), dir, i + 1, visits, before + [dir[i]]);
      StreamStep(b, s, dir, p, visits, before, i);
    } else {
      LastRound(b, s, dir, p, visits, before);
      EndLeaves(StreamFrom(b, s, dir, p, visits, before), dir, p, before);
    }
  }

  lemma EndLeaves(r: Stream, dir: seq<EntryName>, p: nat, before: seq<EntryName>)
    requires p <= |dir| && (r.outcome == Ok(Finished) ==> NextEntry(dir, p) == |dir|)
    requires r.outcome == Ok(Stopped) ==> NextEntry(dir, p) < |dir| && r.visited == before + [dir[NextEntry(dir, p)]]
    ensures Leaves(r, Entries(dir[p..]))
  {
    var i := NextEntry(dir, p);
    if i == |dir| {
      OnlyDots(dir[p..]);
    } else {
      assert dir[p..] == dir[p..|dir|];
      EntriesAt(dir, p, i, |dir|);
    }
  }

  /** Passes over one directory, each with what the directory then holds. */
  datatype Pass = Pass(dir: seq<EntryName>, budget: Budget, stats: Stats, opens: bool, visits: nat -> Visit)

  function PassRead(ps: Pass, p: nat): (r: Stream)
    requires p <= |ps.dir|
    ensures p <= r.position <= |ps.dir|
  {
    StreamRead(ps.budget, ps.stats, ps.dir, p, ps.opens, ps.visits)
  }

  /** The directory may change between passes, but not before the position reached. */
  predicate StableFrom(p: nat, ps: seq<Pass>)
    decreases |ps|
  {
    ps != [] ==>
      && p <= |ps[0].dir|
      && var q := PassRead(ps[0], p).position;
         && (|ps| > 1 ==> q <= |ps[1].dir| && ps[1].dir[..q] == ps[0].dir[..q])
         && StableFrom(q, ps[1..])
  }

  function Resumed(p: nat, ps: seq<Pass>): (seq<EntryName>, nat)
    requires StableFrom(p, ps)
    decreases |ps|
  {
    if ps == [] then ([], p)
    else
      var r := PassRead(ps[0], p);
      var (rest, end) := Resumed(r.position, ps[1..]);
      (Done(r) + rest, end)
  }

  lemma PassCovers(ps: Pass, p: nat)
    requires p <= |ps.dir|
    ensures Done(PassRead(ps, p)) == Entries(ps.dir[p..PassRead(ps, p).position])
  {
    assert ps.dir[p..p] == [];
    StreamCovers(ps.budget, ps.stats.(directories := SaturatingAdd(ps.stats.directories, 1)), ps.dir, p, ps.visits, []);
  }

  /**
   However the passes are cut short, and whatever changes beyond the positions they resume
   from, together they handle each entry up to the last position once and in order.
   */
  lemma {:induction false} PassesCover(p: nat, ps: seq<Pass>)
    requires ps != [] && StableFrom(p, ps)
    ensures var (done, end) := Resumed(p, ps);
            var dir := ps[|ps| - 1].dir;
            && p <= end <= |dir| && dir[..p] == ps[0].dir[..p] && done == Entries(dir[p..end])
    decreases |ps|
  {
    var first, q := ps[0].dir, PassRead(ps[0], p).position;
    PassCovers(ps[0], p);
    if |ps| == 1 {
      assert Resumed(q, ps[1..]) == ([], q);
    } else {
      PassesCover(q, ps[1..]);
      var (rest, end) := Resumed(q, ps[1..]);
      var dir := ps[|ps| - 1].dir;
      assert dir[..q] == first[..q];
      JoinCovers(first, dir, p, q, end);
    }
  }

  lemma JoinCovers(first: seq<EntryName>, dir: seq<EntryName>, p: nat, q: nat, end: nat)
    requires p <= q <= end <= |dir| && q <= |first| && dir[..q] == first[..q]
    ensures dir[..p] == first[..p]
    ensures Entries(first[p..q]) + Entries(dir[q..end]) == Entries(dir[p..end])
  {
    assert dir[..p] == dir[..q][..p] && first[..p] == first[..q][..p];
    assert first[p..q] == first[..q][p..] && dir[p..q] == dir[..q][p..];
    assert dir[p..end] == dir[p..q] + dir[q..end];
    EntriesConcat(dir[p..q], dir[q..end]);
  }
}
