/**
 Time buckets and the rollback-safe wall floor: a durable high-water bucket,
 shared by any number of queue handles that each cache their last floor.
 */
module WallFloor {
  import opened Common
  import opened Arithmetic

  // ---------- Buckets ----------

  function CeilingBucket(t: u64, width: u64): Option<u64> {
    if width == 0 then None
    else
      DivLe(t, width);
      var q := t / width;
      if t % width == 0 then Some(q) else if q == U64_MAX then None else Some(q + 1)
  }

  /** A delayed job waits for the bucket that starts at or after the requested time. */
  function Eligibility(requested: u64, width: u64): Option<(u64, u64)> {
    match CeilingBucket(requested, width)
    case None => None
    case Some(b) => if b * width > U64_MAX then None else Some((b, Times(b, width)))
  }

  function Times(a: nat, b: nat): nat { a * b }

  /** The eligible time is the first bucket start not before the requested time. */
  lemma EligibilityExact(requested: u64, width: u64)
    requires width >= 1
    ensures match Eligibility(requested, width)
            case Some((b, ns)) => ns == b * width && requested <= ns < requested + width
            case None => forall b: nat :: b * width >= requested ==> b * width > U64_MAX
  {
    DivLe(requested, width);
    var q := requested / width;
    QuotientExact(requested, width, q);
    assert requested == q * width + requested % width;
    assert (q + 1) * width == q * width + width;
    if Eligibility(requested, width).None? {
      forall b: nat | b * width >= requested ensures b * width > U64_MAX {
        if b <= q { MulMono(b, q, width); } else { MulMono(q + 1, b, width); }
        if CeilingBucket(requested, width).None? {
          assert (q + 1) * width >= q + 1 by { MulMono(1, width, q + 1); }
        }
      }
    }
  }

  /** Comparing times and comparing buckets agree about eligibility. */
  lemma EligibleByBucket(floor: u64, requested: u64, width: u64)
    requires width >= 1 && Eligibility(requested, width).Some?
    ensures floor >= Eligibility(requested, width).value.1
       <==> floor / width >= Eligibility(requested, width).value.0
  {
    var (b, ns) := Eligibility(requested, width).value;
    StartedByBucket(floor, b, ns, width);
  }

  lemma StartedByBucket(t: nat, b: nat, start: nat, width: nat)
    requires width >= 1 && start == b * width
    ensures t >= start <==> t / width >= b
  {
    var q := t / width;
    QuotientExact(t, width, q);
    MulMono(Min(b, q), q, width);
    MulMono(Min(q + 1, b), b, width);
  }

  /** Later in delayed buckets means not earlier in terminal buckets. */
  lemma CoarserBuckets(a: nat, b: nat, width: nat, k: nat)
    requires width >= 1 && k >= 1 && a / width <= b / width
    ensures k * width >= 1 && a / (k * width) <= b / (k * width)
  {
    MulMono(1, k, width);
    NestedDivision(a, width, k);
    NestedDivision(b, width, k);
    DivMonotone(a / width, b / width, k);
  }

  // ---------- The floor ----------

  datatype Record = Record(bucket: u64, sequence: u64)

  datatype Floor = Floor(ns: u64, bucket: u64, sequence: u64)

  datatype FloorError = Overflow | SequenceExhausted | WriteFailed

  /** The advance as the disk sees it: not done, done but reported as failed, done. */
  datatype WriteResult = NotWritten | WrittenNotConfirmed | Written

  function EffectiveWallFloor(clock: u64, bucket: u64, width: u64): Option<u64> {
    if width == 0 || bucket * width > U64_MAX then None else Some(Max(clock, Times(bucket, width)))
  }

  function Authenticated(r: Record, clock: u64, width: u64): Result<Floor, FloorError> {
    match EffectiveWallFloor(clock, r.bucket, width)
    case None => Err(Overflow)
    case Some(ns) => Ok(Floor(ns, r.bucket, r.sequence))
  }

  /** Under the lock: read, and raise the record when the floor has left its bucket. */
  function Stabilized(r: Record, clock: u64, write: WriteResult, width: u64): (Record, Result<Floor, FloorError>)
    requires width >= 1
  {
    match Authenticated(r, clock, width)
    case Err(e) => (r, Err(e))
    case Ok(observed) =>
      DivLe(observed.ns, width);
      var bucket := observed.ns / width;
      if bucket <= r.bucket then (r, Ok(observed))
      else if r.sequence == U64_MAX then (r, Err(SequenceExhausted))
      else
        var next := Record(bucket, r.sequence + 1);
        match write
        case NotWritten => (r, Err(WriteFailed))
        case WrittenNotConfirmed => (next, Err(WriteFailed))
        case Written => (next, Ok(Floor(observed.ns, bucket, r.sequence + 1)))
  }

  type Handle = nat

  datatype Shared = Shared(record: Record, cache: map<Handle, Floor>)

  /** One request for a floor: the handle, two clock readings and the write's fate. */
  datatype Request = Request(handle: Handle, clock: u64, laterClock: u64, write: WriteResult)

  function Cached(s: Shared, q: Request, width: u64): Option<Floor>
    requires width >= 1
  {
    if q.handle !in s.cache then None
    else
      match Authenticated(s.record, q.clock, width)
      case Err(_) => None
      case Ok(now) =>
        var last := s.cache[q.handle];
        if now.ns / width == now.bucket && last.bucket == now.bucket && last.sequence == now.sequence then
          Some(now.(ns := Max(last.ns, now.ns)))
        else None
  }

  /** The floor a mutation uses. */
  function FloorForMutation(s: Shared, q: Request, width: u64): (Shared, Result<Floor, FloorError>)
    requires width >= 1
  {
    if q.handle in s.cache && Authenticated(s.record, q.clock, width).Err? then (s, Err(Overflow))
    else if Cached(s, q, width).Some? then
      var f := Cached(s, q, width).value;
      (s.(cache := s.cache[q.handle := f]), Ok(f))
    else
      var (record, r) := Stabilized(s.record, q.laterClock, q.write, width);
      match r
      case Err(e) => (s.(record := record), Err(e))
      case Ok(f) => (Shared(record, s.cache[q.handle := f]), Ok(f))
  }

  /** A cached floor lies in the bucket it was recorded with. */
  ghost predicate Inv(s: Shared, width: u64)
    requires width >= 1
  {
    && (forall h <- s.cache :: s.cache[h].ns / width == s.cache[h].bucket)
    && (s.cache != map[] ==> s.record.bucket * width <= U64_MAX)
  }

  lemma StabilizedExact(r: Record, clock: u64, write: WriteResult, width: u64)
    requires width >= 1
    ensures var (next, f) := Stabilized(r, clock, write, width);
            && next.bucket >= r.bucket
            && (r.bucket * width <= U64_MAX ==> next.bucket * width <= U64_MAX)
            && (f.Ok? ==> f.value.ns >= clock && f.value.ns / width == f.value.bucket == next.bucket
                          && f.value.sequence == next.sequence && next.bucket * width <= U64_MAX)
  {
    if Authenticated(r, clock, width).Ok? {
      var ns := Authenticated(r, clock, width).value.ns;
      QuotientExact(ns, width, ns / width);
      DivMonotone(r.bucket * width, ns, width);
      QuotientExact(r.bucket * width, width, r.bucket);
    }
  }

  /** A floor always lies in the stored bucket, which never falls; floors only fail before the first one. */
  lemma FloorStep(s: Shared, q: Request, width: u64)
    requires width >= 1 && Inv(s, width)
    ensures var (next, f) := FloorForMutation(s, q, width);
            && Inv(next, width)
            && next.record.bucket >= s.record.bucket
            && (f.Ok? ==> f.value.ns / width == next.record.bucket && next.record.bucket * width <= U64_MAX)
            && (s.record.bucket * width <= U64_MAX ==> next.record.bucket * width <= U64_MAX)
            && (s.record.bucket * width <= U64_MAX ==> f != Err(Overflow))
  {
    StabilizedExact(s.record, q.laterClock, q.write, width);
    if Cached(s, q, width).Some? {
      var f := Cached(s, q, width).value;
      var last := s.cache[q.handle];
      assert last.ns / width == last.bucket == s.record.bucket;
      assert f.ns / width == s.record.bucket;
    }
  }

  /** The floors handed out, in order. */
  function Floors(s: Shared, qs: seq<Request>, width: u64): seq<u64>
    requires width >= 1
    decreases |qs|
  {
    if qs == [] then []
    else
      var (next, f) := FloorForMutation(s, qs[0], width);
      (if f.Ok? then [f.value.ns] else []) + Floors(next, qs[1..], width)
  }

  lemma {:induction false} FloorsStartAt(s: Shared, qs: seq<Request>, width: u64)
    requires width >= 1 && Inv(s, width)
    ensures forall i :: 0 <= i < |Floors(s, qs, width)| ==> s.record.bucket <= Floors(s, qs, width)[i] / width
    decreases |qs|
  {
    if qs != [] {
      FloorStep(s, qs[0], width);
      FloorsStartAt(FloorForMutation(s, qs[0], width).0, qs[1..], width);
    }
  }

  /** No floor lies in an earlier bucket than one handed out before it. */
  ghost predicate NeverFalls(floors: seq<u64>, width: u64)
    requires width >= 1
  {
    forall i, k :: 0 <= i < k < |floors| ==> floors[i] / width <= floors[k] / width
  }

  lemma NeverFallsFrom(first: u64, rest: seq<u64>, width: u64)
    requires width >= 1 && NeverFalls(rest, width)
    requires forall i :: 0 <= i < |rest| ==> first / width <= rest[i] / width
    ensures NeverFalls([first] + rest, width)
  {
    var floors := [first] + rest;
    forall i, k | 0 <= i < k < |floors| ensures floors[i] / width <= floors[k] / width {
      assert floors[k] == rest[k - 1] && (i > 0 ==> floors[i] == rest[i - 1]);
    }
  }

  /** Whatever the clocks say and whichever handles ask, no floor falls into an earlier bucket. */
  lemma {:induction false} NoEarlierDelayedBucket(s: Shared, qs: seq<Request>, width: u64)
    requires width >= 1 && Inv(s, width)
    ensures NeverFalls(Floors(s, qs, width), width)
    decreases |qs|
  {
    if qs != [] {
      var (next, f) := FloorForMutation(s, qs[0], width);
      FloorStep(s, qs[0], width);
      NoEarlierDelayedBucket(next, qs[1..], width);
      FloorsStartAt(next, qs[1..], width);
      var rest := Floors(next, qs[1..], width);
      if f.Ok? { NeverFallsFrom(f.value.ns, rest, width); } else { assert [] + rest == rest; }
    }
  }

  /** The same for terminal buckets, whose width is a multiple of the delayed width. */
  lemma NoEarlierTerminalBucket(s: Shared, qs: seq<Request>, width: u64, terminal: u64)
    requires width >= 1 && terminal >= 1 && terminal % width == 0 && Inv(s, width)
    ensures NeverFalls(Floors(s, qs, width), terminal)
  {
    NoEarlierDelayedBucket(s, qs, width);
    CoarserNeverFalls(Floors(s, qs, width), width, terminal);
  }

  lemma CoarserNeverFalls(floors: seq<u64>, width: u64, terminal: u64)
    requires width >= 1 && terminal >= 1 && terminal % width == 0 && NeverFalls(floors, width)
    ensures NeverFalls(floors, terminal)
  {
    var m := terminal / width;
    assert terminal == m * width;
    assert m == 0 ==> m * width == 0;
    forall i, k | 0 <= i < k < |floors| ensures floors[i] / terminal <= floors[k] / terminal {
      CoarserBuckets(floors[i], floors[k], width, m);
    }
  }

  /**
   The divisor rule is needed: for any other terminal width, a clock that falls
   back after reading `terminal` gives a floor in an earlier terminal bucket.
   */
  lemma MultipleIsNeeded(width: u64, terminal: u64)
    requires width >= 1 && terminal >= 1 && terminal % width != 0
    ensures var s := Shared(Record(0, 0), map[]);
            var qs := [Request(0, terminal, terminal, Written), Request(1, 0, 0, Written)];
            Inv(s, width) && !NeverFalls(Floors(s, qs, width), terminal)
  {
    var s := Shared(Record(0, 0), map[]);
    var a, b := Request(0, terminal, terminal, Written), Request(1, 0, 0, Written);
    DivLe(terminal, width);
    var stored := terminal / width;
    var start := terminal - terminal % width;
    assert start == stored * width;
    var s1, f1 := FloorForMutation(s, a, width).0, FloorForMutation(s, a, width).1;
    assert f1.Ok? && f1.value.ns == terminal && (stored == 0 ==> s1.record == Record(0, 0));
    assert s1.record.bucket == stored && 1 !in s1.cache;
    assert FloorForMutation(s1, b, width).1 == Ok(Floor(start, stored, s1.record.sequence));
    assert [a, b][1..] == [b] && [b][1..] == [];
    assert Floors(s1, [b], width) == [start];
    assert Floors(s, [a, b], width) == [terminal] + [start];
    QuotientExact(terminal, terminal, 1);
    QuotientExact(start, terminal, 0);
    assert Floors(s, [a, b], width)[1] / terminal < Floors(s, [a, b], width)[0] / terminal;
  }

  /** Once a floor was handed out, the product never overflows again. */
  lemma {:induction false} NoOverflowAfterFloor(s: Shared, qs: seq<Request>, width: u64)
    requires width >= 1 && Inv(s, width) && s.record.bucket * width <= U64_MAX
    ensures forall i :: 0 <= i < |qs| ==> FloorForMutation(After(s, qs[..i], width), qs[i], width).1 != Err(Overflow)
    decreases |qs|
  {
    if qs != [] {
      FloorStep(s, qs[0], width);
      var next := FloorForMutation(s, qs[0], width).0;
      NoOverflowAfterFloor(next, qs[1..], width);
      assert qs[..0] == [];
      forall i | 0 < i < |qs|
        ensures FloorForMutation(After(s, qs[..i], width), qs[i], width).1 != Err(Overflow)
      {
        assert qs[..i][1..] == qs[1..][..i - 1] && qs[i] == qs[1..][i - 1];
      }
    }
  }

  function After(s: Shared, qs: seq<Request>, width: u64): Shared
    requires width >= 1
    decreases |qs|
  {
    if qs == [] then s else After(FloorForMutation(s, qs[0], width).0, qs[1..], width)
  }
}
