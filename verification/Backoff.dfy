/** Retry delays: exponential backoff with a cap and rejection-sampled jitter. */
module Backoff {
  import opened Common
  import opened Arithmetic

  const DRAWS := 64

  datatype RetryPolicy = RetryPolicy(baseMs: u64, capMs: u64, useJitter: bool, maxDelayMs: Option<u64>)

  datatype RetryError = ZeroBase | CapTooSmall

  function EffectiveCap(p: RetryPolicy): u64 {
    if p.maxDelayMs.Some? then Min(p.capMs, p.maxDelayMs.value) else p.capMs
  }

  function ValidatePolicy(p: RetryPolicy): Option<RetryError> {
    if p.baseMs == 0 then Some(ZeroBase) else if EffectiveCap(p) < p.baseMs then Some(CapTooSmall) else None
  }

  function Pow2(n: nat): (p: nat)
    ensures p >= 1
  {
    if n == 0 then 1 else 2 * Pow2(n - 1)
  }

  /** `base` shifted left by `exp - 1`, saturating. */
  function SaturatingDouble(base: u64, exp: u32): u64 {
    if exp == 0 || base == 0 then base
    else if exp > 64 then U64_MAX
    else
      var shift := exp - 1;
      if shift >= 64 || base > U64_MAX / Pow2(shift) then U64_MAX
      else
        ShiftFits(base, shift);
        base * Pow2(shift)
  }

  lemma ShiftFits(base: u64, shift: nat)
    requires base <= U64_MAX / Pow2(shift)
    ensures 0 <= base * Pow2(shift) <= U64_MAX
  {
  }

  function Ceiling(p: RetryPolicy, attempt: u32): u64 {
    Min(EffectiveCap(p), SaturatingDouble(p.baseMs, attempt))
  }

  function Lower(ceiling: u64): u64 { (ceiling + 1) / 2 }

  function Span(ceiling: u64): (s: nat)
    ensures 1 <= s <= ceiling + 1 && Lower(ceiling) + s == ceiling + 1
  {
    ceiling - Lower(ceiling) + 1
  }

  /** `2^64 - span` modulo `span`: draws below it are thrown away. */
  function Threshold(span: nat): nat
    requires 1 <= span <= U64_LIMIT
  {
    (U64_LIMIT - span) % span
  }

  /** The first accepted draw decides; without one, the middle does. */
  function Offset(draws: seq<u64>, span: nat): (o: nat)
    requires 1 <= span <= U64_LIMIT
    ensures o < span
  {
    if draws == [] then span / 2
    else if draws[0] >= Threshold(span) then draws[0] % span
    else Offset(draws[1..], span)
  }

  function Delay(p: RetryPolicy, attempt: u32, draws: seq<u64>): Result<nat, RetryError>
    requires |draws| == DRAWS
  {
    if ValidatePolicy(p).Some? then Err(ValidatePolicy(p).value)
    else if attempt == 0 then Ok(0)
    else
      var c := Ceiling(p, attempt);
      if !p.useJitter then Ok(c) else Ok(Lower(c) + Offset(draws, Span(c)))
  }

  method DrawOffset(draws: seq<u64>, span: nat, threshold: nat) returns (offset: nat)
    requires 1 <= span <= U64_LIMIT && threshold == Threshold(span)
    ensures offset == Offset(draws, span)
  {
    for counter := 0 to |draws|
      invariant Offset(draws[counter..], span) == Offset(draws, span)
    {
      var x := draws[counter];
      assert draws[counter..][0] == x && draws[counter..][1..] == draws[counter + 1..];
      if x >= threshold { return x % span; }
    }
    return span / 2;
  }

  /**
   The delay in milliseconds.  `draws` are the leading 64 bits of the hash of
   queue, job, attempt and counter, for counters 0 to 63.
   */
  method RetryDelayMs(p: RetryPolicy, attempt: u32, draws: seq<u64>) returns (r: Result<u64, RetryError>)
    requires |draws| == DRAWS
    ensures r == Delay(p, attempt, draws)
  {
    var fault := ValidatePolicy(p);
    if fault.Some? { return Err(fault.value); }
    if attempt == 0 { return Ok(0); }
    var ceiling := Ceiling(p, attempt);
    if !p.useJitter { return Ok(ceiling); }
    var lower := Lower(ceiling);
    var span := Span(ceiling);
    var threshold := Threshold(span);
    var offset := DrawOffset(draws, span, threshold);
    return Ok(lower + offset);
  }

  // ---------- Doubling ----------

  lemma {:induction false} Pow2Add(a: nat, b: nat)
    ensures Pow2(a + b) == Pow2(a) * Pow2(b)
  {
    if a > 0 {
      Pow2Add(a - 1, b);
      MulAssoc(2, Pow2(a - 1), Pow2(b));
    }
  }

  lemma {:induction false} Pow2Grows(a: nat, b: nat)
    requires a <= b
    ensures Pow2(a) <= Pow2(b)
  {
    if a < b { Pow2Grows(a, b - 1); }
  }

  lemma Pow2Square(n: nat, p: nat)
    requires Pow2(n) == p
    ensures Pow2(n + n) == p * p
  {
    Pow2Add(n, n);
  }

  lemma Pow2Of64()
    ensures Pow2(64) == U64_LIMIT
  {
    Pow2Square(1, 2);
    Pow2Square(2, 4);
    Pow2Square(4, 16);
    Pow2Square(8, 256);
    Pow2Square(16, 65536);
    Pow2Square(32, U32_LIMIT);
  }

  lemma LargeShift(base: nat, shift: nat)
    requires base >= 1 && shift >= 64
    ensures base * Pow2(shift) >= U64_LIMIT
  {
    Pow2Of64();
    Pow2Grows(64, shift);
    MulMono(1, base, Pow2(shift));
  }

  /** Saturating doubling is exact doubling, cut off at the largest 64-bit value. */
  lemma DoublingExact(base: u64, exp: u32)
    requires exp >= 1
    ensures SaturatingDouble(base, exp) == Min(U64_MAX, base * Pow2(exp - 1))
  {
    var shift := exp - 1;
    if base == 0 {
      MulMono(base, 0, Pow2(shift));
    } else if shift >= 64 {
      LargeShift(base, shift);
    } else if base > U64_MAX / Pow2(shift) {
      DivBelow(U64_MAX, Pow2(shift), base);
    } else {
      ShiftFits(base, shift);
    }
  }

  lemma CeilingExact(p: RetryPolicy, attempt: u32)
    requires attempt >= 1
    ensures Ceiling(p, attempt) == Min(EffectiveCap(p), p.baseMs * Pow2(attempt - 1))
  {
    DoublingExact(p.baseMs, attempt);
  }

  // ---------- Jitter ----------

  /** Every delay from half the ceiling, rounded up, to the ceiling can occur, and no other. */
  lemma DelayRange(p: RetryPolicy, attempt: u32, d: nat)
    requires ValidatePolicy(p).None? && attempt >= 1 && p.useJitter
    ensures (exists draws: seq<u64> :: |draws| == DRAWS && Delay(p, attempt, draws) == Ok(d))
       <==> Lower(Ceiling(p, attempt)) <= d <= Ceiling(p, attempt)
  {
    var c := Ceiling(p, attempt);
    if Lower(c) <= d <= c {
      var draws := DrawsFor(Span(c), d - Lower(c));
      assert Delay(p, attempt, draws) == Ok(d);
    }
  }

  lemma DrawsFor(span: nat, offset: nat) returns (draws: seq<u64>)
    requires 1 <= span <= U64_LIMIT && offset < span
    ensures |draws| == DRAWS && Offset(draws, span) == offset
  {
    var x := DrawFor(span, offset);
    draws := seq(DRAWS, i => x);
  }

  /** An accepted draw for each offset: the first one. */
  lemma DrawFor(span: nat, offset: nat) returns (x: u64)
    requires 1 <= span <= U64_LIMIT && offset < span
    ensures x >= Threshold(span) && x % span == offset
  {
    ThresholdExact(span);
    var q, t, d := U64_LIMIT / span, Threshold(span), NextCongruent(Threshold(span), span, offset);
    assert q == 0 ==> q * span == 0;
    assert q * span >= span;
    NextIsCongruent(t, span, offset, d);
    x := t + d;
  }

  /** Distance from `m` to the next number congruent to `offset`. */
  function NextCongruent(m: nat, span: nat, offset: nat): (d: nat)
    requires offset < span
    ensures d < span
  {
    var r := m % span;
    if r <= offset then offset - r else span + offset - r
  }

  lemma NextIsCongruent(m: nat, span: nat, offset: nat, d: nat)
    requires offset < span && d < span
    ensures (m + d) % span == offset <==> d == NextCongruent(m, span, offset)
  {
    var q, r := m / span, m % span;
    assert m == q * span + r;
    if r + d < span {
      ModUnique(m + d, span, q, r + d);
    } else {
      assert (q + 1) * span == q * span + span;
      ModUnique(m + d, span, q + 1, r + d - span);
    }
  }

  /** What is accepted is a whole number of spans. */
  lemma ThresholdExact(span: nat)
    requires 1 <= span <= U64_LIMIT
    ensures Threshold(span) == U64_LIMIT % span
    ensures U64_LIMIT == Threshold(span) + U64_LIMIT / span * span
  {
    var q, r := U64_LIMIT / span, U64_LIMIT % span;
    assert U64_LIMIT == q * span + r;
    assert q == 0 ==> q * span == 0;
    assert (q - 1) * span == q * span - span;
    ModUnique(U64_LIMIT - span, span, q - 1, r);
  }

  /** The accepted draws that give one offset. */
  ghost function Accepted(span: nat, offset: nat): set<int>
    requires 1 <= span <= U64_LIMIT
  {
    set x: int | Threshold(span) <= x < U64_LIMIT && x % span == offset
  }

  ghost function Congruent(lo: nat, hi: nat, span: nat, offset: nat): set<int>
    requires span >= 1
  {
    set x: int | lo <= x < hi && x % span == offset
  }

  /** One more span holds one more. */
  lemma NextSpan(lo: nat, m: nat, span: nat, offset: nat)
    requires offset < span && lo <= m
    ensures |Congruent(lo, m + span, span, offset)| == |Congruent(lo, m, span, offset)| + 1
  {
    var x := m + NextCongruent(m, span, offset);
    forall y: int | m <= y < m + span ensures y % span == offset <==> y == x {
      NextIsCongruent(m, span, offset, y - m);
    }
    assert Congruent(lo, m + span, span, offset) == Congruent(lo, m, span, offset) + {x};
  }

  lemma {:induction false} CountCongruent(lo: nat, hi: nat, q: nat, span: nat, offset: nat)
    requires offset < span && hi == lo + q * span
    ensures |Congruent(lo, hi, span, offset)| == q
    decreases q
  {
    if q == 0 {
      assert Congruent(lo, lo, span, offset) == {};
    } else {
      assert (q - 1) * span == q * span - span;
      CountCongruent(lo, hi - span, q - 1, span, offset);
      NextSpan(lo, hi - span, span, offset);
    }
  }

  /** Exactly uniform: every offset has the same number of accepted draws. */
  lemma UniformOffsets(span: nat, offset: nat)
    requires 1 <= span <= U64_LIMIT && offset < span
    ensures |Accepted(span, offset)| == U64_LIMIT / span
  {
    ThresholdExact(span);
    CountCongruent(Threshold(span), U64_LIMIT, U64_LIMIT / span, span, offset);
    assert Accepted(span, offset) == Congruent(Threshold(span), U64_LIMIT, span, offset);
  }

  /** More than half of all draws are accepted. */
  lemma MostDrawsAccepted(span: nat)
    requires 1 <= span <= U64_LIMIT
    ensures 2 * Threshold(span) < U64_LIMIT
  {
  }

  // ---------- Monotone backoff ----------

  lemma CeilingsGrow(p: RetryPolicy, attempt: u32)
    requires 1 <= attempt < U32_MAX
    ensures Ceiling(p, attempt) <= Ceiling(p, attempt + 1)
  {
    if p.baseMs >= 1 {
      var m := DoubleNext(p.baseMs, attempt);
      CeilingExact(p, attempt);
      CeilingExact(p, attempt + 1);
    }
  }

  ghost predicate NeverShrinks(p: RetryPolicy, attempt: u32)
    requires 1 <= attempt < U32_MAX && ValidatePolicy(p).None?
  {
    forall a: seq<u64>, b: seq<u64> :: |a| == DRAWS && |b| == DRAWS ==>
      Delay(p, attempt, a).value <= Delay(p, attempt + 1, b).value
  }

  /**
   With jitter, the next delay is at least this one whatever is drawn exactly as
   long as doubling stays within one of the cap (or the cap is a millisecond).
   */
  lemma MonotoneExactly(p: RetryPolicy, attempt: u32)
    requires 1 <= attempt < U32_MAX && ValidatePolicy(p).None? && p.useJitter
    ensures NeverShrinks(p, attempt)
       <==> p.baseMs * Pow2(attempt) <= EffectiveCap(p) + 1 || EffectiveCap(p) == 1
  {
    var c, d := Ceiling(p, attempt), Ceiling(p, attempt + 1);
    HalfOfNext(p, attempt);
    forall a: seq<u64>, b: seq<u64> | |a| == DRAWS && |b| == DRAWS
      ensures c <= Lower(d) ==> Delay(p, attempt, a).value <= Delay(p, attempt + 1, b).value
    {
      DelayRange(p, attempt, Delay(p, attempt, a).value);
      DelayRange(p, attempt + 1, Delay(p, attempt + 1, b).value);
    }
    if NeverShrinks(p, attempt) {
      DelayRange(p, attempt, c);
      DelayRange(p, attempt + 1, Lower(d));
      var a: seq<u64> :| |a| == DRAWS && Delay(p, attempt, a) == Ok(c);
      var b: seq<u64> :| |b| == DRAWS && Delay(p, attempt + 1, b) == Ok(Lower(d));
      assert Delay(p, attempt, a).value <= Delay(p, attempt + 1, b).value;
    }
  }

  lemma DoubleNext(base: nat, attempt: nat) returns (m: nat)
    requires base >= 1 && attempt >= 1
    ensures m >= 1 && m == base * Pow2(attempt - 1) && 2 * m == base * Pow2(attempt)
  {
    m := base * Pow2(attempt - 1);
    assert base * (2 * Pow2(attempt - 1)) == 2 * m;
  }

  lemma HalfOfNext(p: RetryPolicy, attempt: u32)
    requires 1 <= attempt < U32_MAX && ValidatePolicy(p).None?
    ensures Ceiling(p, attempt) <= Lower(Ceiling(p, attempt + 1))
       <==> p.baseMs * Pow2(attempt) <= EffectiveCap(p) + 1 || EffectiveCap(p) == 1
  {
    var m := DoubleNext(p.baseMs, attempt);
    assert Ceiling(p, attempt) == Min(EffectiveCap(p), m) by { CeilingExact(p, attempt); }
    assert Ceiling(p, attempt + 1) == Min(EffectiveCap(p), 2 * m) by { CeilingExact(p, attempt + 1); }
    HalfOfDouble(EffectiveCap(p), m);
  }

  lemma HalfOfDouble(cap: nat, m: nat)
    requires cap >= 1 && m >= 1
    ensures Min(cap, m) <= (Min(cap, 2 * m) + 1) / 2 <==> 2 * m <= cap + 1 || cap == 1
  {
  }

  /** Without jitter the delay never shrinks. */
  lemma PlainDelayGrows(p: RetryPolicy, attempt: u32, a: seq<u64>, b: seq<u64>)
    requires attempt < U32_MAX && ValidatePolicy(p).None? && !p.useJitter && |a| == |b| == DRAWS
    ensures Delay(p, attempt, a).value <= Delay(p, attempt + 1, b).value
  {
    if attempt >= 1 { CeilingsGrow(p, attempt); }
  }

  /** A base of 600 ms under a cap of 1000 ms: the third delay can be half the second. */
  lemma ShrinkingExample()
    ensures var p := RetryPolicy(600, 1000, true, None);
            ValidatePolicy(p).None? && !NeverShrinks(p, 2)
  {
    var p := RetryPolicy(600, 1000, true, None);
    assert Pow2(2) == 4;
    MonotoneExactly(p, 2);
  }
}
