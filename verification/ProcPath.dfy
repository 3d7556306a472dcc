/** The path of an open descriptor, written digit by digit into a fixed buffer. */
module ProcPath {
  import opened Common
  import opened Arithmetic

  /** `/proc/self/fd/`. */
  const PREFIX: seq<byte> := [0x2F, 0x70, 0x72, 0x6F, 0x63, 0x2F, 0x73, 0x65, 0x6C, 0x66, 0x2F, 0x66, 0x64, 0x2F]

  function Decimal(n: nat): (s: seq<byte>)
    ensures |s| >= 1
  {
    if n < 10 then [0x30 + n] else Decimal(n / 10) + [0x30 + n % 10]
  }

  /** The number a digit string stands for. */
  function ValueOf(s: seq<byte>): int {
    if s == [] then 0 else 10 * ValueOf(s[..|s| - 1]) + s[|s| - 1] as int - 0x30
  }

  /** Decimal digits only, without a leading zero, and they stand for the number. */
  lemma {:induction false} DecimalExact(n: nat)
    ensures ValueOf(Decimal(n)) == n
    ensures forall d <- Decimal(n) :: 0x30 <= d <= 0x39
    ensures n > 0 ==> Decimal(n)[0] != 0x30
  {
    if n < 10 {
      assert Decimal(n)[..0] == [];
    } else {
      DecimalExact(n / 10);
      assert Decimal(n)[..|Decimal(n)| - 1] == Decimal(n / 10);
    }
  }

  function Pow10(k: nat): (p: nat)
    ensures p >= 1
  {
    if k == 0 then 1 else 10 * Pow10(k - 1)
  }

  /** The digits of `value` down to the one for `10^k`. */
  ghost function Leading(value: nat, k: nat): seq<byte> { Decimal(Quotient(value, Pow10(k))) }

  function Quotient(value: nat, divisor: nat): (q: nat)
    requires divisor >= 1
  {
    DivLe(value, divisor);
    value / divisor
  }

  function DigitFor(value: nat, divisor: nat): byte
    requires divisor >= 1
  {
    0x30 + Quotient(value, divisor) % 10
  }

  lemma FirstDigit(value: nat, k: nat)
    requires value / Pow10(k) < 10
    ensures Leading(value, k) == [DigitFor(value, Pow10(k))]
  {
  }

  /** Dropping a zero from the divisor adds a digit. */
  lemma NextDigit(value: nat, k: nat)
    requires k >= 1 && value / Pow10(k) >= 1
    ensures value / Pow10(k - 1) >= 10
    ensures Leading(value, k - 1) == Leading(value, k) + [DigitFor(value, Pow10(k - 1))]
  {
    NestedDivision(value, Pow10(k - 1), 10);
    MoreDigits(Quotient(value, Pow10(k - 1)));
  }

  lemma MoreDigits(n: nat)
    requires n >= 10
    ensures Decimal(n) == Decimal(n / 10) + [0x30 + n % 10]
  {
  }

  lemma {:induction false} Pow10Grows(a: nat, b: nat)
    requires a <= b
    ensures Pow10(a) <= Pow10(b)
  {
    if a < b { Pow10Grows(a, b - 1); }
  }

  lemma Grow(value: nat, divisor: nat)
    requires divisor >= 1 && value / divisor >= 10
    ensures divisor * 10 <= value && value / (divisor * 10) >= 1
  {
  }

  /** The power of ten of the first digit. */
  method LeadingDivisor(value: u32) returns (divisor: nat, ghost k: nat)
    ensures divisor == Pow10(k) && k < 10 && value / divisor < 10 && (k > 0 ==> value / divisor >= 1)
  {
    divisor, k := 1, 0;
    while value / divisor >= 10
      invariant divisor == Pow10(k) && (k > 0 ==> value / divisor >= 1) && divisor <= Max(value, 1)
      decreases value - divisor
    {
      Grow(value, divisor);
      divisor := divisor * 10;
      k := k + 1;
    }
    assert Pow10(10) == 10_000_000_000;
    if k >= 10 { Pow10Grows(10, k); }
  }

  /** The digits of `value`, from the divisor's down, at the offset where the prefix ends. */
  method WriteDigits(path: array<byte>, at: nat, value: u32, leading: nat, ghost digits: nat)
    requires leading == Pow10(digits) && value / leading < 10 && (digits > 0 ==> value / leading >= 1)
    requires at + digits < path.Length
    modifies path
    ensures |Decimal(value)| == digits + 1
    ensures forall i :: 0 <= i < at || at + digits < i < path.Length ==> path[i] == old(path[i])
    ensures forall i :: 0 <= i <= digits ==> path[at + i] == Decimal(value)[i]
  {
    var divisor, offset := leading, at;
    ghost var k := digits;
    ghost var written: seq<byte> := [];
    FirstDigit(value, k);
    while true
      invariant 0 <= k <= digits && divisor == Pow10(k) && (k > 0 ==> value / Pow10(k) >= 1)
      invariant offset == at + |written| && |written| + k == digits
      invariant Leading(value, k) == written + [DigitFor(value, Pow10(k))]
      invariant forall i :: 0 <= i < |written| ==> path[at + i] == written[i]
      invariant forall i :: 0 <= i < at || offset <= i < path.Length ==> path[i] == old(path[i])
      decreases k
    {
      path[offset] := DigitFor(value, divisor);
      written := Leading(value, k);
      offset := offset + 1;
      if divisor == 1 { break; }
      NextDigit(value, k);
      divisor := divisor / 10;
      k := k - 1;
    }
    assert value / 1 == value;
  }

  method ProcSelfFdPath(value: u32) returns (path: array<byte>)
    ensures fresh(path) && path.Length == 32
    ensures |Decimal(value)| <= 10
    ensures path[..] == PREFIX + Decimal(value) + seq(18 - |Decimal(value)|, i => 0)
  {
    path := new byte[32](i => 0);
    forall i | 0 <= i < |PREFIX| {
      path[i] := PREFIX[i];
    }
    var divisor; ghost var k;
    divisor, k := LeadingDivisor(value);
    WriteDigits(path, |PREFIX|, value, divisor, k);
  }
}
