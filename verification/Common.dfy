/** Option and Result, machine-integer ranges, and big-endian integers. */
module Common {

  datatype Option<+T> = None | Some(value: T)

  datatype Result<+T, +E> = Ok(value: T) | Err(error: E)

  type byte = b: int | 0 <= b < 256

  const U64_LIMIT := 0x1_0000_0000_0000_0000
  const U64_MAX := 0xFFFF_FFFF_FFFF_FFFF
  const I64_MAX := 0x7FFF_FFFF_FFFF_FFFF
  const U32_LIMIT := 0x1_0000_0000
  const U32_MAX := 0xFFFF_FFFF

  type u64 = n: int | 0 <= n < U64_LIMIT
  type u32 = n: int | 0 <= n < U32_LIMIT
  type i64 = n: int | -0x8000_0000_0000_0000 <= n < 0x8000_0000_0000_0000

  function Min(a: int, b: int): int {
    if a <= b then a else b
  }

  function Max(a: int, b: int): int {
    if a >= b then a else b
  }

  /** Sequence concatenation is associative. */
  lemma Assoc<T>(a: seq<T>, b: seq<T>, c: seq<T>)
    ensures (a + b) + c == a + (b + c)
  {
  }

  lemma FirstAndRest<T>(a: seq<T>)
    requires a != []
    ensures a == [a[0]] + a[1..]
  {
  }

  lemma FirstOfConcat<T>(a: seq<T>, b: seq<T>)
    requires a != []
    ensures a + b != [] && (a + b)[0] == a[0] && (a + b)[1..] == a[1..] + b
  {
  }

  /** An element of the middle one of three sequences, and all before it. */
  lemma InMiddle<T>(a: seq<T>, b: seq<T>, c: seq<T>, m: nat)
    requires m < |b|
    ensures |a| + m < |a + (b + c)| && (a + (b + c))[|a| + m] == b[m]
    ensures (a + (b + c))[..|a| + m] == a + b[..m]
  {
  }

  // ---------- Big-endian integers ----------

  function Pow256(n: nat): (p: nat)
    ensures p >= 1
  {
    if n == 0 then 1 else 256 * Pow256(n - 1)
  }

  /** The low `n` bytes of `v`, most significant first. */
  function ToBe(v: nat, n: nat): (s: seq<byte>)
    ensures |s| == n
  {
    if n == 0 then [] else ToBe(v / 256, n - 1) + [v % 256]
  }

  function FromBe(s: seq<byte>): (v: nat)
    ensures v < Pow256(|s|)
  {
    if s == [] then 0 else FromBe(s[..|s| - 1]) * 256 + s[|s| - 1]
  }

  lemma {:induction false} FromToBe(v: nat, n: nat)
    requires v < Pow256(n)
    ensures FromBe(ToBe(v, n)) == v
  {
    if n > 0 {
      FromToBe(v / 256, n - 1);
      assert ToBe(v, n)[..n - 1] == ToBe(v / 256, n - 1);
    }
  }

  lemma {:induction false} ToFromBe(s: seq<byte>)
    ensures ToBe(FromBe(s), |s|) == s
  {
    if s != [] {
      var t := s[..|s| - 1];
      ToFromBe(t);
      assert s == t + [s[|s| - 1]];
    }
  }

  /** The widths the wire formats use. */
  lemma Pow256Values()
    ensures Pow256(1) == 256
    ensures Pow256(2) == 65536
    ensures Pow256(4) == U32_LIMIT
    ensures Pow256(8) == U64_LIMIT
  {
  }
}
