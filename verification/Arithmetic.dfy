/** Multiplication and division facts, each in the form its users need. */
module Arithmetic {
  import opened Common

  lemma MulMono(a: nat, b: nat, c: nat)
    requires a <= b
    ensures a * c <= b * c && c * a <= c * b
  {
  }

  lemma MulAssoc(a: int, b: int, c: int)
    ensures a * (b * c) == (a * b) * c
  {
  }

  lemma DivLe(t: nat, width: nat)
    requires width >= 1
    ensures 0 <= t / width <= t
  {
  }

  /** `q` is the quotient exactly when `t` lies between its multiple and the next. */
  lemma QuotientExact(t: nat, width: nat, q: nat)
    requires width >= 1
    ensures t / width == q <==> q * width <= t < (q + 1) * width
  {
    var p := t / width;
    assert t == p * width + t % width;
    assert (p + 1) * width == p * width + width;
    assert (q + 1) * width == q * width + width;
    MulMono(Min(p + 1, q), q, width);
    MulMono(Min(q + 1, p), p, width);
  }

  lemma DivMonotone(a: nat, b: nat, width: nat)
    requires width >= 1 && a <= b
    ensures a / width <= b / width
  {
    var p, q := a / width, b / width;
    QuotientExact(a, width, p);
    QuotientExact(b, width, q);
    if q < p { MulMono(q + 1, p, width); }
  }

  lemma NestedDivision(t: nat, width: nat, k: nat)
    requires width >= 1 && k >= 1 && k * width >= 1
    ensures t / (k * width) == t / width / k
  {
    var p := t / width;
    var q := p / k;
    QuotientExact(t, width, p);
    QuotientExact(p, k, q);
    MulMono(q * k, p, width);
    MulMono(p + 1, (q + 1) * k, width);
    assert q * (k * width) == (q * k) * width;
    assert (q + 1) * (k * width) == ((q + 1) * k) * width;
    QuotientExact(t, k * width, q);
  }

  lemma DivBelow(a: nat, b: nat, q: nat)
    requires b >= 1 && q > a / b
    ensures q * b > a
  {
    assert a < (a / b + 1) * b;
    MulMono(a / b + 1, q, b);
  }

  lemma ModUnique(a: nat, b: nat, q: nat, r: nat)
    requires b >= 1 && a == q * b + r && r < b
    ensures a / b == q && a % b == r
  {
    var q1, r1 := a / b, a % b;
    assert a == q1 * b + r1;
    assert (q1 + 1) * b == q1 * b + b && (q + 1) * b == q * b + b;
    MulMono(Min(q1 + 1, q), q, b);
    MulMono(Min(q + 1, q1), q1, b);
  }
}
