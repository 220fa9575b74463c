/** The bits of a natural number, and what they are when the number is put together from two parts. */
module Bits {

  function Pow2(n: nat): (r: nat)
    ensures r > 0
  {
    if n == 0 then 1 else 2 * Pow2(n - 1)
  }

  function Bit(v: nat, i: nat): (r: nat)
    ensures r < 2
  {
    v / Pow2(i) % 2
  }

  lemma {:induction false} PowAdd(a: nat, b: nat)
    ensures Pow2(a + b) == Pow2(a) * Pow2(b)
  {
    if a > 0 {
      PowAdd(a - 1, b);
      Regroup(2, Pow2(a - 1), Pow2(b));
    }
  }

  lemma Regroup(a: nat, b: nat, c: nat)
    ensures (a * b) * c == a * (b * c)
  {}

  lemma Distribute(a: nat, b: nat, m: nat)
    ensures (a + b) * m == a * m + b * m
  {}

  lemma MulMono(a: nat, b: nat, m: nat)
    requires a <= b
    ensures a * m <= b * m
  {
    Distribute(a, b - a, m);
  }

  lemma NextMultiple(a: nat, b: nat, m: nat)
    ensures a < b ==> a * m + m <= b * m
  {
    if a < b {
      MulMono(a + 1, b, m);
      Distribute(a, 1, m);
    }
  }

  /** The quotient is the only number whose multiple is that close. */
  lemma QuotientIs(v: nat, m: nat, q: nat)
    requires m > 0 && q * m <= v < q * m + m
    ensures v / m == q
  {
    var p := v / m;
    assert v == p * m + v % m;
    NextMultiple(p, q, m);
    NextMultiple(q, p, m);
  }

  lemma DivAdd(q: nat, m: nat, r: nat)
    requires m > 0
    ensures (q * m + r) / m == q + r / m
  {
    assert r == r / m * m + r % m;
    Distribute(q, r / m, m);
    QuotientIs(q * m + r, m, q + r / m);
  }

  lemma QuotientBounds(v: nat, m: nat)
    requires m > 0
    ensures v / m * m <= v < v / m * m + m
  {
    assert v == v / m * m + v % m;
  }

  lemma NestedBounds(v: nat, a: nat, u: nat, b: nat, q: nat)
    requires u * a <= v < u * a + a && q * b <= u < q * b + b
    ensures q * (b * a) <= v < q * (b * a) + b * a
  {
    var w := q * b;
    MulMono(w, u, a);
    MulMono(u + 1, w + b, a);
    Distribute(u, 1, a);
    Distribute(w, b, a);
    Regroup(q, b, a);
  }

  lemma DivDiv(v: nat, a: nat, b: nat)
    requires a > 0 && b > 0
    ensures b * a > 0 && v / (b * a) == v / a / b
  {
    var u := v / a;
    var q := u / b;
    QuotientBounds(v, a);
    QuotientBounds(u, b);
    NestedBounds(v, a, u, b, q);
    MulMono(1, b, a);
    QuotientIs(v, b * a, q);
  }

  /** The bits from k on are those of the upper part ... */
  lemma {:induction false} BitHigh(hi: nat, lo: nat, k: nat, i: nat)
    requires lo < Pow2(k)
    ensures Bit(hi * Pow2(k) + lo, k + i) == Bit(hi, i)
  {
    PowAdd(i, k);
    DivDiv(hi * Pow2(k) + lo, Pow2(k), Pow2(i));
    QuotientIs(hi * Pow2(k) + lo, Pow2(k), hi);
  }

  /** ... and the bits below k those of the lower part. */
  lemma BitLow(hi: nat, lo: nat, k: nat, i: nat)
    requires i < k
    ensures Bit(hi * Pow2(k) + lo, i) == Bit(lo, i)
  {
    var m := Pow2(k - i - 1);
    PowAdd(k - i, i);
    assert Pow2(k - i) == 2 * m;
    LowPart(hi, lo, m, Pow2(i));
  }

  lemma LowPart(hi: nat, lo: nat, m: nat, p: nat)
    requires p > 0
    ensures (hi * (2 * m * p) + lo) / p % 2 == lo / p % 2
  {
    Regroup(hi, 2 * m, p);
    DivAdd(hi * (2 * m), p, lo);
    Regroup(hi, 2, m);
    assert hi * (2 * m) == hi * 2 * m == 2 * (hi * m);
    EvenPart(hi * m, lo / p);
  }

  lemma EvenPart(a: nat, b: nat)
    ensures (2 * a + b) % 2 == b % 2
  {}

  /** A number has no bits from k on if it is below 2^k. */
  lemma BitNone(v: nat, k: nat, i: nat)
    requires v < Pow2(k) && k <= i
    ensures Bit(v, i) == 0
  {
    BitHigh(0, v, k, i - k);
    QuotientIs(0, Pow2(i - k), 0);
  }

  /** A number is put together from its quotient and its remainder. */
  lemma Parts(v: nat, k: nat)
    ensures v == v / Pow2(k) * Pow2(k) + v % Pow2(k) && v % Pow2(k) < Pow2(k)
  {}
}
