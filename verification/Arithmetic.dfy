/** Facts about products and quotients that several modules rely on. */
module Arithmetic {

  lemma MulMono(a: int, b: int, k: nat)
    requires a <= b
    ensures a * k <= b * k
  {
    assert (b - a) * k >= 0;
  }

  lemma PositiveProduct(a: nat, b: nat)
    requires a > 0 && b > 0
    ensures a * b > 0
  {
  }

  lemma TimesAssociates(a: nat, b: nat, c: nat)
    ensures (a * b) * c == a * (b * c)
  {
  }

  lemma Distributes(a: nat, b: nat, c: nat)
    ensures (a + b) * c == a * c + b * c
  {
  }

  lemma AtLeastOneTimes(a: int, d: int)
    requires a >= 1 && d >= 0
    ensures a * d >= d
    ensures (-a) * d <= -d
  {
    assert (a - 1) * d >= 0;
    assert a * d == (a - 1) * d + d;
    assert (-a) * d == -(a * d);
  }

  lemma CancelStrict(x: int, y: int, d: nat)
    requires x * d < y * d
    ensures x < y
  {
    if x >= y {
      MulMono(y, x, d);
    }
  }

  // ---- integer division ----

  function Quotient(a: nat, d: nat): nat
    requires d > 0
  {
    a / d
  }

  function Remainder(a: nat, d: nat): (r: nat)
    requires d > 0
    ensures r < d
  {
    a % d
  }

  lemma Euclid(a: nat, d: nat)
    requires d > 0
    ensures a == Quotient(a, d) * d + Remainder(a, d)
  {
  }

  /** Quotient and remainder are the only way to write a number as a multiple and a rest. */
  lemma EuclidIsUnique(q: int, k: int, d: nat, r: nat, m: nat)
    requires r < d && m < d && q * d + r == k * d + m
    ensures q == k && r == m
  {
    assert (q - k) * d == m - r;
    if q > k {
      AtLeastOneTimes(q - k, d);
    }
    if k > q {
      AtLeastOneTimes(k - q, d);
    }
  }

  lemma QuotientIs(a: nat, q: nat, d: nat, r: nat)
    requires r < d && a == q * d + r
    ensures Quotient(a, d) == q && Remainder(a, d) == r
  {
    Euclid(a, d);
    EuclidIsUnique(Quotient(a, d), q, d, Remainder(a, d), r);
  }

  /** A position less than twice around a ring of n. */
  lemma Wraps(a: nat, n: nat)
    requires n > 0 && a < 2 * n
    ensures a % n == if a < n then a else a - n
  {
    QuotientIs(a, if a < n then 0 else 1, n, if a < n then a else a - n);
  }

  // ---- real numbers ----

  lemma RealProduct(x: real, y: real)
    requires x >= 0.0 && y >= 0.0
    ensures x * y >= 0.0
    ensures x > 0.0 && y > 0.0 ==> x * y > 0.0
  {
  }

  lemma RealMulMono(x: real, y: real, t: real)
    requires t > 0.0
    ensures x <= y <==> x * t <= y * t
    ensures x < y <==> x * t < y * t
  {
    RealProduct(if x <= y then y - x else x - y, t);
    assert (y - x) * t == y * t - x * t;
    assert (x - y) * t == x * t - y * t;
  }
}
