/** The price-space protection of a close: an integer square root by Newton's method, and the
    minimum amounts it yields for a concentrated position. */
module CloseMinimums {
  import opened Prelude
  import opened Arithmetic

  // ---- integer square root ----

  predicate IsRoot(r: nat, value: nat) {
    r * r <= value < (r + 1) * (r + 1)
  }

  /** The floor of the square root is unique, and grows with its argument. */
  lemma RootMonotone(r: nat, value: nat, s: nat, larger: nat)
    requires IsRoot(r, value) && IsRoot(s, larger) && value <= larger
    ensures r <= s
    ensures value == larger ==> r == s
  {
    if r > s {
      SquareMonotone(s + 1, r);
    }
    if s > r {
      SquareMonotone(r + 1, s);
    }
  }

  lemma SquareMonotone(a: nat, b: nat)
    requires a <= b
    ensures a * a <= b * b
  {
    MulMono(a, b, a);
    MulMono(a, b, b);
  }

  function Pow2(n: nat): (p: nat)
    ensures p >= 1
  {
    if n == 0 then 1 else 2 * Pow2(n - 1)
  }

  /** The length of the binary text of a number. */
  function BitLength(value: nat): nat {
    if value < 2 then 1 else 1 + BitLength(value / 2)
  }

  lemma {:induction false} BitLengthBounds(value: nat)
    ensures value < Pow2(BitLength(value))
  {
    if value >= 2 {
      BitLengthBounds(value / 2);
    }
  }

  lemma {:induction false} Pow2Add(a: nat, b: nat)
    ensures Pow2(a + b) == Pow2(a) * Pow2(b)
  {
    if a > 0 {
      Pow2Add(a - 1, b);
      assert Pow2(a + b) == 2 * (Pow2(a - 1) * Pow2(b)) == Pow2(a) * Pow2(b);
    }
  }

  lemma {:induction false} Pow2Mono(a: nat, b: nat)
    requires a <= b
    ensures Pow2(a) <= Pow2(b)
    decreases b
  {
    if a < b {
      Pow2Mono(a, b - 1);
    }
  }

  lemma SquareBelowNext(a: nat)
    ensures a * a < (a + 1) * (a + 1)
  {
  }

  /** The first guess lies above the root. */
  lemma GuessIsAbove(value: nat)
    ensures Above(Pow2((BitLength(value) + 1) / 2), value)
  {
    var h := (BitLength(value) + 1) / 2;
    BitLengthBounds(value);
    Pow2Mono(BitLength(value), h + h);
    Pow2Add(h, h);
    SquareBelowNext(Pow2(h));
  }

  /** `c` is at or above the floor of the root. */
  predicate Above(c: nat, value: nat) {
    value < (c + 1) * (c + 1)
  }

  function NewtonStep(c: nat, value: nat): nat
    requires c > 0
  {
    (c + value / c) / 2
  }

  lemma AboveIsPositive(c: nat, value: nat)
    requires value >= 1 && Above(c, value)
    ensures c > 0
  {
  }

  /** One Newton step from anywhere stays at or above the floor of the root. */
  lemma StepStaysAbove(value: nat, c: nat)
    requires c > 0
    ensures Above(NewtonStep(c, value), value)
  {
    BelowNextMultiple(value, c);
    MeanAbove(c, value / c + 1, NewtonStep(c, value) + 1);
  }

  lemma BelowNextMultiple(value: nat, c: nat)
    requires c > 0
    ensures value < c * (value / c + 1)
  {
    assert value == c * (value / c) + value % c;
  }

  lemma MeanAbove(a: nat, b: nat, m: nat)
    requires a + b <= 2 * m
    ensures a * b <= m * m
  {
    SquareMonotone(a + b, 2 * m);
    MeanInequality(a, b);
    assert (2 * m) * (2 * m) == 4 * (m * m);
  }

  lemma MeanInequality(a: int, b: int)
    ensures (a + b) * (a + b) - 4 * (a * b) == (a - b) * (a - b) && (a - b) * (a - b) >= 0
  {
  }

  lemma StopIsBelow(value: nat, c: nat)
    requires c > 0 && NewtonStep(c, value) >= c
    ensures c * c <= value
  {
    MulMono(c, value / c, c);
    assert value == (value / c) * c + value % c;
  }

  /** `integerSquareRoot`: None for a negative value, the floor of the root otherwise. */
  method IntegerSquareRoot(value: int) returns (r: Option<nat>)
    ensures r.Some? <==> value >= 0
    ensures r.Some? ==> IsRoot(r.value, value)
  {
    if value < 0 { return None; }
    if value < 2 { return Some(value); }
    var current: nat := Pow2((BitLength(value) + 1) / 2);
    var next := NewtonStep(current, value);
    GuessIsAbove(value);
    StepStaysAbove(value, current);
    while next < current
      invariant current > 0 && next == NewtonStep(current, value)
      invariant Above(current, value) && Above(next, value)
      decreases current
    {
      AboveIsPositive(next, value);
      current := next;
      next := NewtonStep(current, value);
      StepStaysAbove(value, current);
    }
    StopIsBelow(value, current);
    return Some(current);
  }

  // ---- amounts of a position ----

  const Q96 := 0x1_0000_0000_0000_0000_0000_0000

  datatype Amounts = Amounts(token0: nat, token1: nat)

  /** `amountsForLiquidity` with the square roots of the two range ends, 0 < lower < upper. */
  function AmountsForLiquidity(sqrtPrice: nat, lower: nat, upper: nat, liquidity: nat): Amounts
    requires 0 < lower < upper
  {
    if sqrtPrice <= lower then Amounts(Token0(lower, upper, liquidity), 0)
    else if sqrtPrice < upper then Amounts(Token0(sqrtPrice, upper, liquidity), Token1(lower, sqrtPrice, liquidity))
    else Amounts(0, Token1(lower, upper, liquidity))
  }

  function Token0(from: nat, to: nat, liquidity: nat): nat
    requires 0 < from <= to
  {
    PositiveProduct(from, to);
    Scaled(liquidity, to - from) * Q96 / (from * to)
  }

  function Scaled(liquidity: nat, width: nat): nat {
    liquidity * width
  }

  function Token1(from: nat, to: nat, liquidity: nat): nat
    requires from <= to
  {
    liquidity * (to - from) / Q96
  }

  /** `x` is the floor of `a` over `b`. */
  predicate IsFloor(x: nat, a: nat, b: nat) {
    x * b <= a < (x + 1) * b
  }

  lemma QuotientIsFloor(a: nat, b: nat)
    requires b > 0
    ensures IsFloor(a / b, a, b)
  {
    assert a == (a / b) * b + a % b;
    assert (a / b + 1) * b == (a / b) * b + b;
  }

  /** Both amounts are the exact ones of the position at the price, rounded down: with the
      price cut to the range, liquidity times the rest of the range over both its ends for
      token 0, and liquidity times the part below the price for token 1, in units of 2^96. */
  lemma AmountsAreFloors(sqrtPrice: nat, lower: nat, upper: nat, liquidity: nat)
    requires 0 < lower < upper
    ensures var p := Max(lower, Min(sqrtPrice, upper)); var a := AmountsForLiquidity(sqrtPrice, lower, upper, liquidity);
            IsFloor(a.token0, liquidity * (upper - p) * 0x1_0000_0000_0000_0000_0000_0000, p * upper)
            && IsFloor(a.token1, liquidity * (p - lower), 0x1_0000_0000_0000_0000_0000_0000)
  {
    var p := Max(lower, Min(sqrtPrice, upper));
    PositiveProduct(p, upper);
    QuotientIsFloor(liquidity * (upper - p) * Q96, p * upper);
    QuotientIsFloor(liquidity * (p - lower), Q96);
    if sqrtPrice >= upper {
      assert liquidity * (upper - p) * Q96 == 0;
      FloorOfNothing(p * upper);
    } else if sqrtPrice <= lower {
      assert liquidity * (p - lower) == 0;
    }
  }

  lemma FloorOfNothing(b: nat)
    requires b > 0
    ensures IsFloor(0, 0, b)
  {
  }

  /** A fraction that is at least another, cross-multiplied, has at least its floor. */
  lemma FloorMonotone(a: nat, b: nat, c: nat, d: nat)
    requires b > 0 && d > 0 && c * b <= a * d
    ensures c / d <= a / b
  {
    var k := c / d;
    MulMono(k * d, c, b);
    assert (k * d) * b == (k * b) * d;
    CancelFactor(k * b, a, d);
    AtMostQuotient(k, a, b);
  }

  lemma CancelFactor(x: int, y: int, d: nat)
    requires d > 0 && x * d <= y * d
    ensures x <= y
  {
    if x > y {
      MulMono(y + 1, x, d);
    }
  }

  lemma AtMostQuotient(k: nat, a: nat, b: nat)
    requires b > 0 && k * b <= a
    ensures k <= a / b
  {
    assert a == (a / b) * b + a % b;
    assert (a / b + 1) * b == (a / b) * b + b;
    CancelStrict(k, a / b + 1, b);
  }

  lemma Token1Monotone(from: nat, a: nat, b: nat, liquidity: nat)
    requires from <= a <= b
    ensures Token1(from, a, liquidity) <= Token1(from, b, liquidity)
  {
    MulMono(a - from, b - from, liquidity);
    FloorMonotone(liquidity * (b - from), Q96, liquidity * (a - from), Q96);
  }

  lemma Token0Monotone(a: nat, b: nat, to: nat, liquidity: nat)
    requires 0 < a <= b <= to
    ensures Token0(b, to, liquidity) <= Token0(a, to, liquidity)
  {
    var x, y := liquidity * (to - a) * Q96, liquidity * (to - b) * Q96;
    PositiveProduct(a, to);
    PositiveProduct(b, to);
    MulMono(to - b, to - a, liquidity * Q96);
    assert y <= x by {
      assert y == (to - b) * (liquidity * Q96) && x == (to - a) * (liquidity * Q96);
    }
    MulMono(a * to, b * to, y) by {
      MulMono(a, b, to);
    }
    MulMono(y, x, b * to);
    assert y * (a * to) <= x * (b * to);
    FloorMonotone(x, a * to, y, b * to);
  }

  /** As the price rises a position holds no more of token 0 and no less of token 1. */
  lemma AmountsMonotone(p: nat, q: nat, lower: nat, upper: nat, liquidity: nat)
    requires 0 < lower < upper && p <= q
    ensures AmountsForLiquidity(q, lower, upper, liquidity).token0 <= AmountsForLiquidity(p, lower, upper, liquidity).token0
    ensures AmountsForLiquidity(p, lower, upper, liquidity).token1 <= AmountsForLiquidity(q, lower, upper, liquidity).token1
  {
    if lower < q {
      var from, to := Max(p, lower), Min(q, upper);
      if from <= to {
        Token0Monotone(from, to, upper, liquidity);
        Token1Monotone(lower, from, to, liquidity);
      }
    }
  }

  // ---- the minimums of a close ----

  const CLOSE_SLIPPAGE_BPS := 200
  const BPS_DENOMINATOR := 10000

  datatype Minimums = Minimums(amount0: nat, amount1: nat, lower: nat, upper: nat)

  /** The two square roots are the 2% price bounds, rounded down: a price is a square root
      squared. */
  predicate PriceBounds(price: nat, lower: nat, upper: nat) {
    && lower * lower * 10_000 <= price * price * 9_800 < (lower + 1) * (lower + 1) * 10_000
    && upper * upper * 10_000 <= price * price * 10_200 < (upper + 1) * (upper + 1) * 10_000
  }

  /** `v4BidLadderCloseMinimums` for a position between the square roots `from` and `to`;
      None when the price or the liquidity is refused. Whatever price in between the close
      executes at, it returns at least both minimums. */
  method CloseMinimums(sqrtPrice: int, from: nat, to: nat, liquidity: int) returns (r: Option<Minimums>)
    requires 0 < from < to
    ensures r.Some? <==> sqrtPrice > 0 && liquidity >= 0
    ensures r.Some? ==> PriceBounds(sqrtPrice, r.value.lower, r.value.upper) && r.value.lower <= sqrtPrice <= r.value.upper
    ensures r.Some? ==>
              forall e: nat :: r.value.lower <= e <= r.value.upper ==>
                var amounts := AmountsForLiquidity(e, from, to, liquidity);
                amounts.token0 >= r.value.amount0 && amounts.token1 >= r.value.amount1
    ensures r.Some? ==> r.value.amount0 == AmountsForLiquidity(r.value.upper, from, to, liquidity).token0
                        && r.value.amount1 == AmountsForLiquidity(r.value.lower, from, to, liquidity).token1
  {
    if sqrtPrice <= 0 || liquidity < 0 { return None; }
    var squared := sqrtPrice * sqrtPrice;
    var lower := IntegerSquareRoot(squared * (BPS_DENOMINATOR - CLOSE_SLIPPAGE_BPS) / BPS_DENOMINATOR);
    var upper := IntegerSquareRoot(squared * (BPS_DENOMINATOR + CLOSE_SLIPPAGE_BPS) / BPS_DENOMINATOR);
    BoundsAreExact(sqrtPrice, lower.value, upper.value);
    var amount0 := AmountsForLiquidity(upper.value, from, to, liquidity).token0;
    var amount1 := AmountsForLiquidity(lower.value, from, to, liquidity).token1;
    forall e: nat | lower.value <= e <= upper.value
      ensures AmountsForLiquidity(e, from, to, liquidity).token0 >= amount0
              && AmountsForLiquidity(e, from, to, liquidity).token1 >= amount1
    {
      AmountsMonotone(e, upper.value, from, to, liquidity);
      AmountsMonotone(lower.value, e, from, to, liquidity);
    }
    return Some(Minimums(amount0, amount1, lower.value, upper.value));
  }

  lemma BoundsAreExact(price: nat, lower: nat, upper: nat)
    requires price > 0
    requires IsRoot(lower, price * price * (BPS_DENOMINATOR - CLOSE_SLIPPAGE_BPS) / BPS_DENOMINATOR)
    requires IsRoot(upper, price * price * (BPS_DENOMINATOR + CLOSE_SLIPPAGE_BPS) / BPS_DENOMINATOR)
    ensures PriceBounds(price, lower, upper) && lower <= price <= upper
  {
    var s := price * price;
    assert IsRoot(price, s);
    RootMonotone(lower, s * 9800 / 10000, price, s);
    RootMonotone(price, s, upper, s * 10200 / 10000);
  }
}
