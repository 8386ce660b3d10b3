/** The representative liquidity of an open-gas calibration: found by doubling. */
module GasCalibration {
  import opened Prelude
  import opened Arithmetic
  import opened CloseMinimums

  /** Liquidity is a 128-bit number. */
  const LIQUIDITY_BITS := 128

  /** The V3 amount of token 0 divides, and rounds down, twice. */
  function V3Token0(from: nat, to: nat, liquidity: nat): nat
    requires 0 < from <= to
  {
    Quotient(Quotient(liquidity * Q96, from) * (to - from), to)
  }

  /** `amountsForLiquidity` of the V3 adapter, with the square roots of the two range ends. */
  function V3Amounts(sqrtPrice: nat, lower: nat, upper: nat, liquidity: nat): Amounts
    requires 0 < lower < upper
  {
    if sqrtPrice <= lower then Amounts(V3Token0(lower, upper, liquidity), 0)
    else if sqrtPrice < upper then Amounts(V3Token0(sqrtPrice, upper, liquidity), Token1(lower, sqrtPrice, liquidity))
    else Amounts(0, Token1(lower, upper, liquidity))
  }

  /** Liquidity over the lower end, rounded down, times the width over the upper end, rounded
      down again. */
  ghost predicate TwiceFloored(amount: nat, from: nat, to: nat, liquidity: nat)
    requires from <= to
  {
    exists q: nat :: IsFloor(q, liquidity * 0x1_0000_0000_0000_0000_0000_0000, from) && IsFloor(amount, q * (to - from), to)
  }

  lemma V3Token0Is(from: nat, to: nat, liquidity: nat)
    requires 0 < from <= to
    ensures TwiceFloored(V3Token0(from, to, liquidity), from, to, liquidity)
  {
    var q := Quotient(liquidity * Q96, from);
    QuotientIsFloor(liquidity * Q96, from);
    QuotientIsFloor(q * (to - from), to);
  }

  lemma NothingLeft(at: nat, liquidity: nat)
    requires at > 0
    ensures TwiceFloored(0, at, at, liquidity)
  {
    var q := Quotient(liquidity * Q96, at);
    QuotientIsFloor(liquidity * Q96, at);
    FloorOfNothing(at);
    assert q * (at - at) == 0;
  }

  /** The amounts of the V3 adapter: token 1 as in V4, and token 0 rounded down twice, over
      what the price leaves of the range. */
  lemma V3AmountsAreFloors(sqrtPrice: nat, lower: nat, upper: nat, liquidity: nat)
    requires 0 < lower < upper
    ensures TwiceFloored(V3Amounts(sqrtPrice, lower, upper, liquidity).token0, Max(lower, Min(sqrtPrice, upper)), upper, liquidity)
    ensures V3Amounts(sqrtPrice, lower, upper, liquidity).token1 == AmountsForLiquidity(sqrtPrice, lower, upper, liquidity).token1
  {
    if sqrtPrice >= upper {
      NothingLeft(upper, liquidity);
    } else {
      V3Token0Is(Max(lower, sqrtPrice), upper, liquidity);
    }
  }

  /** The liquidity yields at least the two minimum amounts. */
  predicate Enough(sqrtPrice: nat, lower: nat, upper: nat, minimum0: nat, minimum1: nat, liquidity: nat)
    requires 0 < lower < upper
  {
    var amounts := V3Amounts(sqrtPrice, lower, upper, liquidity);
    amounts.token0 >= minimum0 && amounts.token1 >= minimum1
  }

  /** More liquidity never holds less of either token. */
  lemma EnoughMonotone(sqrtPrice: nat, lower: nat, upper: nat, minimum0: nat, minimum1: nat, a: nat, b: nat)
    requires 0 < lower < upper && a <= b && Enough(sqrtPrice, lower, upper, minimum0, minimum1, a)
    ensures Enough(sqrtPrice, lower, upper, minimum0, minimum1, b)
  {
    var from, to := Max(sqrtPrice, lower), Min(sqrtPrice, upper);
    if from < upper {
      Token0Grows(from, upper, a, b);
    }
    if lower < to {
      Token1Grows(lower, to, a, b);
    }
  }

  lemma QuotientGrows(a: nat, b: nat, d: nat)
    requires d > 0 && a <= b
    ensures Quotient(a, d) <= Quotient(b, d)
  {
    MulMono(a, b, d);
    FloorMonotone(b, d, a, d);
  }

  lemma Token0Grows(from: nat, to: nat, a: nat, b: nat)
    requires 0 < from <= to && a <= b
    ensures V3Token0(from, to, a) <= V3Token0(from, to, b)
  {
    MulMono(a, b, Q96);
    QuotientGrows(a * Q96, b * Q96, from);
    MulMono(Quotient(a * Q96, from), Quotient(b * Q96, from), to - from);
    QuotientGrows(Quotient(a * Q96, from) * (to - from), Quotient(b * Q96, from) * (to - from), to);
  }

  lemma Token1Grows(from: nat, to: nat, a: nat, b: nat)
    requires from <= to && a <= b
    ensures Token1(from, to, a) <= Token1(from, to, b)
  {
    MulMono(a, b, to - from);
    FloorMonotone(b * (to - from), Q96, a * (to - from), Q96);
  }

  /** `deriveRepresentativeAmounts`: the smallest power of two that is enough; None when none
      below 2^128 is. Then no liquidity up to half of it is enough either. */
  method RepresentativeLiquidity(sqrtPrice: int, lower: nat, upper: nat, minimum0: nat, minimum1: nat) returns (r: Option<nat>)
    requires 0 < lower < upper && minimum0 >= 1 && minimum1 >= 1
    ensures r.Some? <==> sqrtPrice > 0 && exists k: nat | k < 128 :: Enough(sqrtPrice, lower, upper, minimum0, minimum1, Pow2(k))
    ensures r.Some? ==> Enough(sqrtPrice, lower, upper, minimum0, minimum1, r.value) && exists k: nat | k < 128 :: r.value == Pow2(k)
    ensures r.Some? ==> forall l: nat :: 2 * l <= r.value && l > 0 ==> !Enough(sqrtPrice, lower, upper, minimum0, minimum1, l)
  {
    if sqrtPrice <= 0 { return None; }
    var liquidity, k := 1, 0;
    while liquidity <= Pow2(LIQUIDITY_BITS) - 1
      invariant 0 <= k <= LIQUIDITY_BITS && liquidity == Pow2(k)
      invariant forall j: nat :: j < k ==> !Enough(sqrtPrice, lower, upper, minimum0, minimum1, Pow2(j))
      decreases LIQUIDITY_BITS - k
    {
      BelowMax(k, LIQUIDITY_BITS);
      if Enough(sqrtPrice, lower, upper, minimum0, minimum1, liquidity) {
        forall l: nat | 2 * l <= liquidity && l > 0 ensures !Enough(sqrtPrice, lower, upper, minimum0, minimum1, l) {
          HalfIsNotEnough(sqrtPrice, lower, upper, minimum0, minimum1, k, l);
        }
        return Some(liquidity);
      }
      liquidity, k := liquidity * 2, k + 1;
    }
    BelowMax(k, LIQUIDITY_BITS);
    return None;
  }

  lemma HalfIsNotEnough(sqrtPrice: nat, lower: nat, upper: nat, minimum0: nat, minimum1: nat, k: nat, l: nat)
    requires 0 < lower < upper && 0 < l && 2 * l <= Pow2(k)
    requires forall j: nat :: j < k ==> !Enough(sqrtPrice, lower, upper, minimum0, minimum1, Pow2(j))
    ensures !Enough(sqrtPrice, lower, upper, minimum0, minimum1, l)
  {
    assert k > 0;
    assert !Enough(sqrtPrice, lower, upper, minimum0, minimum1, Pow2(k - 1));
    if Enough(sqrtPrice, lower, upper, minimum0, minimum1, l) {
      EnoughMonotone(sqrtPrice, lower, upper, minimum0, minimum1, l, Pow2(k - 1));
    }
  }

  lemma BelowMax(k: nat, bits: nat)
    requires k <= bits
    ensures Pow2(k) <= Pow2(bits) - 1 <==> k < bits
  {
    if k < bits {
      Pow2Mono(k, bits - 1);
    }
  }
}
