/** Exact splits of integer amounts: nothing is created or lost when capital is cut into
    legs, collected fees are attributed, or a close is split into principal and fees. */
module Conservation {
  import opened Prelude
  import opened Arithmetic
  import opened CloseMinimums

  function Sum(s: seq<int>): int {
    if s == [] then 0 else Sum(s[..|s| - 1]) + s[|s| - 1]
  }

  // ---- downside slices ----

  const NORMALIZED_BOUNDARIES_BPS := [100, 500, 1200, 2200, 3500, 5000]
  const WEIGHTS_BPS := [800, 1200, 1800, 2500, 3700]

  datatype Slice = Slice(upperDropBps: int, lowerDropBps: int, weightBps: int)
  datatype SliceError = MAX_DOWNSIDE_INVALID | SCALED_BOUNDARY_COLLAPSE

  function Boundary(index: nat, maxDownsideBps: int): int
    requires index < 6
  {
    if index == 5 then maxDownsideBps else NORMALIZED_BOUNDARIES_BPS[index] * maxDownsideBps / 5000
  }

  predicate Collapsed(maxDownsideBps: int) {
    exists i | 0 <= i < 6 ::
      Boundary(i, maxDownsideBps) <= 0 || (i > 0 && Boundary(i, maxDownsideBps) <= Boundary(i - 1, maxDownsideBps))
  }

  /** `v4BidLadderSlices`. */
  function Slices(maxDownsideBps: int): Result<seq<Slice>, SliceError> {
    if maxDownsideBps <= 0 || maxDownsideBps >= 10000 then Err(MAX_DOWNSIDE_INVALID)
    else if Collapsed(maxDownsideBps) then Err(SCALED_BOUNDARY_COLLAPSE)
    else Ok(seq(5, i requires 0 <= i < 5 => Slice(Boundary(i, maxDownsideBps), Boundary(i + 1, maxDownsideBps), WEIGHTS_BPS[i])))
  }

  /** The scaled boundaries collapse exactly below 50 basis points; otherwise five adjoining,
      strictly deepening slices end exactly at the maximum and carry the whole weight. */
  lemma SlicesCollapseBelowFifty(maxDownsideBps: int)
    ensures Slices(maxDownsideBps) == Err(SCALED_BOUNDARY_COLLAPSE) <==> 0 < maxDownsideBps < 50
    ensures Slices(maxDownsideBps) == Err(MAX_DOWNSIDE_INVALID) <==> !(0 < maxDownsideBps < 10000)
    ensures Slices(maxDownsideBps).Ok? ==>
              var s := Slices(maxDownsideBps).value;
              |s| == 5 && s[0].upperDropBps > 0 && s[4].lowerDropBps == maxDownsideBps
              && (forall i :: 0 <= i < 5 ==> s[i].upperDropBps < s[i].lowerDropBps)
              && (forall i :: 0 <= i < 4 ==> s[i].lowerDropBps == s[i + 1].upperDropBps)
              && s[0].weightBps + s[1].weightBps + s[2].weightBps + s[3].weightBps + s[4].weightBps == 10000
  {
    var m := maxDownsideBps;
    if 0 < m < 50 {
      assert Boundary(0, m) <= 0;
    } else if m >= 50 {
      assert Boundary(0, m) > 0;
      assert Boundary(0, m) < Boundary(1, m) < Boundary(2, m) < Boundary(3, m) < Boundary(4, m) < Boundary(5, m);
    }
  }

  /** The drops in basis points of a maximum of 5000, and the share of the capital in each. */
  predicate PlannedSlice(i: nat, upperDrop: int, lowerDrop: int, weight: int) {
    match i
    case 0 => upperDrop == 100 && lowerDrop == 500 && weight == 800
    case 1 => upperDrop == 500 && lowerDrop == 1200 && weight == 1200
    case 2 => upperDrop == 1200 && lowerDrop == 2200 && weight == 1800
    case 3 => upperDrop == 2200 && lowerDrop == 3500 && weight == 2500
    case 4 => upperDrop == 3500 && lowerDrop == 5000 && weight == 3700
    case _ => false
  }

  /** Every slice is the planned one, scaled to the selected maximum and rounded down. */
  lemma SlicesAreScaled(maxDownsideBps: int, i: nat)
    requires Slices(maxDownsideBps).Ok? && i < 5
    ensures |Slices(maxDownsideBps).value| == 5
    ensures var s := Slices(maxDownsideBps).value[i];
            exists u: nat, l: nat ::
              PlannedSlice(i, u, l, s.weightBps)
              && IsFloor(s.upperDropBps, u * maxDownsideBps, 5000) && IsFloor(s.lowerDropBps, l * maxDownsideBps, 5000)
  {
    SlicesCollapseBelowFifty(maxDownsideBps);
    var s := Slices(maxDownsideBps).value[i];
    var u, l := NORMALIZED_BOUNDARIES_BPS[i], NORMALIZED_BOUNDARIES_BPS[i + 1];
    assert PlannedSlice(i, u, l, s.weightBps);
  }

  // ---- funding split ----

  datatype FundingError = FUNDING_INVALID | CAPITAL_TOO_SMALL

  function FirstAmounts(total: nat): (r: seq<int>)
    ensures |r| == 4
  {
    seq(4, i requires 0 <= i < 4 => total * WEIGHTS_BPS[i] / 10000)
  }

  /** `splitV4BidLadderFunding`. */
  function SplitFunding(total: int): Result<seq<int>, FundingError> {
    if total <= 0 then Err(FUNDING_INVALID)
    else
      var amounts := FirstAmounts(total) + [total - Sum(FirstAmounts(total))];
      if exists i | 0 <= i < |amounts| :: amounts[i] <= 0 then Err(CAPITAL_TOO_SMALL) else Ok(amounts)
  }

  lemma SumOfFour(s: seq<int>)
    requires |s| == 4
    ensures Sum(s) == s[0] + s[1] + s[2] + s[3]
  {
    assert s[..3][..2] == s[..2] && s[..3][..2][..1] == s[..1] && s[..1][..0] == [];
    assert Sum(s[..3]) == Sum(s[..2]) + s[2];
    assert Sum(s[..2]) == Sum(s[..1]) + s[1] by {
      assert s[..2][..1] == s[..1];
    }
    assert Sum(s[..1]) == s[0];
  }

  /** The split succeeds exactly from 13 raw units up; it then sums to the total, each of the
      first four legs is the floor of its share, and the last one gets what the floors left:
      fewer than four units over its exact share. */
  lemma FundingIsConserved(total: int)
    ensures SplitFunding(total).Ok? <==> total >= 13
    ensures SplitFunding(total) == Err(FUNDING_INVALID) <==> total <= 0
    ensures SplitFunding(total).Ok? ==>
              var a := SplitFunding(total).value;
              |a| == 5 && Sum(a) == total
              && (forall i :: 0 <= i < 4 ==> a[i] > 0 && a[i] * 10000 <= total * WEIGHTS_BPS[i] < (a[i] + 1) * 10000)
              && total * WEIGHTS_BPS[4] <= a[4] * 10000 < total * WEIGHTS_BPS[4] + 4 * 10000
  {
    if total > 0 {
      var first := FirstAmounts(total);
      SumOfFour(first);
      assert first[0] == total * 800 / 10000 && first[1] == total * 1200 / 10000;
      assert first[2] == total * 1800 / 10000 && first[3] == total * 2500 / 10000;
      var a := first + [total - Sum(first)];
      assert a[..4] == first;
      assert a[0] == first[0];
      if total >= 13 {
        assert forall i :: 0 <= i < 5 ==> a[i] > 0;
      }
    }
  }

  // ---- attribution of collected fees ----

  predicate NonNegative(s: seq<int>) {
    forall i :: 0 <= i < |s| ==> s[i] >= 0
  }

  lemma {:induction false} SumNonNegative(s: seq<int>)
    requires NonNegative(s)
    ensures Sum(s) >= 0 && forall i :: 0 <= i < |s| ==> s[i] <= Sum(s)
  {
    if s != [] {
      SumNonNegative(s[..|s| - 1]);
    }
  }

  /** The sum of the floors of the shares of `weights[..n]`. */
  lemma {:induction false} SharesBelow(total: nat, weights: seq<int>, amounts: seq<int>, denominator: int)
    requires denominator > 0 && |amounts| == |weights| && NonNegative(weights)
    requires forall i :: 0 <= i < |weights| ==> amounts[i] == total * weights[i] / denominator
    ensures NonNegative(amounts)
    ensures Sum(amounts) * denominator <= total * Sum(weights) <= Sum(amounts) * denominator + |weights| * (denominator - 1)
  {
    if weights != [] {
      var n := |weights| - 1;
      SharesBelow(total, weights[..n], amounts[..n], denominator);
      ShareStep(total, weights[n], Sum(weights[..n]), Sum(amounts[..n]), n, denominator);
      forall i | 0 <= i < |amounts| ensures amounts[i] >= 0 {
        if i < n {
          assert amounts[..n][i] >= 0;
        }
      }
    }
  }

  lemma ShareStep(total: nat, weight: nat, weights: int, shares: int, n: nat, d: int)
    requires d > 0 && shares * d <= total * weights <= shares * d + n * (d - 1)
    ensures var share := total * weight / d;
            share >= 0 && (shares + share) * d <= total * (weights + weight) <= (shares + share) * d + (n + 1) * (d - 1)
  {
    var a := total * weight;
    assert a >= 0;
    assert a == (a / d) * d + a % d;
    assert (shares + a / d) * d == shares * d + (a / d) * d;
    assert total * (weights + weight) == total * weights + a;
    assert (n + 1) * (d - 1) == n * (d - 1) + (d - 1);
  }

  /** `allocatedCollect`: for nonempty weights the amounts are non-negative and sum to the
      total, each but the last is the floor of its share, and the last is short of nothing and
      over its share by less than the number of weights. */
  method AllocatedCollect(total: nat, weights: seq<int>) returns (amounts: seq<int>)
    requires NonNegative(weights)
    ensures |amounts| == |weights| && NonNegative(amounts)
    ensures weights != [] ==> Sum(amounts) == total
    ensures Sum(weights) > 0 ==>
              var n := |weights| - 1;
              (forall i :: 0 <= i < n ==> amounts[i] == total * weights[i] / Sum(weights))
              && total * weights[n] <= amounts[n] * Sum(weights) <= total * weights[n] + n * (Sum(weights) - 1)
    ensures Sum(weights) == 0 ==> forall i :: 0 <= i < |weights| - 1 ==> amounts[i] == 0
  {
    var denominator := 0;
    for i := 0 to |weights|
      invariant denominator == Sum(weights[..i])
    {
      assert weights[..i + 1][..i] == weights[..i];
      denominator := denominator + weights[i];
    }
    assert weights[..|weights|] == weights;
    SumNonNegative(weights);
    amounts := [];
    var used := 0;
    for i := 0 to |weights|
      invariant |amounts| == i && used == Sum(amounts)
      invariant forall k :: 0 <= k < i && k < |weights| - 1 ==>
                  amounts[k] == if denominator == 0 then 0 else total * weights[k] / denominator
      invariant i == |weights| && i > 0 ==> used == total
    {
      var amount :=
        if i == |weights| - 1 then total - used
        else if denominator == 0 then 0
        else total * weights[i] / denominator;
      assert (amounts + [amount])[..i] == amounts;
      amounts, used := amounts + [amount], used + amount;
    }
    if weights != [] {
      LastShare(total, weights, amounts, denominator);
    }
  }

  lemma LastShare(total: nat, weights: seq<int>, amounts: seq<int>, denominator: int)
    requires weights != [] && NonNegative(weights) && denominator == Sum(weights) >= 0
    requires |amounts| == |weights| && Sum(amounts) == total
    requires forall k :: 0 <= k < |weights| - 1 ==>
               amounts[k] == if denominator == 0 then 0 else total * weights[k] / denominator
    ensures NonNegative(amounts)
    ensures var n := |weights| - 1;
            denominator > 0 ==> total * weights[n] <= amounts[n] * denominator <= total * weights[n] + n * (denominator - 1)
  {
    var n := |weights| - 1;
    var first := amounts[..n];
    if denominator == 0 {
      AllZero(first);
    } else {
      SharesBelow(total, weights[..n], first, denominator);
      LastShareBounds(total, weights[n], Sum(weights[..n]), Sum(first), amounts[n], n, denominator);
    }
    forall i | 0 <= i < |amounts| ensures amounts[i] >= 0 {
      if i < n {
        assert first[i] >= 0;
      }
    }
  }

  lemma {:induction false} AllZero(s: seq<int>)
    requires forall i :: 0 <= i < |s| ==> s[i] == 0
    ensures Sum(s) == 0
  {
    if s != [] {
      AllZero(s[..|s| - 1]);
    }
  }

  lemma LastShareBounds(total: nat, weight: nat, others: int, shares: int, last: int, n: nat, denominator: int)
    requires denominator > 0 && denominator == others + weight && shares + last == total
    requires shares * denominator <= total * others <= shares * denominator + n * (denominator - 1)
    ensures total * weight <= last * denominator <= total * weight + n * (denominator - 1)
    ensures last >= 0
  {
    assert last * denominator == total * denominator - shares * denominator;
    assert total * denominator == total * others + total * weight;
    assert total * weight >= 0;
    if last <= -1 {
      MulMono(last, -1, denominator);
    }
  }

  // ---- principal and fees of a close ----

  datatype CloseLeg = CloseLeg(lower: nat, upper: nat, liquidity: nat)

  predicate ValidLegs(legs: seq<CloseLeg>) {
    forall i :: 0 <= i < |legs| ==> 0 < legs[i].lower < legs[i].upper
  }

  /** The principal of all legs at one price. */
  function Principal(sqrtPrice: nat, legs: seq<CloseLeg>): Amounts
    requires ValidLegs(legs)
  {
    if legs == [] then Amounts(0, 0)
    else
      var n := |legs| - 1;
      var before := Principal(sqrtPrice, legs[..n]);
      var leg := AmountsForLiquidity(sqrtPrice, legs[n].lower, legs[n].upper, legs[n].liquidity);
      Amounts(before.token0 + leg.token0, before.token1 + leg.token1)
  }

  /** The principal of two groups of legs together, and of a single leg. */
  lemma {:induction false} PrincipalAdds(sqrtPrice: nat, a: seq<CloseLeg>, b: seq<CloseLeg>)
    requires ValidLegs(a) && ValidLegs(b)
    ensures ValidLegs(a + b)
    ensures var p, q, r := Principal(sqrtPrice, a), Principal(sqrtPrice, b), Principal(sqrtPrice, a + b);
            r.token0 == p.token0 + q.token0 && r.token1 == p.token1 + q.token1
    ensures |a| == 1 ==> Principal(sqrtPrice, a) == AmountsForLiquidity(sqrtPrice, a[0].lower, a[0].upper, a[0].liquidity)
  {
    if |a| == 1 {
      assert a[..0] == [];
    }
    if b == [] {
      assert a + b == a;
    } else {
      assert (a + b)[..|a + b| - 1] == a + b[..|b| - 1];
      PrincipalAdds(sqrtPrice, a, b[..|b| - 1]);
    }
  }

  datatype Decomposition = INCOMPLETE(principal: Amounts) | AVAILABLE(principal: Amounts, fees: Amounts)

  /** `exactV4BidLadderClosePrincipalFeeDecomposition`. */
  function Decompose(sqrtPrice: nat, returned: Amounts, legs: seq<CloseLeg>): Decomposition
    requires ValidLegs(legs)
  {
    var p := Principal(sqrtPrice, legs);
    if returned.token0 < p.token0 || returned.token1 < p.token1 then INCOMPLETE(p)
    else AVAILABLE(p, Amounts(returned.token0 - p.token0, returned.token1 - p.token1))
  }

  lemma {:induction false} PrincipalMonotone(p: nat, q: nat, legs: seq<CloseLeg>)
    requires p <= q && ValidLegs(legs)
    ensures Principal(q, legs).token0 <= Principal(p, legs).token0 && Principal(p, legs).token1 <= Principal(q, legs).token1
  {
    if legs != [] {
      var n := |legs| - 1;
      PrincipalMonotone(p, q, legs[..n]);
      AmountsMonotone(p, q, legs[n].lower, legs[n].upper, legs[n].liquidity);
    }
  }

  /** Principal plus fees is the returned amount whenever the split is available, which it is
      exactly when the return covers the principal; and at any price inside the slippage
      bounds the principal covers what all legs together hold of token 0 at the upper bound
      and of token 1 at the lower one, which is what the minimums ask for. */
  lemma CloseIsConserved(sqrtPrice: nat, returned: Amounts, legs: seq<CloseLeg>, lower: nat, upper: nat)
    requires ValidLegs(legs) && lower <= sqrtPrice <= upper
    ensures var d := Decompose(sqrtPrice, returned, legs);
            (d.AVAILABLE? <==> returned.token0 >= Principal(sqrtPrice, legs).token0 && returned.token1 >= Principal(sqrtPrice, legs).token1)
            && (d.AVAILABLE? ==> d.principal.token0 + d.fees.token0 == returned.token0
                                 && d.principal.token1 + d.fees.token1 == returned.token1)
            && d.principal == Principal(sqrtPrice, legs)
            && d.principal.token0 >= Principal(upper, legs).token0 && d.principal.token1 >= Principal(lower, legs).token1
  {
    PrincipalMonotone(sqrtPrice, upper, legs);
    PrincipalMonotone(lower, sqrtPrice, legs);
  }
}
