/** The executable ladder: six boundaries on the pool's tick grid, projected from the desired
    percentages. A ladder goes down in ticks when the target is currency 0, up otherwise. */
module Geometry {
  import opened Prelude
  import opened Arithmetic

  const V4_MIN_TICK := -887272
  const V4_MAX_TICK := 887272

  predicate Aligned(tick: int, spacing: int)
    requires spacing > 0
  {
    tick % spacing == 0
  }

  lemma MultipleIsAligned(q: int, spacing: int)
    requires spacing > 0
    ensures Aligned(q * spacing, spacing)
  {
    EuclidIsUnique(q, (q * spacing) / spacing, spacing, 0, (q * spacing) % spacing);
  }

  lemma AlignedSum(tick: int, k: int, spacing: int)
    requires spacing > 0 && Aligned(tick, spacing)
    ensures Aligned(tick + k * spacing, spacing)
  {
    assert tick == (tick / spacing) * spacing;
    assert tick + k * spacing == (tick / spacing + k) * spacing;
    MultipleIsAligned(tick / spacing + k, spacing);
  }

  lemma NegationIsAligned(tick: int, spacing: int)
    requires spacing > 0 && Aligned(tick, spacing)
    ensures Aligned(-tick, spacing)
  {
    assert tick == (tick / spacing) * spacing;
    assert -tick == (-(tick / spacing)) * spacing;
    MultipleIsAligned(-(tick / spacing), spacing);
  }

  lemma ScaleFloor(q: int, x: real, spacing: int)
    requires spacing > 0 && q as real <= x < (q + 1) as real
    ensures (q * spacing) as real <= x * spacing as real < (q * spacing + spacing) as real
  {
    var s := spacing as real;
    RealMulMono(q as real, x, s);
    RealMulMono(x, (q + 1) as real, s);
    assert (q * spacing) as real == q as real * s;
    assert (q * spacing + spacing) as real == ((q + 1) * spacing) as real == (q + 1) as real * s;
  }

  function AlignedFloor(tick: real, spacing: int): (r: int)
    requires spacing > 0
    ensures Aligned(r, spacing) && r as real <= tick < (r + spacing) as real
  {
    var x := tick / spacing as real;
    assert x * spacing as real == tick;
    ScaleFloor(x.Floor, x, spacing);
    MultipleIsAligned(x.Floor, spacing);
    x.Floor * spacing
  }

  function AlignedCeil(tick: real, spacing: int): (r: int)
    requires spacing > 0
    ensures Aligned(r, spacing) && (r - spacing) as real < tick <= r as real
  {
    var f := AlignedFloor(-tick, spacing);
    NegationIsAligned(f, spacing);
    -f
  }

  function Clamp(value: int, lower: int, upper: int): int {
    Max(lower, Min(upper, value))
  }

  predicate InTickRange(tick: int) {
    V4_MIN_TICK < tick <= V4_MAX_TICK
  }

  /** The next boundary is at least one spacing further down (or up). */
  predicate Further(a: int, b: int, spacing: int, down: bool) {
    if down then b <= a - spacing else b >= a + spacing
  }

  /** Six boundaries with the given ends, in ladder order. */
  predicate Ladder(b: seq<int>, base: int, cap: int, spacing: int, down: bool) {
    |b| == 6 && b[0] == base && b[5] == cap
    && forall i :: 1 <= i < 6 ==> Further(b[i - 1], b[i], spacing, down)
  }

  /** How far the cap lies from the base in ladder order. */
  function Depth(base: int, cap: int, down: bool): int {
    if down then base - cap else cap - base
  }

  /** `a` is lexicographically closer to the desired ticks than `b`: at the first boundary
      where they differ, `a` is strictly nearer. */
  predicate LexCloser(a: seq<int>, b: seq<int>, desired: seq<int>)
    requires |a| == |b| == |desired|
  {
    exists i | 0 <= i < |a| :: a[..i] == b[..i] && Abs(a[i] - desired[i]) < Abs(b[i] - desired[i])
  }

  function Lower(previous: int, cap: int, index: int, spacing: int, down: bool): int {
    if down then cap + (5 - index) * spacing else previous + spacing
  }

  function Upper(previous: int, cap: int, index: int, spacing: int, down: bool): int {
    if down then previous - spacing else cap - (5 - index) * spacing
  }

  /** The snapped desired boundaries: outward, so that floor goes with a falling ladder. */
  function Snapped(raw: seq<real>, spacing: int, down: bool): (r: seq<int>)
    requires spacing > 0
    ensures |r| == |raw| && forall i :: 0 <= i < |r| ==> Aligned(r[i], spacing)
    ensures forall i :: 0 <= i < |r| ==> if down then r[i] as real <= raw[i] < (r[i] + spacing) as real
                                         else (r[i] - spacing) as real < raw[i] <= r[i] as real
  {
    seq(|raw|, i requires 0 <= i < |raw| => if down then AlignedFloor(raw[i], spacing) else AlignedCeil(raw[i], spacing))
  }

  /** The deepest boundary is snapped inward: it never goes past the selected depth. */
  function Cap(raw: real, spacing: int, down: bool): (r: int)
    requires spacing > 0
    ensures Aligned(r, spacing)
    ensures if down then (r - spacing) as real < raw <= r as real else r as real <= raw < (r + spacing) as real
  {
    if down then AlignedCeil(raw, spacing) else AlignedFloor(raw, spacing)
  }

  datatype Outcome = ORIENTATION_INVALID | NOT_REPRESENTABLE(atIndex: nat) | BOUNDARIES(ticks: seq<int>)

  /** `v4BidLadderGeometry` on the raw ticks of the six percentages. `atIndex` is 0 when the
      endpoint check rejects, and the loop index when the loop does. */
  method BidLadderGeometry(raw: seq<real>, spacing: int, down: bool) returns (r: Outcome)
    requires |raw| == 6
    ensures r.ORIENTATION_INVALID? <==> spacing <= 0
    ensures spacing > 0 ==>
              var desired := Snapped(raw, spacing, down); var base := desired[0]; var cap := Cap(raw[5], spacing, down);
              var inRange := -887272 < base <= 887272 && -887272 < cap <= 887272;
              (r.BOUNDARIES? <==> inRange && Depth(base, cap, down) >= 5 * spacing)
              && (r.NOT_REPRESENTABLE? ==> r.atIndex == if inRange then 1 else 0)
              && (r.BOUNDARIES? ==>
                    Ladder(r.ticks, base, cap, spacing, down)
                    && (forall i :: 0 <= i < 6 ==> Aligned(r.ticks[i], spacing) && InTickRange(r.ticks[i]))
                    && (forall b: seq<int> :: Ladder(b, base, cap, spacing, down) && b != r.ticks ==> LexCloser(r.ticks, b, desired)))
  {
    if spacing <= 0 { return ORIENTATION_INVALID; }
    var desired := Snapped(raw, spacing, down);
    var cap := Cap(raw[5], spacing, down);
    var base := desired[0];
    if !InTickRange(base) || !InTickRange(cap) { return NOT_REPRESENTABLE(0); }
    var boundaries := [base];
    var index := 1;
    while index < 5
      invariant 1 <= index <= 5 && |boundaries| == index && boundaries[0] == base
      invariant Projected(boundaries, desired, cap, spacing, down)
    {
      var lower := Lower(boundaries[index - 1], cap, index, spacing, down);
      var upper := Upper(boundaries[index - 1], cap, index, spacing, down);
      Feasible(boundaries, desired, cap, spacing, down);
      if lower > upper { return NOT_REPRESENTABLE(index); }
      ProjectNext(boundaries, desired, cap, spacing, down);
      boundaries := boundaries + [Clamp(desired[index], lower, upper)];
      index := index + 1;
    }
    Feasible(boundaries, desired, cap, spacing, down);
    Complete(boundaries, desired, cap, spacing, down);
    return BOUNDARIES(boundaries + [cap]);
  }

  /** The boundaries chosen so far: ordered, aligned, each nearest in its interval, and with
      room for the rest. */
  predicate Projected(b: seq<int>, desired: seq<int>, cap: int, spacing: int, down: bool)
    requires spacing > 0 && |desired| == 6 && 1 <= |b| <= 5
  {
    && (forall i :: 0 <= i < |b| ==> Aligned(b[i], spacing))
    && (forall i :: 1 <= i < |b| ==> Further(b[i - 1], b[i], spacing, down) && Nearest(b, desired, cap, i, spacing, down))
    && (|b| > 1 ==> Depth(b[0], cap, down) >= 5 * spacing && Depth(b[|b| - 1], cap, down) >= (6 - |b|) * spacing)
  }

  /** The feasible interval of the next boundary is empty only at the first one, and then
      exactly when the endpoints are too close. */
  lemma Feasible(b: seq<int>, desired: seq<int>, cap: int, spacing: int, down: bool)
    requires spacing > 0 && |desired| == 6 && 1 <= |b| <= 5 && Projected(b, desired, cap, spacing, down)
    ensures var n := |b|;
            Lower(b[n - 1], cap, n, spacing, down) <= Upper(b[n - 1], cap, n, spacing, down)
            <==> Depth(b[0], cap, down) >= 5 * spacing
    ensures |b| > 1 ==> Depth(b[0], cap, down) >= 5 * spacing
  {
    assert (6 - |b|) * spacing == (5 - |b|) * spacing + spacing;
  }

  lemma ProjectNext(b: seq<int>, desired: seq<int>, cap: int, spacing: int, down: bool)
    requires spacing > 0 && |desired| == 6 && 1 <= |b| <= 4 && Projected(b, desired, cap, spacing, down)
    requires Aligned(desired[|b|], spacing) && Aligned(cap, spacing) && Depth(b[0], cap, down) >= 5 * spacing
    ensures var n := |b|;
            Projected(b + [Clamp(desired[n], Lower(b[n - 1], cap, n, spacing, down), Upper(b[n - 1], cap, n, spacing, down))],
                      desired, cap, spacing, down)
  {
    var n := |b|;
    Feasible(b, desired, cap, spacing, down);
    BoundsAligned(b[n - 1], cap, n, spacing, down);
    var lower, upper := Lower(b[n - 1], cap, n, spacing, down), Upper(b[n - 1], cap, n, spacing, down);
    var next := b + [Clamp(desired[n], lower, upper)];
    assert lower <= next[n] <= upper;
    assert Aligned(next[n], spacing);
    assert Further(b[n - 1], next[n], spacing, down);
    forall i | 1 <= i < |next| ensures Further(next[i - 1], next[i], spacing, down) && Nearest(next, desired, cap, i, spacing, down) {
      if i < n {
        assert Nearest(b, desired, cap, i, spacing, down);
      }
    }
  }

  /** Adding the cap completes the ladder: the order, alignment and range checks that follow
      the loop cannot fail, and no other ladder is lexicographically closer. */
  lemma Complete(b: seq<int>, desired: seq<int>, cap: int, spacing: int, down: bool)
    requires spacing > 0 && |desired| == 6 && |b| == 5 && Projected(b, desired, cap, spacing, down)
    requires Aligned(cap, spacing) && InTickRange(b[0]) && InTickRange(cap)
    ensures Ladder(b + [cap], b[0], cap, spacing, down)
    ensures forall i :: 0 <= i < 6 ==> Aligned((b + [cap])[i], spacing) && InTickRange((b + [cap])[i])
    ensures forall o: seq<int> :: Ladder(o, b[0], cap, spacing, down) && o != b + [cap] ==> LexCloser(b + [cap], o, desired)
  {
    var all := b + [cap];
    assert Further(b[4], cap, spacing, down);
    assert Ladder(all, b[0], cap, spacing, down);
    forall i | 0 <= i < 6 ensures InTickRange(all[i]) {
      RoomLeft(all, b[0], cap, spacing, down, i);
      RoomUsed(all, b[0], cap, spacing, down, i);
    }
    forall i | 1 <= i < 5 ensures Nearest(all, desired, cap, i, spacing, down) {
      assert Nearest(b, desired, cap, i, spacing, down);
    }
    forall o: seq<int> | Ladder(o, b[0], cap, spacing, down) && o != all ensures LexCloser(all, o, desired) {
      ClosestWins(all, o, desired, b[0], cap, spacing, down);
    }
  }

  /** Boundary `i` is the point of its feasible interval nearest to the desired tick. */
  predicate Nearest(b: seq<int>, desired: seq<int>, cap: int, i: nat, spacing: int, down: bool)
    requires 1 <= i < |b| && i < |desired|
  {
    Lower(b[i - 1], cap, i, spacing, down) <= Upper(b[i - 1], cap, i, spacing, down)
    && b[i] == Clamp(desired[i], Lower(b[i - 1], cap, i, spacing, down), Upper(b[i - 1], cap, i, spacing, down))
  }

  lemma BoundsAligned(previous: int, cap: int, index: nat, spacing: int, down: bool)
    requires spacing > 0 && Aligned(previous, spacing) && Aligned(cap, spacing)
    ensures Aligned(Lower(previous, cap, index, spacing, down), spacing)
    ensures Aligned(Upper(previous, cap, index, spacing, down), spacing)
  {
    AlignedSum(cap, 5 - index, spacing);
    AlignedSum(cap, index - 5, spacing);
    AlignedSum(previous, 1, spacing);
    AlignedSum(previous, -1, spacing);
    assert cap + (index - 5) * spacing == cap - (5 - index) * spacing;
  }

  /** From boundary `i` on, a ladder still has room for the remaining spacings. */
  lemma {:induction false} RoomLeft(b: seq<int>, base: int, cap: int, spacing: int, down: bool, i: nat)
    requires Ladder(b, base, cap, spacing, down) && i <= 5
    ensures Depth(b[i], cap, down) >= (5 - i) * spacing
    decreases 5 - i
  {
    if i < 5 {
      RoomLeft(b, base, cap, spacing, down, i + 1);
      assert Further(b[i], b[i + 1], spacing, down);
    }
  }

  lemma {:induction false} RoomUsed(b: seq<int>, base: int, cap: int, spacing: int, down: bool, i: nat)
    requires spacing > 0 && Ladder(b, base, cap, spacing, down) && i <= 5
    ensures Depth(base, b[i], down) >= 0
  {
    if i > 0 {
      RoomUsed(b, base, cap, spacing, down, i - 1);
      assert Further(b[i - 1], b[i], spacing, down);
    }
  }

  /** Any ladder agrees with the projected one up to some boundary, and there the projected
      one is strictly nearer to the desired tick. */
  lemma ClosestWins(a: seq<int>, b: seq<int>, desired: seq<int>, base: int, cap: int, spacing: int, down: bool)
    requires |a| == |desired| == 6 && a[0] == base && a[5] == cap
    requires forall i :: 1 <= i < 5 ==> Nearest(a, desired, cap, i, spacing, down)
    requires Ladder(b, base, cap, spacing, down) && a != b
    ensures LexCloser(a, b, desired)
  {
    var i := FirstDifference(a, b);
    assert 1 <= i < 5;
    RoomLeft(b, base, cap, spacing, down, i);
    assert b[i - 1] == a[i - 1] by {
      assert a[..i][i - 1] == b[..i][i - 1];
    }
    assert Further(b[i - 1], b[i], spacing, down);
    assert Lower(a[i - 1], cap, i, spacing, down) <= b[i] <= Upper(a[i - 1], cap, i, spacing, down);
    assert Nearest(a, desired, cap, i, spacing, down);
  }

  lemma {:induction false} FirstDifference(a: seq<int>, b: seq<int>) returns (i: nat)
    requires |a| == |b| && a != b
    ensures i < |a| && a[..i] == b[..i] && a[i] != b[i]
  {
    if a[0] != b[0] {
      i := 0;
    } else {
      assert a == [a[0]] + a[1..] && b == [b[0]] + b[1..];
      var k := FirstDifference(a[1..], b[1..]);
      assert a[..k + 1] == [a[0]] + a[1..][..k] && b[..k + 1] == [b[0]] + b[1..][..k];
      i := k + 1;
    }
  }

  /** The rejection is right: endpoints less than five spacings apart admit no ladder at all. */
  lemma NoLadderWhenClose(b: seq<int>, base: int, cap: int, spacing: int, down: bool)
    requires Depth(base, cap, down) < 5 * spacing
    ensures !Ladder(b, base, cap, spacing, down)
  {
    if Ladder(b, base, cap, spacing, down) {
      RoomLeft(b, base, cap, spacing, down, 0);
    }
  }
}
