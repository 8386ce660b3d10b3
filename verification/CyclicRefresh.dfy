/** The cyclic refresh of cached pools: a cursor that goes around the pool addresses. */
module CyclicRefresh {
  import opened Prelude

  type Pool = nat

  /** The cached pools in address order. */
  predicate Ordered(pools: seq<Pool>) {
    forall i, j :: 0 <= i < j < |pools| ==> pools[i] < pools[j]
  }

  function Above(pools: seq<Pool>, after: int): seq<Pool> {
    if pools == [] then [] else (if pools[0] > after then [pools[0]] else []) + Above(pools[1..], after)
  }

  function UpTo(pools: seq<Pool>, after: int): seq<Pool> {
    if pools == [] then [] else (if pools[0] <= after then [pools[0]] else []) + UpTo(pools[1..], after)
  }

  function Take(pools: seq<Pool>, limit: nat): seq<Pool> {
    pools[..Min(|pools|, limit)]
  }

  datatype Plan = Plan(pools: seq<Pool>, after: int)

  /** `planV3Refresh`: the pools above the saved address, then those up to it. An empty saved
      address is -1. */
  function PlanRefresh(pools: seq<Pool>, after: int, limit: nat): Plan {
    var first := Take(Above(pools, after), limit);
    var rows := if |first| < limit then first + Take(UpTo(pools, after), limit - |first|) else first;
    Plan(rows, if rows == [] then after else rows[|rows| - 1])
  }

  // ---- one round ----

  /** How many pools lie at or below the saved address: where the round starts. */
  function Position(pools: seq<Pool>, after: int): nat {
    |UpTo(pools, after)|
  }

  /** An ordered list splits at the saved address. */
  lemma {:induction false} SplitAt(pools: seq<Pool>, after: int)
    requires Ordered(pools)
    ensures Position(pools, after) <= |pools|
    ensures UpTo(pools, after) == pools[..Position(pools, after)] && Above(pools, after) == pools[Position(pools, after)..]
  {
    if pools != [] {
      SplitAt(pools[1..], after);
      assert pools == [pools[0]] + pools[1..];
      if pools[0] > after {
        NoneUpTo(pools[1..], after);
      }
    }
  }

  lemma {:induction false} NoneUpTo(pools: seq<Pool>, after: int)
    requires forall i :: 0 <= i < |pools| ==> pools[i] > after
    ensures UpTo(pools, after) == []
  {
    if pools != [] {
      NoneUpTo(pools[1..], after);
    }
  }

  /** The saved address of a pool puts the cursor right behind it. */
  lemma PositionOf(pools: seq<Pool>, i: nat)
    requires Ordered(pools) && i < |pools|
    ensures Position(pools, pools[i]) == i + 1
  {
    SplitAt(pools, pools[i]);
    var p := Position(pools, pools[i]);
    if p <= i {
      assert pools[p..][i - p] == pools[i];
      AboveIsAbove(pools, pools[i], i - p);
    }
    if p > i + 1 {
      UpToIsUpTo(pools, pools[i], i + 1);
    }
  }

  lemma {:induction false} AboveIsAbove(pools: seq<Pool>, after: int, k: nat)
    requires k < |Above(pools, after)|
    ensures Above(pools, after)[k] > after
  {
    if pools[0] > after {
      if k > 0 {
        AboveIsAbove(pools[1..], after, k - 1);
      }
    } else {
      AboveIsAbove(pools[1..], after, k);
    }
  }

  lemma {:induction false} UpToIsUpTo(pools: seq<Pool>, after: int, k: nat)
    requires k < |UpTo(pools, after)|
    ensures UpTo(pools, after)[k] <= after
  {
    if pools[0] <= after {
      if k > 0 {
        UpToIsUpTo(pools[1..], after, k - 1);
      }
    } else {
      UpToIsUpTo(pools[1..], after, k);
    }
  }

  /** The pools in the order in which they come next. */
  function Ring(pools: seq<Pool>, after: int): seq<Pool> {
    Above(pools, after) + UpTo(pools, after)
  }

  predicate Distinct(s: seq<Pool>) {
    forall i, j :: 0 <= i < j < |s| ==> s[i] != s[j]
  }

  lemma RingIsRotation(pools: seq<Pool>, after: int)
    requires Ordered(pools)
    ensures var p := Position(pools, after); p <= |pools| && Ring(pools, after) == pools[p..] + pools[..p]
    ensures |Ring(pools, after)| == |pools| && Distinct(Ring(pools, after))
  {
    SplitAt(pools, after);
  }

  lemma OnTheRing(pools: seq<Pool>, after: int, x: Pool) returns (i: nat)
    requires Ordered(pools) && x in pools
    ensures i < |Ring(pools, after)| && Ring(pools, after)[i] == x
  {
    RingIsRotation(pools, after);
    var p := Position(pools, after);
    var k :| 0 <= k < |pools| && pools[k] == x;
    i := if k < p then |pools| - p + k else k - p;
  }

  /** A round takes the next min(limit, n) distinct pools in cyclic order and turns the ring
      by as many. */
  lemma RoundIsCyclic(pools: seq<Pool>, after: int, limit: nat)
    requires Ordered(pools)
    ensures var plan := PlanRefresh(pools, after, limit); var k := Min(limit, |pools|); var ring := Ring(pools, after);
            |ring| == |pools| && plan.pools == ring[..k] && Distinct(plan.pools)
            && Ring(pools, plan.after) == ring[k..] + ring[..k]
  {
    RingIsRotation(pools, after);
    RoundIsPrefix(pools, after, limit);
    var k, ring := Min(limit, |pools|), Ring(pools, after);
    if k == 0 {
      assert ring[0..] + ring[..0] == ring;
    } else {
      TurnedBehind(pools, after, k);
    }
  }

  lemma RoundIsPrefix(pools: seq<Pool>, after: int, limit: nat)
    requires |Ring(pools, after)| == |pools|
    ensures PlanRefresh(pools, after, limit).pools == Ring(pools, after)[..Min(limit, |pools|)]
  {
  }

  lemma TurnedBehind(pools: seq<Pool>, after: int, k: nat)
    requires Ordered(pools) && 0 < k <= |pools| && |Ring(pools, after)| == |pools|
    ensures Ring(pools, Ring(pools, after)[k - 1]) == Ring(pools, after)[k..] + Ring(pools, after)[..k]
  {
    RingIsRotation(pools, after);
    var p, n := Position(pools, after), |pools|;
    var i := if p + k <= n then p + k else p + k - n;
    Turn(pools, p, k, i);
    PositionOf(pools, i - 1);
    RingIsRotation(pools, pools[i - 1]);
  }

  lemma Turn(s: seq<Pool>, p: nat, k: nat, i: nat)
    requires p <= |s| && 0 < k <= |s| && i == if p + k <= |s| then p + k else p + k - |s|
    ensures 0 < i <= |s| && (s[p..] + s[..p])[k - 1] == s[i - 1]
    ensures s[i..] + s[..i] == (s[p..] + s[..p])[k..] + (s[p..] + s[..p])[..k]
  {
    var ring := s[p..] + s[..p];
    if p + k <= |s| {
      assert ring[k..] == s[i..] + s[..p];
      assert ring[..k] == s[p..i];
      assert s[..i] == s[..p] + s[p..i];
    } else {
      assert ring[k..] == s[i..p];
      assert ring[..k] == s[p..] + s[..i];
      assert s[i..] == s[i..p] + s[p..];
    }
  }

  // ---- many rounds ----

  datatype Progress = Progress(after: int, attempted: seq<Pool>)

  /** Rounds with the given limits: the saved address, and every attempt so far. A failed
      refresh is an attempt like any other, the cursor moves on all the same. */
  function Rounds(pools: seq<Pool>, after: int, limits: seq<nat>): Progress {
    if limits == [] then Progress(after, [])
    else
      var before := Rounds(pools, after, limits[..|limits| - 1]);
      var plan := PlanRefresh(pools, before.after, limits[|limits| - 1]);
      Progress(plan.after, before.attempted + plan.pools)
  }

  function Occurrences(s: seq<Pool>, pool: Pool): nat {
    if s == [] then 0 else Occurrences(s[..|s| - 1], pool) + if s[|s| - 1] == pool then 1 else 0
  }

  lemma {:induction false} OccurrencesConcat(a: seq<Pool>, b: seq<Pool>, pool: Pool)
    ensures Occurrences(a + b, pool) == Occurrences(a, pool) + Occurrences(b, pool)
  {
    if b == [] {
      assert a + b == a;
    } else {
      assert (a + b)[..|a + b| - 1] == a + b[..|b| - 1];
      OccurrencesConcat(a, b[..|b| - 1], pool);
    }
  }

  lemma {:induction false} OccurrencesDistinct(s: seq<Pool>, pool: Pool)
    requires Distinct(s)
    ensures Occurrences(s, pool) == if pool in s then 1 else 0
  {
    if s != [] {
      OccurrencesDistinct(s[..|s| - 1], pool);
      assert s == s[..|s| - 1] + [s[|s| - 1]];
    }
  }

  /** Every pool was attempted `turns` times, except the last `ahead` of the ring, which were
      attempted once more. */
  predicate Balanced(ring: seq<Pool>, attempted: seq<Pool>, turns: nat, ahead: nat) {
    ahead <= |ring|
    && forall i :: 0 <= i < |ring| ==> Occurrences(attempted, ring[i]) == if i < |ring| - ahead then turns else turns + 1
  }

  lemma BalancedStep(ring: seq<Pool>, attempted: seq<Pool>, turns: nat, ahead: nat, k: nat)
    returns (turns': nat, ahead': nat)
    requires Distinct(ring) && k <= |ring| && Balanced(ring, attempted, turns, ahead)
    ensures Balanced(ring[k..] + ring[..k], attempted + ring[..k], turns', ahead')
  {
    var n, next := |ring|, ring[k..] + ring[..k];
    turns', ahead' := if k <= n - ahead then turns else turns + 1, if k <= n - ahead then ahead + k else k - (n - ahead);
    forall i | 0 <= i < n
      ensures Occurrences(attempted + ring[..k], next[i]) == if i < n - ahead' then turns' else turns' + 1
    {
      var at := if i < n - k then i + k else i - (n - k);
      assert next[i] == ring[at];
      OccurrencesConcat(attempted, ring[..k], ring[at]);
      OccurrencesDistinct(ring[..k], ring[at]);
      if at < k {
        assert ring[..k][at] == ring[at];
      }
    }
  }

  lemma {:induction false} RoundsAreBalanced(pools: seq<Pool>, after: int, limits: seq<nat>) returns (turns: nat, ahead: nat)
    requires Ordered(pools)
    ensures var r := Rounds(pools, after, limits); Balanced(Ring(pools, r.after), r.attempted, turns, ahead)
  {
    if limits == [] {
      turns, ahead := 0, 0;
    } else {
      var before := Rounds(pools, after, limits[..|limits| - 1]);
      turns, ahead := RoundsAreBalanced(pools, after, limits[..|limits| - 1]);
      RingIsRotation(pools, before.after);
      RoundIsCyclic(pools, before.after, limits[|limits| - 1]);
      turns, ahead := BalancedStep(Ring(pools, before.after), before.attempted, turns, ahead, Min(limits[|limits| - 1], |pools|));
    }
  }

  /** After any number of rounds, with any limits and any failures, the attempt counts of any
      two pools differ by at most one. */
  lemma AttemptsAreFair(pools: seq<Pool>, after: int, limits: seq<nat>, x: Pool, y: Pool)
    requires Ordered(pools) && x in pools && y in pools
    ensures var s := Rounds(pools, after, limits).attempted; Abs(Occurrences(s, x) - Occurrences(s, y)) <= 1
  {
    var turns, ahead := RoundsAreBalanced(pools, after, limits);
    var i := OnTheRing(pools, Rounds(pools, after, limits).after, x);
    var j := OnTheRing(pools, Rounds(pools, after, limits).after, y);
  }

  // ---- the cache as it is updated in place ----

  /** What one inspection returned: the refreshed state, if it was available and from the
      right factory. */
  datatype Inspection = Inspection(pool: Pool, state: Option<nat>)

  class Cache {
    var states: map<Pool, nat>
    var after: int

    constructor (states: map<Pool, nat>)
      ensures this.states == states && after == -1
    {
      this.states, after := states, -1;
    }

    /** `persistV3Refresh`: only successful inspections of cached pools are stored; the cursor
        moves whatever the outcomes are. */
    method PersistRefresh(plan: Plan, results: seq<Inspection>)
      modifies this
      ensures after == plan.after && states.Keys == old(states).Keys
      ensures forall pool <- old(states) ::
                states[pool] == (match LastFresh(results, pool) case Some(v) => v case None => old(states)[pool])
    {
      ghost var before := states;
      for i := 0 to |results|
        invariant states.Keys == before.Keys
        invariant forall pool <- before ::
                    states[pool] == (match LastFresh(results[..i], pool) case Some(v) => v case None => before[pool])
      {
        var item := results[i];
        assert results[..i + 1][..i] == results[..i];
        if item.state.Some? && item.pool in states {
          states := states[item.pool := item.state.value];
        }
      }
      assert results[..|results|] == results;
      after := plan.after;
    }
  }

  predicate Refreshes(item: Inspection, pool: Pool) {
    item.pool == pool && item.state.Some?
  }

  /** What is stored of a pool: the state of its last successful inspection. */
  lemma {:induction false} LastFreshIs(results: seq<Inspection>, pool: Pool)
    ensures LastFresh(results, pool).None? <==> forall k :: 0 <= k < |results| ==> !Refreshes(results[k], pool)
    ensures LastFresh(results, pool).Some? ==>
              exists i: nat :: i < |results| && Refreshes(results[i], pool) && LastFresh(results, pool) == results[i].state
                               && forall k :: i < k < |results| ==> !Refreshes(results[k], pool)
  {
    if results != [] {
      var n := |results| - 1;
      LastFreshIs(results[..n], pool);
      if Refreshes(results[n], pool) {
        assert LastFresh(results, pool) == results[n].state;
      } else if LastFresh(results, pool).Some? {
        var i: nat :| i < n && Refreshes(results[..n][i], pool) && LastFresh(results, pool) == results[..n][i].state
                      && forall k :: i < k < n ==> !Refreshes(results[..n][k], pool);
        assert results[i] == results[..n][i];
        assert forall k :: i < k < n ==> results[k] == results[..n][k];
      }
    }
  }

  function LastFresh(results: seq<Inspection>, pool: Pool): Option<nat> {
    if results == [] then None
    else
      var last := results[|results| - 1];
      if last.pool == pool && last.state.Some? then last.state else LastFresh(results[..|results| - 1], pool)
  }
}
