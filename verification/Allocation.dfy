/** Which pools a direct token lookup refreshes: a few by rank, the rest by a fair cursor. */
module Allocation {
  import opened Prelude
  import opened Arithmetic

  type Pool = nat

  datatype Row = Row(pool: Pool, initialized: bool, refreshedAt: Option<int>, liquidity: nat, lastKnownEligible: bool, quoteIsUsd: bool)

  const FAST_SLOTS := 6
  const MAX_BUDGET := 12
  const FRESH_MS := 120000

  function RefreshMs(row: Row): int {
    if row.refreshedAt.Some? then row.refreshedAt.value else 0
  }

  predicate Fresh(row: Row, now: int) {
    row.refreshedAt.Some? && RefreshMs(row) >= now - FRESH_MS
  }

  predicate FastCandidate(row: Row, now: int) {
    !Fresh(row, now) && (row.liquidity > 0 || row.lastKnownEligible)
  }

  predicate StaleCandidate(row: Row, now: int) {
    !row.initialized || row.refreshedAt.None? || RefreshMs(row) < now - FRESH_MS
  }

  function Rank(b: bool): int {
    if b then 0 else 1
  }

  /** The comparator of the fast ranking, as a strict order. */
  predicate RanksBefore(a: Row, b: Row) {
    var active, known := Rank(a.liquidity > 0) - Rank(b.liquidity > 0), Rank(a.lastKnownEligible) - Rank(b.lastKnownEligible);
    var usd := Rank(a.quoteIsUsd) - Rank(b.quoteIsUsd);
    if active != 0 then active < 0
    else if known != 0 then known < 0
    else if usd != 0 then usd < 0
    else if a.liquidity != b.liquidity then a.liquidity > b.liquidity
    else if RefreshMs(a) != RefreshMs(b) then RefreshMs(a) < RefreshMs(b)
    else a.pool < b.pool
  }

  predicate WaitsLonger(a: Row, b: Row) {
    RefreshMs(a) < RefreshMs(b) || (RefreshMs(a) == RefreshMs(b) && a.pool < b.pool)
  }

  predicate DistinctPools(rows: seq<Row>) {
    forall i, j :: 0 <= i < j < |rows| ==> rows[i].pool != rows[j].pool
  }

  /** The stale rows, longest waiting first, and the fast rows by rank, of one registry. */
  ghost predicate Sorted(rows: seq<Row>, now: int, fast: seq<Row>, stale: seq<Row>) {
    && DistinctPools(rows)
    && DistinctPools(fast) && (forall r: Row :: r in fast <==> r in rows && FastCandidate(r, now))
    && DistinctPools(stale) && (forall r: Row :: r in stale <==> r in rows && StaleCandidate(r, now))
    && (forall i, j :: 0 <= i < j < |fast| ==> RanksBefore(fast[i], fast[j]))
    && (forall i, j :: 0 <= i < j < |stale| ==> WaitsLonger(stale[i], stale[j]))
  }

  predicate Among(a: seq<Row>, b: seq<Row>) {
    forall i :: 0 <= i < |a| ==> a[i] in b
  }

  predicate Fits(fast: seq<Row>, stale: seq<Row>) {
    DistinctPools(fast) && DistinctPools(stale) && Among(fast, stale)
  }

  /** Both orders are strict and total over different pools, so the sorted lists are unique. */
  lemma OrdersAreTotal(a: Row, b: Row, c: Row)
    ensures a.pool != b.pool ==> (RanksBefore(a, b) <==> !RanksBefore(b, a)) && (WaitsLonger(a, b) <==> !WaitsLonger(b, a))
    ensures !RanksBefore(a, a) && !WaitsLonger(a, a)
    ensures RanksBefore(a, b) && RanksBefore(b, c) ==> RanksBefore(a, c)
    ensures WaitsLonger(a, b) && WaitsLonger(b, c) ==> WaitsLonger(a, c)
  {
  }

  /** What the ranking prefers, in this order: liquidity at all, a pool known to be eligible, a
      quote in dollars, more liquidity, and an older refresh. */
  lemma RankingPrefers(a: Row, b: Row)
    requires RanksBefore(a, b)
    ensures b.liquidity > 0 ==> a.liquidity > 0
    ensures (a.liquidity > 0 <==> b.liquidity > 0) && b.lastKnownEligible ==> a.lastKnownEligible
    ensures (a.liquidity > 0 <==> b.liquidity > 0) && a.lastKnownEligible == b.lastKnownEligible && b.quoteIsUsd ==> a.quoteIsUsd
    ensures (a.liquidity > 0 <==> b.liquidity > 0) && a.lastKnownEligible == b.lastKnownEligible && a.quoteIsUsd == b.quoteIsUsd ==>
              a.liquidity > b.liquidity || (a.liquidity == b.liquidity && RefreshMs(a) <= RefreshMs(b))
  {
  }

  /** Which rows are candidates: a stale one is uninitialized or was not refreshed within two
      minutes, and a fast one was not either and is liquid or known to be eligible. */
  lemma CandidatesAre(row: Row, now: int)
    ensures var recent := row.refreshedAt.Some? && row.refreshedAt.value >= now - 120_000;
            && (StaleCandidate(row, now) <==> !row.initialized || !recent)
            && (FastCandidate(row, now) <==> !recent && (row.liquidity > 0 || row.lastKnownEligible))
  {
  }

  /** Every fast candidate is also a stale one. */
  lemma FastIsStale(rows: seq<Row>, now: int, fast: seq<Row>, stale: seq<Row>)
    requires Sorted(rows, now, fast, stale)
    ensures Fits(fast, stale)
  {
  }

  // ---- one allocation ----

  function Budget(limit: int): (b: nat)
    ensures 1 <= b <= 12
    ensures b == limit || (b == 1 && limit < 1) || (b == 12 && limit > 12)
  {
    Max(1, Min(MAX_BUDGET, limit))
  }

  function Pools(rows: seq<Row>): set<Pool> {
    set i | 0 <= i < |rows| :: rows[i].pool
  }

  /** The cursor, taken around the ring; it starts over when its row is fresher than the row
      that has waited longest. */
  function Start(stale: seq<Row>, cursor: nat): (start: nat)
    ensures stale != [] ==> start < |stale|
    ensures stale == [] ==> start == 0
    ensures stale != [] ==>
              if RefreshMs(stale[cursor % |stale|]) > RefreshMs(stale[0]) then start == 0 else start == cursor % |stale|
  {
    if stale == [] then 0
    else if RefreshMs(stale[cursor % |stale|]) > RefreshMs(stale[0]) then 0 else cursor % |stale|
  }

  function Rotate<T>(s: seq<T>, k: nat): (r: seq<T>)
    requires k <= |s|
    ensures |r| == |s|
  {
    s[k..] + s[..k]
  }

  lemma RotateAt<T>(s: seq<T>, k: nat, i: nat)
    requires k < |s| && i < |s|
    ensures Rotate(s, k)[i] == s[(k + i) % |s|]
  {
    Wraps(k + i, |s|);
  }

  /** The rows that are not selected already. */
  function Others(s: seq<Row>, taken: set<Pool>): seq<Row> {
    if s == [] then []
    else Others(s[..|s| - 1], taken) + if s[|s| - 1].pool in taken then [] else [s[|s| - 1]]
  }

  // ---- filtering ----

  lemma {:induction false} OthersMember(s: seq<Row>, taken: set<Pool>)
    ensures forall r: Row :: r in Others(s, taken) <==> r in s && r.pool !in taken
    ensures |Others(s, taken)| <= |s|
  {
    if s != [] {
      OthersMember(s[..|s| - 1], taken);
      assert s == s[..|s| - 1] + [s[|s| - 1]];
    }
  }

  lemma {:induction false} OthersDistinct(s: seq<Row>, taken: set<Pool>)
    requires DistinctPools(s)
    ensures DistinctPools(Others(s, taken))
  {
    if s != [] {
      OthersDistinct(s[..|s| - 1], taken);
      OthersMember(s[..|s| - 1], taken);
    }
  }

  lemma {:induction false} OthersConcat(a: seq<Row>, b: seq<Row>, taken: set<Pool>)
    ensures Others(a + b, taken) == Others(a, taken) + Others(b, taken)
  {
    if b == [] {
      assert a + b == a;
    } else {
      assert (a + b)[..|a + b| - 1] == a + b[..|b| - 1];
      OthersConcat(a, b[..|b| - 1], taken);
    }
  }

  /** Taking one more pool of distinct rows removes exactly that row. */
  lemma {:induction false} TakeOne(s: seq<Row>, taken: set<Pool>, p: Pool)
    requires DistinctPools(s) && p !in taken
    ensures p !in Pools(s) ==> Others(s, taken + {p}) == Others(s, taken)
    ensures p in Pools(s) ==> |Others(s, taken + {p})| == |Others(s, taken)| - 1
  {
    if s != [] {
      var n := |s| - 1;
      TakeOne(s[..n], taken, p);
      assert forall q :: q in Pools(s[..n]) ==> q in Pools(s) && q != s[n].pool;
      assert forall q :: q in Pools(s) ==> q in Pools(s[..n]) || q == s[n].pool;
    }
  }

  /** Distinct rows split into those taken and the others. */
  lemma {:induction false} OthersCount(s: seq<Row>, first: seq<Row>)
    requires DistinctPools(s) && DistinctPools(first) && forall r: Row :: r in first ==> r in s
    ensures |Others(s, Pools(first))| == |s| - |first|
  {
    if first == [] {
      NoneTaken(s, Pools(first));
    } else {
      var n := |first| - 1;
      OthersCount(s, first[..n]);
      assert first[n] in first && first[n].pool in Pools(s);
      assert Pools(first) == Pools(first[..n]) + {first[n].pool};
      TakeOne(s, Pools(first[..n]), first[n].pool);
    }
  }

  lemma {:induction false} NoneTaken(s: seq<Row>, taken: set<Pool>)
    requires forall r: Row :: r in s ==> r.pool !in taken
    ensures Others(s, taken) == s
  {
    if s != [] {
      NoneTaken(s[..|s| - 1], taken);
      assert s[|s| - 1] in s;
    }
  }

  lemma RotateKeeps(s: seq<Row>, k: nat)
    requires k <= |s| && DistinctPools(s)
    ensures DistinctPools(Rotate(s, k)) && forall r: Row :: r in Rotate(s, k) <==> r in s
  {
    assert s == s[..k] + s[k..];
  }

  // ---- the allocation ----

  datatype Allocation = Allocation(
    fast: seq<Row>, fairness: seq<Row>, backfill: seq<Row>, offsets: seq<nat>, cursorAfter: nat, overlap: nat)

  function Selected(a: Allocation): seq<Row> {
    a.fast + a.fairness + a.backfill
  }

  /** `offset` is the cursor just behind the `k`-th untaken row on the ring from `start`. */
  predicate IsOffset(stale: seq<Row>, start: nat, taken: set<Pool>, k: nat, offset: nat)
    requires start <= |stale|
  {
    exists t | 0 < t <= |stale| ::
      Others(Rotate(stale, start)[..t], taken) != [] && |Others(Rotate(stale, start)[..t], taken)| == k
      && Rotate(stale, start)[t - 1].pool !in taken && offset == (start + t) % |stale|
  }

  /** The traversal goes on while rows and slots are left: it ends at the first point of the
      ring where one of them has run out. */
  predicate StopsAt(stale: seq<Row>, start: nat, taken: set<Pool>, target: nat, t: nat)
    requires start <= |stale|
  {
    var ring := Rotate(stale, start);
    && t <= |stale|
    && (t < |stale| ==> |Others(ring[..t], taken)| == target)
    && (t > 0 ==> |Others(ring[..t - 1], taken)| < target)
  }

  /** Once the ring is exhausted every fast row is picked, so nothing is left of the ranking. */
  lemma NothingToBackfill(fast: seq<Row>, stale: seq<Row>, ring: seq<Row>, first: seq<Row>, fairness: seq<Row>)
    requires Among(fast, stale) && (forall r: Row :: r in stale ==> r in ring)
    requires fairness == Others(ring, Pools(first))
    ensures Others(fast, Pools(first + fairness)) == []
  {
    forall i | 0 <= i < |fast| ensures fast[i].pool in Pools(first + fairness) {
      FastRowPicked(fast[i], ring, first, fairness);
    }
    AllTaken(fast, Pools(first + fairness));
  }

  lemma FastRowPicked(row: Row, ring: seq<Row>, first: seq<Row>, fairness: seq<Row>)
    requires row in ring && fairness == Others(ring, Pools(first))
    ensures row.pool in Pools(first + fairness)
  {
    OthersMember(ring, Pools(first));
    if row.pool in Pools(first) {
      var i :| 0 <= i < |first| && first[i].pool == row.pool;
      assert (first + fairness)[i].pool == row.pool;
    } else {
      var i :| 0 <= i < |fairness| && fairness[i] == row;
      assert (first + fairness)[|first| + i].pool == row.pool;
    }
  }

  lemma {:induction false} AllTaken(s: seq<Row>, taken: set<Pool>)
    requires forall i :: 0 <= i < |s| ==> s[i].pool in taken
    ensures Others(s, taken) == []
  {
    if s != [] {
      AllTaken(s[..|s| - 1], taken);
    }
  }

  /** The picks are distinct stale rows, as many as the budget and the stale rows allow. */
  lemma PicksAreDistinct(stale: seq<Row>, ring: seq<Row>, first: seq<Row>, target: nat)
    requires DistinctPools(stale) && DistinctPools(ring) && (forall r: Row :: r in ring <==> r in stale) && |ring| == |stale|
    requires DistinctPools(first) && forall r: Row :: r in first ==> r in stale
    ensures var round := Others(ring, Pools(first)); var fairness := round[..Min(|round|, target)];
            |first + fairness| == Min(|first| + target, |stale|) && DistinctPools(first + fairness)
            && forall r: Row :: r in first + fairness ==> r in stale
  {
    var round := Others(ring, Pools(first));
    OthersMember(ring, Pools(first));
    OthersDistinct(ring, Pools(first));
    OthersCount(ring, first);
    var fairness := round[..Min(|round|, target)];
    forall i, j | 0 <= i < j < |first + fairness| ensures (first + fairness)[i].pool != (first + fairness)[j].pool {
      if i < |first| && j >= |first| {
        assert fairness[j - |first|] in round;
        assert first[i].pool in Pools(first);
      }
    }
  }

  /** `allocateDirectLookupCandidates`. The traversal goes at most once around the stale rows
      from the cursor; `offsets` are the cursors behind each fairness pick. It is
      work-conserving: exactly the budget or all stale rows, and nothing left to backfill. The
      cursor after it stands behind the `traversed` rows it passed. */
  method Allocate(fast: seq<Row>, stale: seq<Row>, cursor: nat, limit: int) returns (a: Allocation, ghost traversed: nat)
    requires Fits(fast, stale)
    ensures |Selected(a)| == Min(Budget(limit), |stale|) && DistinctPools(Selected(a)) && Among(Selected(a), stale)
    ensures a.backfill == []
    ensures a.fast == fast[..Min(|fast|, Min(6, Budget(limit)))]
    ensures var round := RoundFrom(stale, Pools(a.fast), Start(stale, cursor));
            a.fairness == round[..Min(|round|, Budget(limit) - |a.fast|)]
    ensures |a.offsets| == |a.fairness|
    ensures forall i :: 0 <= i < |a.offsets| ==> IsOffset(stale, Start(stale, cursor), Pools(a.fast), i + 1, a.offsets[i])
    ensures StopsAt(stale, Start(stale, cursor), Pools(a.fast), Budget(limit) - |a.fast|, traversed)
    ensures a.overlap == traversed - |a.fairness|
    ensures a.cursorAfter == if stale == [] then 0 else (Start(stale, cursor) + traversed) % |stale|
  {
    var budget := Budget(limit);
    var first := fast[..Min(|fast|, Min(FAST_SLOTS, budget))];
    var start, target := Start(stale, cursor), budget - |first|;
    var fairness, offsets, passed, overlap := Traverse(stale, start, Pools(first), target);
    traversed := passed;
    FirstFits(fast, stale, |first|);
    RingFacts(stale, start, first, target);
    NoBackfill(fast, stale, start, first, fairness, target, passed);
    var remaining := Others(fast, Pools(first + fairness));
    assert budget - |first + fairness| == target - |fairness|;
    var backfill := remaining[..Min(|remaining|, budget - |first + fairness|)];
    assert backfill == [] && first + fairness + backfill == first + fairness;
    a := Allocation(first, fairness, backfill, offsets, if stale == [] then 0 else (start + passed) % |stale|, overlap);
  }

  /** What is left of the ranking, or of the budget, is nothing. */
  lemma NoBackfill(fast: seq<Row>, stale: seq<Row>, start: nat, first: seq<Row>, fairness: seq<Row>, target: nat, passed: nat)
    requires Fits(fast, stale) && start <= |stale| && passed <= |stale| && |fairness| <= target
    requires passed < |stale| ==> |fairness| == target
    requires passed == |stale| ==> fairness == RoundFrom(stale, Pools(first), start)
    ensures var remaining := Others(fast, Pools(first + fairness));
            remaining[..Min(|remaining|, target - |fairness|)] == []
  {
    if passed == |stale| {
      RotateKeeps(stale, start);
      NothingToBackfill(fast, stale, Rotate(stale, start), first, fairness);
    }
  }

  lemma RingFacts(stale: seq<Row>, start: nat, first: seq<Row>, target: nat)
    requires start <= |stale| && Fits(first, stale)
    ensures var round := RoundFrom(stale, Pools(first), start); var fairness := round[..Min(|round|, target)];
            |first + fairness| == Min(|first| + target, |stale|) && DistinctPools(first + fairness) && Among(first + fairness, stale)
  {
    RotateKeeps(stale, start);
    PicksAreDistinct(stale, Rotate(stale, start), first, target);
  }

  /** The untaken rows on the ring from `start`, in order. */
  function RoundFrom(stale: seq<Row>, taken: set<Pool>, start: nat): seq<Row>
    requires start <= |stale|
  {
    Others(Rotate(stale, start), taken)
  }

  method Traverse(stale: seq<Row>, start: nat, taken: set<Pool>, target: nat)
    returns (fairness: seq<Row>, offsets: seq<nat>, traversed: nat, overlap: nat)
    requires start <= |stale| && (stale != [] ==> start < |stale|)
    ensures var round := RoundFrom(stale, taken, start); fairness == round[..Min(|round|, target)]
    ensures traversed <= |stale| && (traversed < |stale| ==> |fairness| == target)
    ensures traversed == |stale| ==> fairness == RoundFrom(stale, taken, start)
    ensures |offsets| == |fairness|
    ensures forall i :: 0 <= i < |offsets| ==> IsOffset(stale, start, taken, i + 1, offsets[i])
    ensures StopsAt(stale, start, taken, target, traversed) && overlap == traversed - |fairness|
  {
    ghost var ring := Rotate(stale, start);
    fairness, offsets, traversed, overlap := [], [], 0, 0;
    while traversed < |stale| && |fairness| < target
      invariant 0 <= traversed <= |stale| && |fairness| <= target && |offsets| == |fairness|
      invariant fairness == Others(ring[..traversed], taken) && overlap == traversed - |fairness|
      invariant traversed > 0 ==> |Others(ring[..traversed - 1], taken)| < target
      invariant forall i :: 0 <= i < |offsets| ==> IsOffset(stale, start, taken, i + 1, offsets[i])
    {
      var row := stale[(start + traversed) % |stale|];
      RotateAt(stale, start, traversed);
      OthersNext(ring, traversed, taken);
      if row.pool in taken {
        overlap := overlap + 1;
      } else {
        fairness, offsets := fairness + [row], offsets + [(start + traversed + 1) % |stale|];
        PickOffset(stale, start, taken, traversed + 1, fairness);
      }
      traversed := traversed + 1;
    }
    PrefixOfRound(ring, taken, target, traversed);
  }

  lemma PrefixOfRound(ring: seq<Row>, taken: set<Pool>, target: nat, t: nat)
    requires t <= |ring| && |Others(ring[..t], taken)| <= target
    requires t < |ring| ==> |Others(ring[..t], taken)| == target
    ensures var round := Others(ring, taken);
            Others(ring[..t], taken) == round[..Min(|round|, target)] && (t == |ring| ==> Others(ring[..t], taken) == round)
  {
    assert ring == ring[..t] + ring[t..];
    OthersConcat(ring[..t], ring[t..], taken);
    assert t == |ring| ==> ring[..t] == ring;
  }

  lemma OthersNext(ring: seq<Row>, t: nat, taken: set<Pool>)
    requires t < |ring|
    ensures Others(ring[..t + 1], taken) == Others(ring[..t], taken) + if ring[t].pool in taken then [] else [ring[t]]
  {
    assert ring[..t + 1][..t] == ring[..t];
  }

  lemma PickOffset(stale: seq<Row>, start: nat, taken: set<Pool>, t: nat, fairness: seq<Row>)
    requires start <= |stale| && 0 < t <= |stale| && Rotate(stale, start)[t - 1].pool !in taken
    requires fairness == Others(Rotate(stale, start)[..t], taken) && fairness != []
    ensures IsOffset(stale, start, taken, |fairness|, (start + t) % |stale|)
  {
  }

  // ---- coverage over rounds ----

  /** The next round sees the untaken rows rotated by what this round picked. */
  lemma NextRound(stale: seq<Row>, taken: set<Pool>, start: nat, k: nat, offset: nat)
    requires stale != [] && start < |stale| && 0 < k <= |RoundFrom(stale, taken, start)|
    requires IsOffset(stale, start, taken, k, offset)
    ensures offset < |stale| && RoundFrom(stale, taken, offset) == Rotate(RoundFrom(stale, taken, start), k)
  {
    var ring, n := Rotate(stale, start), |stale|;
    var t :| 0 < t <= n && Others(ring[..t], taken) != [] && |Others(ring[..t], taken)| == k
             && ring[t - 1].pool !in taken && offset == (start + t) % n;
    var a, b := ring[..t], ring[t..];
    assert ring == a + b;
    OthersConcat(a, b, taken);
    OthersConcat(b, a, taken);
    assert Rotate(stale, offset) == b + a by {
      RotateTwice(stale, start, t);
    }
    assert RoundFrom(stale, taken, start)[..k] == Others(a, taken);
    assert RoundFrom(stale, taken, start)[k..] == Others(b, taken);
  }

  lemma RotateTwice<T>(s: seq<T>, k: nat, t: nat)
    requires s != [] && k < |s| && t <= |s|
    ensures Rotate(s, (k + t) % |s|) == Rotate(s, k)[t..] + Rotate(s, k)[..t]
  {
    Wraps(k + t, |s|);
    if k + t < |s| {
      TurnWithin(s, k, t);
    } else {
      TurnAround(s, k, t, k + t - |s|);
    }
  }

  lemma TurnWithin<T>(s: seq<T>, k: nat, t: nat)
    requires k + t < |s|
    ensures Rotate(s, k + t) == Rotate(s, k)[t..] + Rotate(s, k)[..t]
  {
    assert Rotate(s, k)[..t] == s[k..k + t];
    assert Rotate(s, k)[t..] == s[k + t..] + s[..k];
    assert s[..k + t] == s[..k] + s[k..k + t];
  }

  lemma TurnAround<T>(s: seq<T>, k: nat, t: nat, j: nat)
    requires k < |s| && t <= |s| && j + |s| == k + t
    ensures Rotate(s, j) == Rotate(s, k)[t..] + Rotate(s, k)[..t]
  {
    assert Rotate(s, k)[..t] == s[k..] + s[..j];
    assert Rotate(s, k)[t..] == s[j..k];
    assert s[j..] == s[j..k] + s[k..];
  }

  /** The pools picked by `r` rounds over a ring of `slots` picks each. */
  function PickedIn(ring: seq<Row>, slots: nat, r: nat): set<Pool>
    decreases r
  {
    if r == 0 then {}
    else if slots >= |ring| then Pools(ring)
    else Pools(ring[..slots]) + PickedIn(Rotate(ring, slots), slots, r - 1)
  }

  /** The row at position `j` of the ring is picked once `r * slots` rows were. */
  lemma {:induction false} PickedByPosition(ring: seq<Row>, slots: nat, r: nat, j: nat)
    requires j < |ring| && j < r * slots
    ensures ring[j].pool in PickedIn(ring, slots, r)
    decreases r
  {
    if slots < |ring| {
      if j < slots {
        assert ring[..slots][j] == ring[j];
      } else {
        assert j - slots < (r - 1) * slots;
        PickedByPosition(Rotate(ring, slots), slots, r - 1, j - slots);
        assert Rotate(ring, slots)[j - slots] == ring[j];
      }
    } else {
      assert r > 0;
    }
  }

  /** One allocate-and-commit round takes the stored cursor from `c` to `d`. */
  predicate Round(stale: seq<Row>, taken: set<Pool>, slots: nat, c: nat, d: nat) {
    var m := |RoundFrom(stale, taken, Start(stale, c))|;
    if m == 0 then d == c else IsOffset(stale, Start(stale, c), taken, Min(m, slots), d)
  }

  /** `cursors[i]` is stored before round i. */
  predicate Rounds(stale: seq<Row>, taken: set<Pool>, slots: nat, cursors: seq<nat>) {
    forall i :: 0 <= i < |cursors| - 1 ==> Round(stale, taken, slots, cursors[i], cursors[i + 1])
  }

  function PickedAlong(stale: seq<Row>, taken: set<Pool>, slots: nat, cursors: seq<nat>): set<Pool> {
    if cursors == [] then {}
    else
      var round := RoundFrom(stale, taken, Start(stale, cursors[0]));
      Pools(round[..Min(|round|, slots)]) + PickedAlong(stale, taken, slots, cursors[1..])
  }

  lemma RoundsTail(stale: seq<Row>, taken: set<Pool>, slots: nat, cursors: seq<nat>)
    requires Rounds(stale, taken, slots, cursors) && |cursors| > 1
    ensures Rounds(stale, taken, slots, cursors[1..]) && Round(stale, taken, slots, cursors[0], cursors[1])
  {
    var tail := cursors[1..];
    forall i | 0 <= i < |tail| - 1 ensures Round(stale, taken, slots, tail[i], tail[i + 1]) {
      assert tail[i] == cursors[i + 1] && tail[i + 1] == cursors[i + 2];
    }
  }

  /** When the stale rows share one refresh time the cursor is taken as stored, so the
      rounds go around the ring without skipping. */
  lemma {:induction false} RoundsFollowRing(stale: seq<Row>, taken: set<Pool>, slots: nat, cursors: seq<nat>)
    requires stale != [] && slots > 0 && cursors != [] && Rounds(stale, taken, slots, cursors)
    requires forall i :: 0 <= i < |stale| ==> RefreshMs(stale[i]) == RefreshMs(stale[0])
    ensures PickedIn(RoundFrom(stale, taken, Start(stale, cursors[0])), slots, |cursors|) <= PickedAlong(stale, taken, slots, cursors)
  {
    var start := Start(stale, cursors[0]);
    var ring := RoundFrom(stale, taken, start);
    if slots >= |ring| {
      assert ring[..|ring|] == ring;
    } else if |cursors| > 1 {
      NextRound(stale, taken, start, slots, cursors[1]);
      StartIsCursor(stale, cursors[1]);
      RoundsTail(stale, taken, slots, cursors);
      RoundsFollowRing(stale, taken, slots, cursors[1..]);
      PickedStep(ring, slots, |cursors|, PickedAlong(stale, taken, slots, cursors[1..]));
    } else {
      PickedStep(ring, slots, 1, {});
    }
  }

  lemma StartIsCursor(stale: seq<Row>, cursor: nat)
    requires stale != [] && cursor < |stale|
    requires forall i :: 0 <= i < |stale| ==> RefreshMs(stale[i]) == RefreshMs(stale[0])
    ensures Start(stale, cursor) == cursor
  {
    assert cursor % |stale| == cursor;
  }

  lemma PickedStep(ring: seq<Row>, slots: nat, r: nat, later: set<Pool>)
    requires 0 < r && slots < |ring| && PickedIn(Rotate(ring, slots), slots, r - 1) <= later
    ensures PickedIn(ring, slots, r) <= Pools(ring[..slots]) + later
  {
  }

  /** Every stale row that is not among the fast ones is picked within
      ceil(non-fast rows / fairness slots) committed rounds, wherever the cursor stood; with
      a budget above the fast slots there always is a fairness slot. */
  lemma RoundsCoverAll(fast: seq<Row>, stale: seq<Row>, limit: int, cursors: seq<nat>, row: Row)
    requires Fits(fast, stale) && Budget(limit) > FAST_SLOTS && row in stale
    requires forall i :: 0 <= i < |stale| ==> RefreshMs(stale[i]) == RefreshMs(stale[0])
    requires Rounds(stale, Pools(FirstFast(fast)), FairSlots(fast, limit), cursors)
    requires |cursors| * FairSlots(fast, limit) >= |stale| - |FirstFast(fast)|
    ensures row.pool in Pools(FirstFast(fast))
            || row.pool in PickedAlong(stale, Pools(FirstFast(fast)), FairSlots(fast, limit), cursors)
  {
    var first, slots := FirstFast(fast), FairSlots(fast, limit);
    if row.pool !in Pools(first) {
      FirstFits(fast, stale, |first|);
      NonFastIsPicked(stale, first, slots, cursors, row);
    }
  }

  function FirstFast(fast: seq<Row>): (first: seq<Row>)
    ensures |first| <= FAST_SLOTS
  {
    fast[..Min(|fast|, FAST_SLOTS)]
  }

  /** What the fast slots leave of the budget. */
  function FairSlots(fast: seq<Row>, limit: int): (slots: nat)
    requires Budget(limit) > FAST_SLOTS
    ensures slots > 0
  {
    Budget(limit) - |FirstFast(fast)|
  }

  lemma FirstFits(fast: seq<Row>, stale: seq<Row>, k: nat)
    requires Fits(fast, stale) && k <= |fast|
    ensures Fits(fast[..k], stale)
  {
  }

  lemma NonFastIsPicked(stale: seq<Row>, first: seq<Row>, slots: nat, cursors: seq<nat>, row: Row)
    requires Fits(first, stale) && slots > 0 && row in stale && row.pool !in Pools(first)
    requires forall i :: 0 <= i < |stale| ==> RefreshMs(stale[i]) == RefreshMs(stale[0])
    requires Rounds(stale, Pools(first), slots, cursors) && |cursors| * slots >= |stale| - |first|
    ensures row.pool in PickedAlong(stale, Pools(first), slots, cursors)
  {
    OthersCount(stale, first);
    OthersMember(stale, Pools(first));
    assert row in Others(stale, Pools(first));
    assert |stale| > |first|;
    assert cursors != [];
    var start := Start(stale, cursors[0]);
    RotateKeeps(stale, start);
    var ring := RoundFrom(stale, Pools(first), start);
    OthersMember(Rotate(stale, start), Pools(first));
    OthersCount(Rotate(stale, start), first);
    var j :| 0 <= j < |ring| && ring[j] == row;
    PickedByPosition(ring, slots, |cursors|, j);
    RoundsFollowRing(stale, Pools(first), slots, cursors);
  }
}
