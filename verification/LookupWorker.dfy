/** The worker behind a direct lookup, the refreshers beside it, and when the negative answer
    it stores is true. */
module LookupWorker {
  import opened Prelude
  import opened Lookup

  /** A structural candidate of the token in the pool registry. */
  datatype Listed = Listed(pool: Pool, refreshedAt: Option<int>, initialized: bool, liquidity: nat)

  /** What a worker remembers: the pools that were eligible when it started, and those it has
      refreshed since. */
  datatype Work = Work(rev: nat, startedAt: int, initial: set<Pool>, hydrated: set<Pool>)

  /** `loose` only records what happened since the worker started: the active pools whose last
      refresh was not settled in a candidate row, or whose row was given up since. */
  datatype World = World(registry: seq<Listed>, s: State, now: int, work: Option<Work>, loose: set<Pool>)

  const MAX_SELECTED := 12

  predicate Fresh(l: Listed, now: int) {
    l.refreshedAt.Some? && l.refreshedAt.value >= now - FRESH_MS
  }

  predicate Active(l: Listed) {
    l.initialized && l.liquidity > 0
  }

  function ClassOf(l: Listed, now: int): RegistryClass {
    if !Fresh(l, now) then STALE
    else if !l.initialized then FRESH_NOT_INITIALIZED
    else if l.liquidity > 0 then FRESH_POSITIVE
    else FRESH_ZERO
  }

  function Classes(registry: seq<Listed>, now: int): seq<RegistryClass> {
    seq(|registry|, i requires 0 <= i < |registry| => ClassOf(registry[i], now))
  }

  function Listing(registry: seq<Listed>, pool: Pool): Option<Listed> {
    if registry == [] then None
    else if registry[0].pool == pool then Some(registry[0])
    else Listing(registry[1..], pool)
  }

  function Written(registry: seq<Listed>, l: Listed): seq<Listed> {
    seq(|registry|, i requires 0 <= i < |registry| => if registry[i].pool == l.pool then l else registry[i])
  }

  function FreshlyActive(registry: seq<Listed>, now: int): set<Pool> {
    set i | 0 <= i < |registry| && Active(registry[i]) && Fresh(registry[i], now) :: registry[i].pool
  }

  // ---- candidate rows ----

  predicate Pending(c: Candidate) {
    c.state.DISCOVERED? || c.state.REFRESH_REQUESTED? || c.state.LEASED?
  }

  predicate HasRow(cs: seq<Candidate>, pool: Pool) {
    exists k | 0 <= k < |cs| :: cs[k].pool == pool
  }

  predicate HasEligible(cs: seq<Candidate>, pool: Pool) {
    exists k | 0 <= k < |cs| :: cs[k].pool == pool && cs[k].state.ELIGIBLE?
  }

  function Settled(c: Candidate, l: Option<Listed>, now: int): Candidate {
    if l.None? then Unavailed(c)
    else if !l.value.initialized then c.(state := EVIDENCE_UNAVAILABLE(true), evidenceAt := Some(now))
    else if l.value.liquidity > 0 then c.(state := ELIGIBLE, evidenceAt := Some(now))
    else c.(state := NO_ACTIVE_LIQUIDITY, evidenceAt := Some(now))
  }

  /** A failed refresh keeps the time of the evidence before it. */
  function Unavailed(c: Candidate): Candidate {
    c.(state := EVIDENCE_UNAVAILABLE(false))
  }

  datatype Change = Lease | Settle(listing: Option<Listed>, now: int) | Fail

  function Changed(c: Candidate, change: Change): Candidate {
    match change
    case Lease => c.(state := LEASED)
    case Settle(l, now) => Settled(c, l, now)
    case Fail => Unavailed(c)
  }

  /** One row update; another refresher only touches a pending row. */
  function Update(cs: seq<Candidate>, pool: Pool, change: Change, pendingOnly: bool): seq<Candidate> {
    seq(|cs|, i requires 0 <= i < |cs| =>
      if cs[i].pool == pool && (pendingOnly ==> Pending(cs[i])) then Changed(cs[i], change) else cs[i])
  }

  function Finalized(cs: seq<Candidate>): seq<Candidate> {
    seq(|cs|, i requires 0 <= i < |cs| => if Pending(cs[i]) then Unavailed(cs[i]) else cs[i])
  }

  /** The newest earlier row that found the pool eligible and is still fresh. */
  function PriorEligible(rs: seq<Request>, pool: Pool, now: int): Option<Candidate> {
    if rs == [] then None
    else
      var here := EligibleRow(rs[|rs| - 1].candidates, pool, now);
      if here.Some? then here else PriorEligible(rs[..|rs| - 1], pool, now)
  }

  function EligibleRow(cs: seq<Candidate>, pool: Pool, now: int): Option<Candidate> {
    if cs == [] then None
    else if cs[0].pool == pool && cs[0].state.ELIGIBLE? && cs[0].evidenceAt.Some? && cs[0].evidenceAt.value >= now - FRESH_MS
    then Some(cs[0])
    else EligibleRow(cs[1..], pool, now)
  }

  /** A row as it is inserted: an earlier eligible row counts like a fresh registry entry. */
  function InitialRow(pool: Pool, l: Option<Listed>, prior: Option<Candidate>, now: int): Candidate {
    var recent := l.Some? && Fresh(l.value, now);
    if (recent && Active(l.value)) || prior.Some? then
      Candidate(pool, ELIGIBLE, if recent || prior.None? then Some(now) else prior.value.evidenceAt)
    else if recent then Settled(Candidate(pool, DISCOVERED, None), l, now)
    else Candidate(pool, REFRESH_REQUESTED, None)
  }

  function InitialRows(selected: seq<Pool>, registry: seq<Listed>, prior: seq<Request>, now: int): (cs: seq<Candidate>)
    ensures |cs| == |selected| && forall i :: 0 <= i < |cs| ==> cs[i].pool == selected[i]
  {
    seq(|selected|, i requires 0 <= i < |selected| =>
      InitialRow(selected[i], Listing(registry, selected[i]), PriorEligible(prior, selected[i], now), now))
  }

  // ---- the steps ----

  datatype Event =
    | EvTick(ms: nat)
    | EvRequest(e: Lookup.Event)
    | EvDiscover(pool: Pool)
    | EvWrite(pool: Pool, initialized: bool, liquidity: nat)
    | EvOtherSettle(rev: nat, pool: Pool, refreshed: bool, v3: set<Pool>)
    | EvExpire(rev: nat, v3: set<Pool>)
    | EvStart(rev: nat, selected: seq<Pool>, v3: set<Pool>)
    | EvLeaseRow(pool: Pool)
    | EvSettle(pool: Pool)
    | EvFail(pool: Pool)
    | EvFinish(v3: set<Pool>, timedOut: bool)

  function WithRows(s: State, rev: nat, cs: seq<Candidate>): State
    requires rev < |s.requests|
  {
    WithRequest(s, rev, s.requests[rev].(candidates := cs))
  }

  function Rows(s: State, rev: nat): seq<Candidate> {
    if rev < |s.requests| then s.requests[rev].candidates else []
  }

  /** `recomputeDirectLookupParent`: once no row is pending the rows alone decide. */
  function Recompute(s: State, rev: nat, v3: set<Pool>, live: nat, now: int): State
    requires rev < |s.requests|
  {
    var r := s.requests[rev];
    if exists k | 0 <= k < |r.candidates| :: Pending(r.candidates[k]) then s
    else
      var found := v3 + CanonicalEligible(s, rev, now);
      var status := if found != {} then SUPPORTED_POOLS_FOUND
                    else if LifecycleCounts(r, live).unavailable > 0 then PROVIDER_TEMPORARILY_UNAVAILABLE
                    else NO_ACTIVE_LIQUIDITY_POOL;
      Complete(s, rev, status, found, FromRows(live), now).state
  }

  function Discover(w: World, pool: Pool): World {
    if Listing(w.registry, pool).Some? then w else w.(registry := w.registry + [Listed(pool, None, false, 0)])
  }

  function Write(w: World, l: Listed): World {
    if Listing(w.registry, l.pool).None? then w
    else w.(registry := Written(w.registry, l), loose := if Active(l) then w.loose + {l.pool} else w.loose - {l.pool})
  }

  /** A refresher that is not the worker settles the pending rows of the pool it refreshed. */
  function OtherSettle(w: World, rev: nat, pool: Pool, refreshed: bool, v3: set<Pool>): World {
    if rev >= |w.s.requests| || Terminal(w.s.requests[rev].status)
       || !(exists k | 0 <= k < |Rows(w.s, rev)| :: Rows(w.s, rev)[k].pool == pool && Pending(Rows(w.s, rev)[k])) then w
    else
      var change := if refreshed then Settle(Listing(w.registry, pool), w.now) else Fail;
      var s1 := WithRows(w.s, rev, Update(Rows(w.s, rev), pool, change, true));
      var mine := w.work.Some? && w.work.value.rev == rev;
      w.(s := Recompute(s1, rev, v3, |w.registry|, w.now), loose := if refreshed && mine then w.loose - {pool} else w.loose)
  }

  function Expire(w: World, rev: nat, v3: set<Pool>): World {
    if rev >= |w.s.requests| || Terminal(w.s.requests[rev].status) then w
    else
      var s1 := WithRows(w.s, rev, Finalized(Rows(w.s, rev)));
      var found := v3 + CanonicalEligible(s1, rev, w.now);
      w.(s := Complete(s1, rev, if found != {} then SUPPORTED_POOLS_FOUND else LOOKUP_TIMED_OUT, found, FromRows(|w.registry|), w.now).state)
  }

  function EligibleAtStart(w: World, rev: nat, v3: set<Pool>): set<Pool>
    requires rev < |w.s.requests|
  {
    FreshlyActive(w.registry, w.now) + v3 + CanonicalEligible(w.s, rev, w.now)
  }

  predicate MaySelect(registry: seq<Listed>, selected: seq<Pool>) {
    |selected| <= MAX_SELECTED && Distinct(selected)
    && forall i :: 0 <= i < |selected| ==> Listing(registry, selected[i]).Some?
  }

  /** The worker takes a leased request. Rows that an earlier worker inserted stay. */
  function Start(w: World, rev: nat, selected: seq<Pool>, v3: set<Pool>): World {
    if rev >= |w.s.requests| || !w.s.requests[rev].status.RUNNING? || !MaySelect(w.registry, selected) then w
    else
      var r := w.s.requests[rev];
      var cs := if r.candidates == [] then InitialRows(selected, w.registry, w.s.requests[..rev], w.now) else r.candidates;
      World(w.registry, WithRequest(w.s, rev, r.(candidates := cs, plan := Plan(|w.registry|, r.plan.unsupported))), w.now,
            Some(Work(rev, w.now, EligibleAtStart(w, rev, v3), {})), {})
  }

  predicate ActiveIn(registry: seq<Listed>, pool: Pool) {
    Listing(registry, pool).Some? && Active(Listing(registry, pool).value)
  }

  /** The worker marks a row before or after its read; an ELIGIBLE row is given up by that. */
  function Mark(w: World, pool: Pool, change: Change): World {
    if w.work.None? || w.work.value.rev >= |w.s.requests| then w
    else
      var rev := w.work.value.rev;
      w.(s := WithRows(w.s, rev, Update(Rows(w.s, rev), pool, change, false)),
         loose := if ActiveIn(w.registry, pool) && HasEligible(Rows(w.s, rev), pool) then w.loose + {pool} else w.loose)
  }

  /** A successful read is settled from the registry; without a row it is settled nowhere. */
  function WorkerSettle(w: World, pool: Pool): World {
    if w.work.None? || w.work.value.rev >= |w.s.requests| then w
    else
      var k := w.work.value;
      var cs := Rows(w.s, k.rev);
      w.(s := WithRows(w.s, k.rev, Update(cs, pool, Settle(Listing(w.registry, pool), w.now), false)),
         work := Some(k.(hydrated := k.hydrated + {pool})),
         loose := if HasRow(cs, pool) then w.loose - {pool} else if ActiveIn(w.registry, pool) then w.loose + {pool} else w.loose)
  }

  /** The pools the worker reports: still eligible from its start, or eligible by the rows. */
  function Found(w: World, v3: set<Pool>): set<Pool>
    requires w.work.Some? && w.work.value.rev < |w.s.requests|
  {
    (w.work.value.initial - w.work.value.hydrated) + v3 + CanonicalEligible(AtEnd(w), w.work.value.rev, w.now)
  }

  function AtEnd(w: World): State
    requires w.work.Some? && w.work.value.rev < |w.s.requests|
  {
    WithRows(w.s, w.work.value.rev, Finalized(Rows(w.s, w.work.value.rev)))
  }

  function Proposed(w: World, v3: set<Pool>, timedOut: bool): (status: Status)
    requires w.work.Some? && w.work.value.rev < |w.s.requests|
    ensures Terminal(status)
  {
    if Found(w, v3) != {} then SUPPORTED_POOLS_FOUND
    else if RegistryCounts(Classes(w.registry, w.now)).unavailable > 0 then
      (if timedOut then LOOKUP_TIMED_OUT else PROVIDER_TEMPORARILY_UNAVAILABLE)
    else NO_ACTIVE_LIQUIDITY_POOL
  }

  /** The completion at the end of `executeDirectTokenLookup`, with registry evidence. */
  function Answer(w: World, v3: set<Pool>, timedOut: bool): Completion
    requires w.work.Some? && w.work.value.rev < |w.s.requests|
  {
    Complete(AtEnd(w), w.work.value.rev, Proposed(w, v3, timedOut), Found(w, v3),
             Given(RegistryCounts(Classes(w.registry, w.now))), w.now)
  }

  function Step(w: World, e: Event): World {
    match e
    case EvTick(ms) => w.(now := w.now + ms)
    case EvRequest(re) => if re.EvCandidates? || re.EvComplete? then w else w.(s := Lookup.Step(w.s, re))
    case EvDiscover(pool) => Discover(w, pool)
    case EvWrite(pool, initialized, liquidity) => Write(w, Listed(pool, Some(w.now), initialized, liquidity))
    case EvOtherSettle(rev, pool, refreshed, v3) => OtherSettle(w, rev, pool, refreshed, v3)
    case EvExpire(rev, v3) => Expire(w, rev, v3)
    case EvStart(rev, selected, v3) => Start(w, rev, selected, v3)
    case EvLeaseRow(pool) => Mark(w, pool, Lease)
    case EvSettle(pool) => WorkerSettle(w, pool)
    case EvFail(pool) => Mark(w, pool, Fail)
    case EvFinish(v3, timedOut) =>
      if w.work.None? || w.work.value.rev >= |w.s.requests| then w
      else w.(s := Answer(w, v3, timedOut).state, work := None)
  }

  function Run(w: World, es: seq<Event>): World {
    if es == [] then w else Step(Run(w, es[..|es| - 1]), es[|es| - 1])
  }

  predicate DistinctPools(registry: seq<Listed>) {
    forall i, j :: 0 <= i < j < |registry| ==> registry[i].pool != registry[j].pool
  }

  predicate NotAhead(registry: seq<Listed>, now: int) {
    forall i :: 0 <= i < |registry| && registry[i].refreshedAt.Some? ==> registry[i].refreshedAt.value <= now
  }

  predicate Initial(w: World) {
    Lookup.Initial(w.s) && w.work.None? && w.loose == {} && DistinctPools(w.registry) && NotAhead(w.registry, w.now)
  }

  // ---- what the worker knows ----

  /** A candidate row that found the pool eligible at or after its last refresh. */
  predicate Holds(cs: seq<Candidate>, l: Listed) {
    exists k | 0 <= k < |cs| ::
      cs[k].pool == l.pool && cs[k].state.ELIGIBLE? && cs[k].evidenceAt.Some?
      && l.refreshedAt.Some? && cs[k].evidenceAt.value >= l.refreshedAt.value
  }

  /** Why an active pool cannot be missed, or that it is loose. */
  predicate Known(l: Listed, cs: seq<Candidate>, k: Work, loose: set<Pool>) {
    l.pool in loose || Holds(cs, l) || (l.pool in k.initial && l.pool !in k.hydrated) || !Fresh(l, k.startedAt)
  }

  predicate AllKnown(registry: seq<Listed>, cs: seq<Candidate>, k: Work, loose: set<Pool>) {
    forall i :: 0 <= i < |registry| && Active(registry[i]) ==> Known(registry[i], cs, k, loose)
  }

  predicate LooseActive(registry: seq<Listed>, loose: set<Pool>) {
    forall p <- loose :: exists i | 0 <= i < |registry| :: registry[i].pool == p && Active(registry[i])
  }

  predicate Inv(w: World) {
    && DistinctPools(w.registry) && NotAhead(w.registry, w.now)
    && (forall i :: 0 <= i < |w.s.requests| ==> DistinctRows(w.s.requests[i].candidates))
    && (w.work.Some? ==>
          w.work.value.rev < |w.s.requests| && w.work.value.startedAt <= w.now
          && LooseActive(w.registry, w.loose)
          && AllKnown(w.registry, Rows(w.s, w.work.value.rev), w.work.value, w.loose))
  }

  lemma {:induction false} ListingFinds(registry: seq<Listed>, i: nat)
    requires DistinctPools(registry) && i < |registry|
    ensures Listing(registry, registry[i].pool) == Some(registry[i])
  {
    if i > 0 {
      assert registry[1..][i - 1] == registry[i];
      ListingFinds(registry[1..], i - 1);
    }
  }

  lemma {:induction false} ListingIs(registry: seq<Listed>, pool: Pool)
    ensures Listing(registry, pool).Some? ==>
              exists i | 0 <= i < |registry| :: registry[i] == Listing(registry, pool).value && registry[i].pool == pool
    ensures Listing(registry, pool).None? ==> forall i :: 0 <= i < |registry| ==> registry[i].pool != pool
  {
    if registry != [] && registry[0].pool != pool {
      ListingIs(registry[1..], pool);
      if Listing(registry[1..], pool).Some? {
        var i :| 0 <= i < |registry[1..]| && registry[1..][i] == Listing(registry, pool).value;
        assert registry[i + 1] == registry[1..][i];
      } else {
        forall i | 0 <= i < |registry| ensures registry[i].pool != pool {
          if i > 0 { assert registry[1..][i - 1] == registry[i]; }
        }
      }
    }
  }

  /** The other transactions of the request tables leave every candidate row alone. */
  lemma RequestKeepsRows(s: State, e: Lookup.Event)
    requires !e.EvCandidates? && !e.EvComplete?
    ensures |s.requests| <= |Lookup.Step(s, e).requests|
    ensures forall i :: 0 <= i < |s.requests| ==> Lookup.Step(s, e).requests[i].candidates == s.requests[i].candidates
    ensures forall i :: |s.requests| <= i < |Lookup.Step(s, e).requests| ==> Lookup.Step(s, e).requests[i].candidates == []
  {
  }

  predicate SameRows(s: State, t: State) {
    |t.requests| == |s.requests| && forall i :: 0 <= i < |s.requests| ==> t.requests[i].candidates == s.requests[i].candidates
  }

  lemma RecomputeKeepsRows(s: State, rev: nat, v3: set<Pool>, live: nat, now: int)
    requires rev < |s.requests|
    ensures SameRows(s, Recompute(s, rev, v3, live, now))
  {
  }

  lemma DiscoverKeeps(w: World, pool: Pool)
    requires Inv(w)
    ensures Inv(Discover(w, pool))
  {
    ListingIs(w.registry, pool);
    var t := Discover(w, pool);
    if w.work.Some? {
      forall p <- w.loose ensures exists i | 0 <= i < |t.registry| :: t.registry[i].pool == p && Active(t.registry[i]) {
        var i :| 0 <= i < |w.registry| && w.registry[i].pool == p && Active(w.registry[i]);
        assert t.registry[i] == w.registry[i];
      }
      forall i | 0 <= i < |t.registry| && Active(t.registry[i])
        ensures Known(t.registry[i], Rows(w.s, w.work.value.rev), w.work.value, w.loose)
      {
        assert i < |w.registry| && t.registry[i] == w.registry[i];
      }
    }
  }

  lemma WriteKeeps(w: World, l: Listed)
    requires Inv(w) && l.refreshedAt == Some(w.now)
    ensures Inv(Write(w, l))
  {
    ListingIs(w.registry, l.pool);
    var t := Write(w, l);
    if w.work.Some? && Listing(w.registry, l.pool).Some? {
      var j :| 0 <= j < |w.registry| && w.registry[j].pool == l.pool;
      assert t.registry[j] == l;
      forall p <- t.loose ensures exists i | 0 <= i < |t.registry| :: t.registry[i].pool == p && Active(t.registry[i]) {
        if p != l.pool {
          var i :| 0 <= i < |w.registry| && w.registry[i].pool == p && Active(w.registry[i]);
          assert t.registry[i] == w.registry[i];
        }
      }
      forall i | 0 <= i < |t.registry| && Active(t.registry[i])
        ensures Known(t.registry[i], Rows(w.s, w.work.value.rev), w.work.value, t.loose)
      {
        if w.registry[i].pool != l.pool {
          assert Known(w.registry[i], Rows(w.s, w.work.value.rev), w.work.value, w.loose);
        }
      }
    }
  }

  lemma UpdatedRow(cs: seq<Candidate>, pool: Pool, change: Change, pendingOnly: bool)
    requires DistinctRows(cs)
    ensures DistinctRows(Update(cs, pool, change, pendingOnly))
  {
  }

  /** An update leaves what the rows hold about every other pool, and about a pending row's
      pool nothing was held. */
  lemma HoldsElsewhere(cs: seq<Candidate>, pool: Pool, change: Change, pendingOnly: bool, l: Listed)
    requires Holds(cs, l) && (l.pool != pool || (pendingOnly && DistinctRows(cs)))
    ensures Holds(Update(cs, pool, change, pendingOnly), l)
  {
    var k :| 0 <= k < |cs| && cs[k].pool == l.pool && cs[k].state.ELIGIBLE? && cs[k].evidenceAt.Some?
             && l.refreshedAt.Some? && cs[k].evidenceAt.value >= l.refreshedAt.value;
    assert Update(cs, pool, change, pendingOnly)[k] == cs[k];
  }

  /** After a pool is settled from an active registry entry, its row holds it. */
  lemma SettleHolds(cs: seq<Candidate>, l: Listed, now: int, pendingOnly: bool, k: nat)
    requires k < |cs| && cs[k].pool == l.pool && (pendingOnly ==> Pending(cs[k]))
    requires Active(l) && l.refreshedAt.Some? && l.refreshedAt.value <= now
    ensures Holds(Update(cs, l.pool, Settle(Some(l), now), pendingOnly), l)
  {
    var t := Update(cs, l.pool, Settle(Some(l), now), pendingOnly);
    assert t[k].pool == l.pool && t[k].state.ELIGIBLE? && t[k].evidenceAt == Some(now);
  }

  lemma FinalizedHolds(cs: seq<Candidate>, l: Listed)
    requires Holds(cs, l)
    ensures Holds(Finalized(cs), l)
  {
    var k :| 0 <= k < |cs| && cs[k].pool == l.pool && cs[k].state.ELIGIBLE? && cs[k].evidenceAt.Some?
             && l.refreshedAt.Some? && cs[k].evidenceAt.value >= l.refreshedAt.value;
    assert Finalized(cs)[k] == cs[k];
  }

  lemma MarkKeeps(w: World, pool: Pool, change: Change)
    requires Inv(w) && (change.Lease? || change.Fail?)
    ensures Inv(Mark(w, pool, change))
  {
    if w.work.Some? {
      var k := w.work.value;
      var cs, t := Rows(w.s, k.rev), Mark(w, pool, change);
      UpdatedRow(cs, pool, change, false);
      ListingIs(w.registry, pool);
      forall i | 0 <= i < |w.registry| && Active(w.registry[i]) ensures Known(w.registry[i], Rows(t.s, k.rev), k, t.loose) {
        assert Known(w.registry[i], cs, k, w.loose);
        if w.registry[i].pool == pool {
          ListingFinds(w.registry, i);
        } else if Holds(cs, w.registry[i]) {
          HoldsElsewhere(cs, pool, change, false, w.registry[i]);
        }
      }
    }
  }

  lemma WorkerSettleKeeps(w: World, pool: Pool)
    requires Inv(w)
    ensures Inv(WorkerSettle(w, pool))
  {
    if w.work.Some? {
      var k, t := w.work.value, WorkerSettle(w, pool);
      var cs, change := Rows(w.s, k.rev), Settle(Listing(w.registry, pool), w.now);
      UpdatedRow(cs, pool, change, false);
      ListingIs(w.registry, pool);
      forall i | 0 <= i < |w.registry| && Active(w.registry[i])
        ensures Known(w.registry[i], Rows(t.s, k.rev), t.work.value, t.loose)
      {
        assert Known(w.registry[i], cs, k, w.loose);
        if w.registry[i].pool == pool {
          ListingFinds(w.registry, i);
          SettledOrLoose(w, cs, w.registry[i], k, t);
        } else if Holds(cs, w.registry[i]) {
          HoldsElsewhere(cs, pool, change, false, w.registry[i]);
        }
      }
    }
  }

  lemma SettledOrLoose(w: World, cs: seq<Candidate>, l: Listed, k: Work, t: World)
    requires Inv(w) && w.work == Some(k) && cs == Rows(w.s, k.rev) && t == WorkerSettle(w, l.pool)
    requires Listing(w.registry, l.pool) == Some(l) && Active(l) && Known(l, cs, k, w.loose)
    requires l.refreshedAt.Some? ==> l.refreshedAt.value <= w.now
    ensures Known(l, Rows(t.s, k.rev), t.work.value, t.loose)
  {
    if HasRow(cs, l.pool) {
      var j :| 0 <= j < |cs| && cs[j].pool == l.pool;
      if l.refreshedAt.Some? {
        SettleHolds(cs, l, w.now, false, j);
      }
    }
  }

  lemma OtherSettleKeeps(w: World, rev: nat, pool: Pool, refreshed: bool, v3: set<Pool>)
    requires Inv(w)
    ensures Inv(OtherSettle(w, rev, pool, refreshed, v3))
  {
    var cs := Rows(w.s, rev);
    if rev < |w.s.requests| && !Terminal(w.s.requests[rev].status) && exists k | 0 <= k < |cs| :: cs[k].pool == pool && Pending(cs[k]) {
      var j :| 0 <= j < |cs| && cs[j].pool == pool && Pending(cs[j]);
      var change := if refreshed then Settle(Listing(w.registry, pool), w.now) else Fail;
      var s1 := WithRows(w.s, rev, Update(cs, pool, change, true));
      UpdatedRow(cs, pool, change, true);
      RecomputeKeepsRows(s1, rev, v3, |w.registry|, w.now);
      var t := OtherSettle(w, rev, pool, refreshed, v3);
      if w.work.Some? {
        var k := w.work.value;
        ListingIs(w.registry, pool);
        forall i | 0 <= i < |w.registry| && Active(w.registry[i]) ensures Known(w.registry[i], Rows(t.s, k.rev), k, t.loose) {
          var l := w.registry[i];
          assert Known(l, Rows(w.s, k.rev), k, w.loose);
          if k.rev == rev {
            if Holds(cs, l) {
              HoldsElsewhere(cs, pool, change, true, l);
            } else if l.pool == pool && refreshed && l.refreshedAt.Some? {
              ListingFinds(w.registry, i);
              SettleHolds(cs, l, w.now, true, j);
            }
          }
        }
      }
    }
  }

  lemma ExpireKeeps(w: World, rev: nat, v3: set<Pool>)
    requires Inv(w)
    ensures Inv(Expire(w, rev, v3))
  {
    if rev < |w.s.requests| && !Terminal(w.s.requests[rev].status) {
      var cs := Rows(w.s, rev);
      var s1 := WithRows(w.s, rev, Finalized(cs));
      assert DistinctRows(Finalized(cs));
      var t := Expire(w, rev, v3);
      assert SameRows(s1, t.s);
      if w.work.Some? {
        var k := w.work.value;
        forall i | 0 <= i < |w.registry| && Active(w.registry[i]) ensures Known(w.registry[i], Rows(t.s, k.rev), k, t.loose) {
          assert Known(w.registry[i], Rows(w.s, k.rev), k, w.loose);
          if k.rev == rev && Holds(cs, w.registry[i]) {
            FinalizedHolds(cs, w.registry[i]);
          }
        }
      }
    }
  }

  lemma StartKeeps(w: World, rev: nat, selected: seq<Pool>, v3: set<Pool>)
    requires Inv(w)
    ensures Inv(Start(w, rev, selected, v3))
  {
    var t := Start(w, rev, selected, v3);
    if rev < |w.s.requests| && w.s.requests[rev].status.RUNNING? && MaySelect(w.registry, selected) {
      forall i | 0 <= i < |w.registry| && Active(w.registry[i])
        ensures Known(w.registry[i], Rows(t.s, rev), t.work.value, t.loose)
      {
        if Fresh(w.registry[i], w.now) {
          assert w.registry[i].pool in FreshlyActive(w.registry, w.now);
        }
      }
    }
  }

  lemma FinishKeeps(w: World, v3: set<Pool>, timedOut: bool)
    requires Inv(w)
    ensures Inv(Step(w, EvFinish(v3, timedOut)))
  {
    if w.work.Some? {
      assert DistinctRows(Finalized(Rows(w.s, w.work.value.rev)));
      assert SameRows(AtEnd(w), Answer(w, v3, timedOut).state);
    }
  }

  lemma RequestKeeps(w: World, e: Lookup.Event)
    requires Inv(w) && !e.EvCandidates? && !e.EvComplete?
    ensures Inv(Step(w, EvRequest(e)))
  {
    RequestKeepsRows(w.s, e);
  }

  lemma StepKeeps(w: World, e: Event)
    requires Inv(w)
    ensures Inv(Step(w, e))
  {
    match e
    case EvTick(_) =>
    case EvRequest(re) => if !re.EvCandidates? && !re.EvComplete? { RequestKeeps(w, re); }
    case EvDiscover(pool) => DiscoverKeeps(w, pool);
    case EvWrite(pool, initialized, liquidity) => WriteKeeps(w, Listed(pool, Some(w.now), initialized, liquidity));
    case EvOtherSettle(rev, pool, refreshed, v3) => OtherSettleKeeps(w, rev, pool, refreshed, v3);
    case EvExpire(rev, v3) => ExpireKeeps(w, rev, v3);
    case EvStart(rev, selected, v3) => StartKeeps(w, rev, selected, v3);
    case EvLeaseRow(pool) => MarkKeeps(w, pool, Lease);
    case EvSettle(pool) => WorkerSettleKeeps(w, pool);
    case EvFail(pool) => MarkKeeps(w, pool, Fail);
    case EvFinish(v3, timedOut) => FinishKeeps(w, v3, timedOut);
  }

  lemma {:induction false} RunKeeps(w: World, es: seq<Event>)
    requires Inv(w)
    ensures Inv(Run(w, es))
  {
    if es != [] {
      RunKeeps(w, es[..|es| - 1]);
      StepKeeps(Run(w, es[..|es| - 1]), es[|es| - 1]);
    }
  }

  // ---- the worker's negative answer ----

  predicate Negative(w: World, v3: set<Pool>, timedOut: bool)
    requires w.work.Some? && w.work.value.rev < |w.s.requests|
  {
    var c := Answer(w, v3, timedOut);
    c.completed && c.state.requests[w.work.value.rev].status.NO_ACTIVE_LIQUIDITY_POOL?
  }

  /** What stands in the tables when the worker completes without finding anything: its
      revision is the newest and open, nothing it reports, and no stale candidate. */
  predicate NothingFound(w: World, v3: set<Pool>)
    requires w.work.Some? && w.work.value.rev < |w.s.requests|
  {
    && w.work.value.rev == |w.s.requests| - 1 && !Terminal(w.s.requests[w.work.value.rev].status)
    && Found(w, v3) == {}
    && forall i :: 0 <= i < |w.registry| ==> Fresh(w.registry[i], w.now)
  }

  lemma NegativeIff(w: World, v3: set<Pool>, timedOut: bool)
    requires w.work.Some? && w.work.value.rev < |w.s.requests|
    ensures Negative(w, v3, timedOut) <==> NothingFound(w, v3)
  {
    var rev, cs := w.work.value.rev, Classes(w.registry, w.now);
    assert AtEnd(w).requests[rev].status == w.s.requests[rev].status;
    ClassifiedAll(cs);
    assert (forall i :: 0 <= i < |cs| ==> !cs[i].STALE?) <==> forall i :: 0 <= i < |w.registry| ==> Fresh(w.registry[i], w.now) by {
      assert forall i :: 0 <= i < |cs| ==> (cs[i].STALE? <==> !Fresh(w.registry[i], w.now));
    }
    if rev == |w.s.requests| - 1 && !Terminal(w.s.requests[rev].status) {
      RegistryAnswerIsSound(AtEnd(w), rev, Proposed(w, v3, timedOut), Found(w, v3), cs, w.now);
    }
  }

  /** A held and fresh pool is reported. */
  lemma HeldIsFound(w: World, v3: set<Pool>, l: Listed)
    requires Inv(w) && w.work.Some? && w.work.value.rev == |w.s.requests| - 1
    requires Holds(Rows(w.s, w.work.value.rev), l) && Fresh(l, w.now)
    ensures l.pool in Found(w, v3)
  {
    var rev := w.work.value.rev;
    FinalizedHolds(Rows(w.s, rev), l);
    var cs := Rows(AtEnd(w), rev);
    var k :| 0 <= k < |cs| && cs[k].pool == l.pool && cs[k].state.ELIGIBLE? && cs[k].evidenceAt.Some?
             && l.refreshedAt.Some? && cs[k].evidenceAt.value >= l.refreshedAt.value;
    FreshEligibleCounts(AtEnd(w), rev, k, w.now);
  }

  // ---- what a row becomes ----

  /** A row that was read: without a listing the evidence is unavailable and keeps its time;
      otherwise it is evidence of now, eligible exactly when the pool is initialized and liquid. */
  predicate SettledRight(c: Candidate, l: Option<Listed>, now: int, t: Candidate) {
    && t.pool == c.pool
    && (l.None? ==> t.state == EVIDENCE_UNAVAILABLE(false) && t.evidenceAt == c.evidenceAt)
    && (l.Some? ==>
          && t.evidenceAt == Some(now)
          && (t.state.ELIGIBLE? <==> l.value.initialized && l.value.liquidity > 0)
          && (t.state.NO_ACTIVE_LIQUIDITY? <==> l.value.initialized && l.value.liquidity == 0)
          && (t.state == EVIDENCE_UNAVAILABLE(true) <==> !l.value.initialized))
  }

  predicate ChangedRight(c: Candidate, change: Change, t: Candidate) {
    match change
    case Lease => t == Candidate(c.pool, LEASED, c.evidenceAt)
    case Fail => t == Candidate(c.pool, EVIDENCE_UNAVAILABLE(false), c.evidenceAt)
    case Settle(l, now) => SettledRight(c, l, now, t)
  }

  /** An update changes exactly the rows of its pool, and of those only the pending ones when
      it comes from elsewhere; the end of a request gives up every pending row. */
  lemma UpdateRecords(cs: seq<Candidate>, pool: Pool, change: Change, pendingOnly: bool)
    ensures var t := Update(cs, pool, change, pendingOnly);
            |t| == |cs| && forall i :: 0 <= i < |cs| ==>
              var pending := cs[i].state in {DISCOVERED, REFRESH_REQUESTED, LEASED};
              if cs[i].pool == pool && (pending || !pendingOnly) then ChangedRight(cs[i], change, t[i]) else t[i] == cs[i]
    ensures var t := Finalized(cs);
            |t| == |cs| && forall i :: 0 <= i < |cs| ==>
              t[i] == if cs[i].state in {DISCOVERED, REFRESH_REQUESTED, LEASED} then Candidate(cs[i].pool, EVIDENCE_UNAVAILABLE(false), cs[i].evidenceAt)
                      else cs[i]
  {
  }

  /** An inserted row: eligible on a fresh active listing or on earlier evidence that is still
      fresh, settled on any other fresh listing, and otherwise to be refreshed. */
  lemma InitialRowRight(pool: Pool, l: Option<Listed>, prior: Option<Candidate>, now: int)
    ensures var t := InitialRow(pool, l, prior, now);
            var recent := l.Some? && l.value.refreshedAt.Some? && l.value.refreshedAt.value >= now - 120_000;
            && t.pool == pool
            && (t.state.ELIGIBLE? <==> prior.Some? || (recent && l.value.initialized && l.value.liquidity > 0))
            && (t.state.ELIGIBLE? ==> t.evidenceAt == if recent then Some(now) else prior.value.evidenceAt)
            && (!t.state.ELIGIBLE? && recent ==> SettledRight(Candidate(pool, DISCOVERED, None), l, now, t))
            && (!t.state.ELIGIBLE? && !recent ==> t == Candidate(pool, REFRESH_REQUESTED, None))
  {
  }

  predicate IsPriorRow(c: Candidate, pool: Pool, now: int) {
    c.pool == pool && c.state.ELIGIBLE? && c.evidenceAt.Some? && c.evidenceAt.value >= now - 120_000
  }

  lemma {:induction false} EligibleRowIs(cs: seq<Candidate>, pool: Pool, now: int)
    ensures EligibleRow(cs, pool, now).Some? <==> exists k: nat :: k < |cs| && IsPriorRow(cs[k], pool, now)
    ensures EligibleRow(cs, pool, now).Some? ==> EligibleRow(cs, pool, now).value in cs && IsPriorRow(EligibleRow(cs, pool, now).value, pool, now)
  {
    if cs != [] && !IsPriorRow(cs[0], pool, now) {
      EligibleRowIs(cs[1..], pool, now);
      if k: nat :| k < |cs| && IsPriorRow(cs[k], pool, now) {
        assert cs[1..][k - 1] == cs[k];
      }
      if EligibleRow(cs[1..], pool, now).Some? {
        var k: nat :| k < |cs[1..]| && IsPriorRow(cs[1..][k], pool, now);
        assert cs[k + 1] == cs[1..][k];
      }
    }
  }

  /** The earlier evidence is a fresh eligible row of the newest request that has one. */
  lemma {:induction false} PriorEligibleIs(rs: seq<Request>, pool: Pool, now: int) returns (i: nat)
    ensures var p := PriorEligible(rs, pool, now);
            && (p.Some? <==> i < |rs|)
            && (p.Some? ==> p.value in rs[i].candidates && IsPriorRow(p.value, pool, now))
            && forall j, k :: (if p.Some? then i < j else 0 <= j) && j < |rs| && 0 <= k < |rs[j].candidates| ==>
                 !IsPriorRow(rs[j].candidates[k], pool, now)
  {
    if rs == [] {
      return 0;
    }
    var n := |rs| - 1;
    EligibleRowIs(rs[n].candidates, pool, now);
    if EligibleRow(rs[n].candidates, pool, now).Some? {
      i := n;
    } else {
      i := PriorEligibleIs(rs[..n], pool, now);
      if i >= n {
        i := |rs|;
      }
    }
  }

  /** What the worker takes over: a running request and up to twelve listed pools. Rows already
      there stay; otherwise one row per selected pool is inserted. */
  lemma StartRecords(w: World, rev: nat, selected: seq<Pool>, v3: set<Pool>)
    ensures var t := Start(w, rev, selected, v3);
            var taken := rev < |w.s.requests| && w.s.requests[rev].status.RUNNING? && |selected| <= 12 && Distinct(selected)
                         && forall i :: 0 <= i < |selected| ==> Listing(w.registry, selected[i]).Some?;
            && (!taken ==> t == w)
            && (taken ==>
                  var was, r := w.s.requests[rev], t.s.requests[rev];
                  && t.registry == w.registry && t.now == w.now && t.loose == {}
                  && t.s == w.s.(requests := w.s.requests[rev := r])
                  && r == was.(candidates := r.candidates, plan := Plan(|w.registry|, was.plan.unsupported))
                  && (if was.candidates != [] then r.candidates == was.candidates
                      else |r.candidates| == |selected| && forall i :: 0 <= i < |selected| ==>
                             r.candidates[i] == InitialRow(selected[i], Listing(w.registry, selected[i]),
                                                           PriorEligible(w.s.requests[..rev], selected[i], w.now), w.now))
                  && t.work.Some? && t.work.value.rev == rev && t.work.value.startedAt == w.now && t.work.value.hydrated == {}
                  && forall p :: p in t.work.value.initial <==>
                       p in v3 || p in CanonicalEligible(w.s, rev, w.now)
                       || exists i | 0 <= i < |w.registry| ::
                            w.registry[i].pool == p && w.registry[i].initialized && w.registry[i].liquidity > 0
                            && w.registry[i].refreshedAt.Some? && w.registry[i].refreshedAt.value >= w.now - 120_000)
  {
  }

  /** The rows another refresher leaves: only an open request with a pending row of the pool is
      touched, and there only those rows. */
  lemma OtherSettleRecords(w: World, rev: nat, pool: Pool, refreshed: bool, v3: set<Pool>)
    ensures var t := OtherSettle(w, rev, pool, refreshed, v3);
            var open := rev < |w.s.requests| && (w.s.requests[rev].status.QUEUED? || w.s.requests[rev].status.RUNNING?)
                        && exists k | 0 <= k < |Rows(w.s, rev)| :: Rows(w.s, rev)[k].pool == pool && Pending(Rows(w.s, rev)[k]);
            && (!open ==> t == w)
            && (open ==>
                  && t.registry == w.registry && t.now == w.now && t.work == w.work
                  && Rows(t.s, rev) == Update(Rows(w.s, rev), pool, if refreshed then Settle(Listing(w.registry, pool), w.now) else Fail, true))
  {
  }

  // ---- the other answers ----

  /** What the worker stores when its revision is the newest and open: exactly the pools it
      found, as found; without one, a timeout or unavailable providers while some candidate is
      stale, and the negative answer when none is. */
  lemma AnswerStores(w: World, v3: set<Pool>, timedOut: bool)
    requires w.work.Some? && w.work.value.rev == |w.s.requests| - 1 && !Terminal(w.s.requests[w.work.value.rev].status)
    ensures var rev := w.work.value.rev; var c := Answer(w, v3, timedOut); var r := c.state.requests[rev];
            && c.completed
            && (forall p :: p in r.eligible <==>
                  (p in w.work.value.initial && p !in w.work.value.hydrated) || p in v3 || p in CanonicalEligible(AtEnd(w), rev, w.now))
            && r.status == (if r.eligible != {} then SUPPORTED_POOLS_FOUND
                            else if forall i :: 0 <= i < |w.registry| ==> Fresh(w.registry[i], w.now) then NO_ACTIVE_LIQUIDITY_POOL
                            else if timedOut then LOOKUP_TIMED_OUT else PROVIDER_TEMPORARILY_UNAVAILABLE)
  {
    var rev, cs := w.work.value.rev, Classes(w.registry, w.now);
    CompletionStores(AtEnd(w), rev, Proposed(w, v3, timedOut), Found(w, v3), Given(RegistryCounts(cs)), w.now);
    assert Found(w, v3) + CanonicalEligible(AtEnd(w), rev, w.now) == Found(w, v3);
    NegativeIff(w, v3, timedOut);
    ClassifiedAll(cs);
    assert forall i :: 0 <= i < |cs| ==> (cs[i].STALE? <==> !Fresh(w.registry[i], w.now));
  }

  /** The last step of the worker commits that answer, and the worker forgets the request. */
  lemma FinishRecords(w: World, v3: set<Pool>, timedOut: bool)
    ensures var t := Step(w, EvFinish(v3, timedOut));
            var working := w.work.Some? && w.work.value.rev < |w.s.requests|;
            && (!working ==> t == w)
            && (working ==>
                  t.work.None? && t.registry == w.registry && t.now == w.now && t.s == Answer(w, v3, timedOut).state
                  && |t.s.requests| == |w.s.requests|)
  {
  }

  /** So a pool whose candidate row the worker holds ELIGIBLE on fresh evidence is stored as
      found. */
  lemma EligibleRowIsFound(w: World, v3: set<Pool>, timedOut: bool, k: nat)
    requires Inv(w) && w.work.Some? && w.work.value.rev == |w.s.requests| - 1 && !Terminal(w.s.requests[w.work.value.rev].status)
    requires var cs := Rows(w.s, w.work.value.rev);
             k < |cs| && cs[k].state.ELIGIBLE? && cs[k].evidenceAt.Some? && cs[k].evidenceAt.value >= w.now - FRESH_MS
    ensures var rev := w.work.value.rev; var r := Answer(w, v3, timedOut).state.requests[rev];
            Rows(w.s, rev)[k].pool in r.eligible && r.status.SUPPORTED_POOLS_FOUND?
  {
    var rev := w.work.value.rev;
    assert Rows(AtEnd(w), rev)[k] == Rows(w.s, rev)[k];
    FreshEligibleCounts(AtEnd(w), rev, k, w.now);
    AnswerStores(w, v3, timedOut);
  }

  /** What another refresher stores once no row of the newest open revision is pending. */
  lemma RecomputeStores(s: State, rev: nat, v3: set<Pool>, live: nat, now: int)
    requires rev == |s.requests| - 1 && !Terminal(s.requests[rev].status)
    requires forall k :: 0 <= k < |s.requests[rev].candidates| ==> !Pending(s.requests[rev].candidates[k])
    ensures var r := Recompute(s, rev, v3, live, now).requests[rev]; var eligible := v3 + CanonicalEligible(s, rev, now);
            && r.eligible == eligible
            && r.status == (if eligible != {} then SUPPORTED_POOLS_FOUND
                            else if AllClassified(s.requests[rev], live) then NO_ACTIVE_LIQUIDITY_POOL
                            else PROVIDER_TEMPORARILY_UNAVAILABLE)
  {
    var found := v3 + CanonicalEligible(s, rev, now);
    assert found + CanonicalEligible(s, rev, now) == found;
    NegativeAnswerIsSound(s, rev, NO_ACTIVE_LIQUIDITY_POOL, found, live, now);
    CountsCover(s.requests[rev].candidates);
    NoneUnavailable(s.requests[rev].candidates);
  }

  /** What the expiry of the newest open revision stores. */
  lemma ExpireStores(w: World, rev: nat, v3: set<Pool>)
    requires rev == |w.s.requests| - 1 && !Terminal(w.s.requests[rev].status)
    ensures var eligible := v3 + CanonicalEligible(WithRows(w.s, rev, Finalized(Rows(w.s, rev))), rev, w.now);
            var r := Expire(w, rev, v3).s.requests[rev];
            && r.eligible == eligible
            && r.status == (if eligible != {} then SUPPORTED_POOLS_FOUND else LOOKUP_TIMED_OUT)
  {
    var s1 := WithRows(w.s, rev, Finalized(Rows(w.s, rev)));
    assert v3 + CanonicalEligible(s1, rev, w.now) + CanonicalEligible(s1, rev, w.now) == v3 + CanonicalEligible(s1, rev, w.now);
  }

  /** An active pool that no candidate row found eligible since its last refresh: what a
      caller can see in the tables before the completion. */
  predicate HasUnheld(w: World)
    requires w.work.Some?
  {
    exists i | 0 <= i < |w.registry| :: Active(w.registry[i]) && !Holds(Rows(w.s, w.work.value.rev), w.registry[i])
  }

  /** In every reachable state: the worker stores NO_ACTIVE_LIQUIDITY_POOL exactly when it
      found nothing and no candidate is stale, and that answer is false, with a freshly active
      pool in the registry, exactly when an active pool is not held by its row. Such a pool is
      always loose: it was refreshed since the worker started and not settled, or its row was
      given up. */
  lemma WorkerAnswerIsTrueIff(w0: World, es: seq<Event>, v3: set<Pool>, timedOut: bool)
    requires Initial(w0) && Run(w0, es).work.Some?
    ensures Inv(Run(w0, es))
    ensures var w := Run(w0, es);
            (Negative(w, v3, timedOut) <==> NothingFound(w, v3))
            && (Negative(w, v3, timedOut) && FreshlyActive(w.registry, w.now) != {} <==> NothingFound(w, v3) && HasUnheld(w))
            && (Negative(w, v3, timedOut) && FreshlyActive(w.registry, w.now) != {} <==> NothingFound(w, v3) && w.loose != {})
  {
    RunKeeps(w0, es);
    var w := Run(w0, es);
    NegativeIff(w, v3, timedOut);
    if NothingFound(w, v3) {
      LooseIffActive(w, v3);
      UnheldIffActive(w, v3);
    }
  }

  lemma UnheldIffActive(w: World, v3: set<Pool>)
    requires Inv(w) && w.work.Some? && NothingFound(w, v3)
    ensures FreshlyActive(w.registry, w.now) != {} <==> HasUnheld(w)
  {
    var cs := Rows(w.s, w.work.value.rev);
    if p :| p in FreshlyActive(w.registry, w.now) {
      var i :| 0 <= i < |w.registry| && Active(w.registry[i]) && Fresh(w.registry[i], w.now) && w.registry[i].pool == p;
      if Holds(cs, w.registry[i]) {
        HeldIsFound(w, v3, w.registry[i]);
      }
    }
    if i :| 0 <= i < |w.registry| && Active(w.registry[i]) && !Holds(cs, w.registry[i]) {
      assert w.registry[i].pool in FreshlyActive(w.registry, w.now);
    }
  }

  lemma StillEligibleIsFound(w: World, v3: set<Pool>, p: Pool)
    requires w.work.Some? && w.work.value.rev < |w.s.requests|
    ensures p in w.work.value.initial && p !in w.work.value.hydrated ==> p in Found(w, v3)
  {
  }

  lemma LooseIffActive(w: World, v3: set<Pool>)
    requires Inv(w) && w.work.Some? && NothingFound(w, v3)
    ensures FreshlyActive(w.registry, w.now) != {} <==> w.loose != {}
  {
    if p :| p in w.loose {
      var i :| 0 <= i < |w.registry| && w.registry[i].pool == p && Active(w.registry[i]);
      assert p in FreshlyActive(w.registry, w.now);
    }
    if p :| p in FreshlyActive(w.registry, w.now) {
      var i :| 0 <= i < |w.registry| && Active(w.registry[i]) && Fresh(w.registry[i], w.now) && w.registry[i].pool == p;
      assert Known(w.registry[i], Rows(w.s, w.work.value.rev), w.work.value, w.loose);
      if Holds(Rows(w.s, w.work.value.rev), w.registry[i]) {
        HeldIsFound(w, v3, w.registry[i]);
      }
      StillEligibleIsFound(w, v3, p);
      assert p in w.loose;
    }
  }

  // ---- runs in which a negative answer is false ----

  lemma {:induction false} RunConcat(w: World, a: seq<Event>, b: seq<Event>)
    ensures Run(w, a + b) == Run(Run(w, a), b)
  {
    if b == [] {
      assert a + b == a;
    } else {
      assert (a + b)[..|a + b| - 1] == a + b[..|b| - 1];
      RunConcat(w, a, b[..|b| - 1]);
    }
  }

  lemma RunThree(w: World, a: Event, b: Event, c: Event)
    ensures Run(w, [a, b, c]) == Step(Step(Step(w, a), b), c)
  {
    assert [a, b, c][..2] == [a, b] && [a, b][..1] == [a] && [a][..0] == [];
    assert Run(w, [a]) == Step(w, a);
    assert Run(w, [a, b]) == Step(Run(w, [a]), b);
  }

  /** A new revision that is leased and taken by the worker. */
  function Taken(rev: nat, now: int, selected: seq<Pool>): seq<Event> {
    [EvRequest(EvCreate(now, 45000, 300000, true, false)), EvRequest(EvLease(rev, now, 30000)), EvStart(rev, selected, {})]
  }

  function Opened(w: World): World {
    w.(s := w.s.(requests := w.s.requests + [Request(RUNNING, w.now + 45000, w.now + 300000, Some(w.now + 30000), 1, [], Plan(0, 0), {})]))
  }

  lemma TakenRuns(w: World, selected: seq<Pool>)
    ensures Run(w, Taken(|w.s.requests|, w.now, selected)) == Start(Opened(w), |w.s.requests|, selected, {})
  {
    var n, now := |w.s.requests|, w.now;
    RunThree(w, EvRequest(EvCreate(now, 45000, 300000, true, false)), EvRequest(EvLease(n, now, 30000)), EvStart(n, selected, {}));
    Opens(w);
    Starts(Opened(w), n, selected);
  }

  lemma Opens(w: World)
    ensures Step(Step(w, EvRequest(EvCreate(w.now, 45000, 300000, true, false))), EvRequest(EvLease(|w.s.requests|, w.now, 30000))) == Opened(w)
  {
    LeasesNewest(w.s, w.now);
  }

  lemma Starts(w: World, rev: nat, selected: seq<Pool>)
    ensures Step(w, EvStart(rev, selected, {})) == Start(w, rev, selected, {})
  {
  }

  lemma LeasesNewest(s: State, now: int)
    ensures var t := Lookup.Step(Lookup.Step(s, EvCreate(now, 45000, 300000, true, false)), EvLease(|s.requests|, now, 30000));
            t == s.(requests := s.requests + [Request(RUNNING, now + 45000, now + 300000, Some(now + 30000), 1, [], Plan(0, 0), {})])
  {
    var n := |s.requests|;
    var s1 := Lookup.Step(s, EvCreate(now, 45000, 300000, true, false));
    assert s1 == s.(requests := s.requests + [Request(QUEUED, now + 45000, now + 300000, None, 0, [], Plan(0, 0), {})]);
    var r := Request(RUNNING, now + 45000, now + 300000, Some(now + 30000), 1, [], Plan(0, 0), {});
    assert Lookup.Step(s1, EvLease(n, now, 30000)) == s1.(requests := s1.requests[n := r]);
    assert s1.requests[n := r] == s.requests + [r];
  }

  /** Without a candidate row that is fresh and eligible nothing is eligible. */
  lemma NoneEligible(s: State, rev: nat, now: int)
    requires rev < |s.requests| && forall i :: 0 <= i <= rev ==> NoFreshEligible(s.requests[i].candidates, now)
    ensures CanonicalEligible(s, rev, now) == {}
  {
    var rs := s.requests[..rev + 1];
    forall p | p in KnownPools(rs) ensures !IsEligible(rs, p, now) {
      LatestIsNotEligible(rs, p, now);
    }
  }

  predicate NoFreshEligible(cs: seq<Candidate>, now: int) {
    forall k :: 0 <= k < |cs| && cs[k].state.ELIGIBLE? ==> !(cs[k].evidenceAt.Some? && cs[k].evidenceAt.value >= now - FRESH_MS)
  }

  lemma {:induction false} LatestIsNotEligible(rs: seq<Request>, pool: Pool, now: int)
    requires forall i :: 0 <= i < |rs| ==> NoFreshEligible(rs[i].candidates, now)
    ensures LatestEvidence(rs, pool, now) != Some(ELIGIBLE)
  {
    if rs != [] {
      RowIsNotEligible(rs[|rs| - 1].candidates, pool, now);
      LatestIsNotEligible(rs[..|rs| - 1], pool, now);
    }
  }

  lemma {:induction false} RowIsNotEligible(cs: seq<Candidate>, pool: Pool, now: int)
    requires NoFreshEligible(cs, now)
    ensures FreshRow(cs, pool, now) != Some(ELIGIBLE)
  {
    if cs != [] {
      assert NoFreshEligible(cs[1..], now) by {
        forall k | 0 <= k < |cs[1..]| && cs[1..][k].state.ELIGIBLE?
          ensures !(cs[1..][k].evidenceAt.Some? && cs[1..][k].evidenceAt.value >= now - FRESH_MS)
        {
          assert cs[1..][k] == cs[k + 1];
        }
      }
      RowIsNotEligible(cs[1..], pool, now);
    }
  }

  /** The only candidate is fresh and empty when the worker starts, so it is not selected;
      another refresher then finds liquidity in it, and the worker still answers that there
      is none. */
  lemma UnselectedPoolIsMissed() returns (w0: World, es: seq<Event>)
    ensures Initial(w0) && Run(w0, es).work.Some? && Run(w0, es).work.value.rev < |Run(w0, es).s.requests|
    ensures var w := Run(w0, es); Negative(w, {}, false) && FreshlyActive(w.registry, w.now) != {}
  {
    w0 := World([Listed(0, Some(0), true, 0)], State([], {}, map[]), 0, None, {});
    es := Taken(0, 0, []) + [EvWrite(0, true, 5)];
    TakenRuns(w0, []);
    NothingAtStart(w0, []);
    var w1 := Start(Opened(w0), 0, [], {});
    RunConcat(w0, Taken(0, 0, []), [EvWrite(0, true, 5)]);
    RunOne(w1, EvWrite(0, true, 5));
    var w := Step(w1, EvWrite(0, true, 5));
    assert w.registry == [Listed(0, Some(0), true, 5)];
    NoneEligible(AtEnd(w), 0, 0);
    NegativeIff(w, {}, false);
    assert Active(w.registry[0]) && w.registry[0].pool in FreshlyActive(w.registry, w.now);
  }

  /** A first worker on a registry without an active pool starts with nothing eligible. */
  lemma NothingAtStart(w: World, selected: seq<Pool>)
    requires w.s.requests == [] && MaySelect(w.registry, selected)
    requires forall i :: 0 <= i < |w.registry| ==> !Active(w.registry[i])
    ensures var t := Start(Opened(w), 0, selected, {});
            t.registry == w.registry && t.now == w.now && t.work == Some(Work(0, w.now, {}, {})) && t.loose == {}
            && |t.s.requests| == 1 && t.s.requests[0].status.RUNNING?
            && t.s.requests[0].candidates == InitialRows(selected, w.registry, [], w.now)
  {
    NoneEligible(Opened(w).s, 0, w.now);
    assert Opened(w).s.requests[..0] == [];
    assert FreshlyActive(w.registry, w.now) == {};
    assert EligibleAtStart(Opened(w), 0, {}) == {};
  }

  lemma RunOne(w: World, e: Event)
    ensures Run(w, [e]) == Step(w, e)
  {
    assert [e][..0] == [];
  }

  /** The worker's own read finds liquidity and is stored in the registry, but the step that
      settles the rows fails, and the row of the pool is marked unavailable instead. */
  lemma AbandonedReadIsMissed() returns (w0: World, es: seq<Event>)
    ensures Initial(w0) && Run(w0, es).work.Some? && Run(w0, es).work.value.rev < |Run(w0, es).s.requests|
    ensures var w := Run(w0, es); Negative(w, {}, false) && FreshlyActive(w.registry, w.now) != {}
  {
    w0 := World([Listed(0, None, false, 0)], State([], {}, map[]), 0, None, {});
    es := Taken(0, 0, [0]) + [EvLeaseRow(0), EvWrite(0, true, 5), EvFail(0)];
    TakenRuns(w0, [0]);
    NothingAtStart(w0, [0]);
    var w1 := Start(Opened(w0), 0, [0], {});
    RunConcat(w0, Taken(0, 0, [0]), [EvLeaseRow(0), EvWrite(0, true, 5), EvFail(0)]);
    RunThree(w1, EvLeaseRow(0), EvWrite(0, true, 5), EvFail(0));
    Abandoned(w1);
    var w := Run(w0, es);
    NegativeIff(w, {}, false);
    assert Active(w.registry[0]) && w.registry[0].pool in FreshlyActive(w.registry, w.now);
  }

  lemma Abandoned(w: World)
    requires w.registry == [Listed(0, None, false, 0)] && w.now == 0 && w.work == Some(Work(0, 0, {}, {})) && |w.s.requests| == 1
    requires w.s.requests[0].status.RUNNING? && w.s.requests[0].candidates == InitialRows([0], w.registry, [], 0)
    ensures var t := Step(Step(Step(w, EvLeaseRow(0)), EvWrite(0, true, 5)), EvFail(0));
            t.registry == [Listed(0, Some(0), true, 5)] && t.now == 0 && t.work == w.work && NothingFound(t, {})
  {
    assert Rows(w.s, 0) == [Candidate(0, REFRESH_REQUESTED, None)];
    var w2 := Step(w, EvLeaseRow(0));
    assert Rows(w2.s, 0) == [Candidate(0, LEASED, None)];
    var w3 := Step(w2, EvWrite(0, true, 5));
    assert w3.registry == [Listed(0, Some(0), true, 5)];
    var t := Step(w3, EvFail(0));
    assert Rows(t.s, 0) == [Candidate(0, EVIDENCE_UNAVAILABLE(false), None)];
    NoneEligible(AtEnd(t), 0, 0);
  }

  // ---- an answer from the rows, over an aged row ----

  /** The first revision finds pool 0 eligible and ends. */
  function FirstRevision(): seq<Event> {
    Taken(0, 0, [0]) + [EvWrite(0, true, 5), EvTick(5100), EvSettle(0)] + [EvFinish({}, false)]
  }

  function TwoPools(): World {
    World([Listed(0, None, false, 0), Listed(1, None, false, 0)], State([], {}, map[]), 0, None, {})
  }

  lemma FirstRevisionRuns() returns (t: World)
    ensures t == Run(TwoPools(), FirstRevision())
    ensures t.registry == [Listed(0, Some(0), true, 5), Listed(1, None, false, 0)] && t.now == 5100 && t.work.None?
    ensures |t.s.requests| == 1 && t.s.requests[0].candidates == [Candidate(0, ELIGIBLE, Some(5100))]
    ensures Terminal(t.s.requests[0].status)
  {
    var w := TwoPools();
    var a, b := Taken(0, 0, [0]), [EvWrite(0, true, 5), EvTick(5100), EvSettle(0)];
    TakenRuns(w, [0]);
    NothingAtStart(w, [0]);
    RunConcat(w, a, b);
    RunConcat(w, a + b, [EvFinish({}, false)]);
    var w1 := Start(Opened(w), 0, [0], {});
    RunThree(w1, EvWrite(0, true, 5), EvTick(5100), EvSettle(0));
    var w4 := SettledFirst(w1);
    RunOne(w4, EvFinish({}, false));
    t := EndsFirst(w4);
  }

  lemma EndsFirst(w: World) returns (t: World)
    requires w.work == Some(Work(0, 0, {}, {0})) && |w.s.requests| == 1 && w.now == 5100 && w.s.requests[0].status.RUNNING?
    requires w.s.requests[0].candidates == [Candidate(0, ELIGIBLE, Some(5100))]
    ensures t == Step(w, EvFinish({}, false)) && t.registry == w.registry && t.now == 5100 && t.work.None?
    ensures |t.s.requests| == 1 && t.s.requests[0].candidates == [Candidate(0, ELIGIBLE, Some(5100))] && Terminal(t.s.requests[0].status)
  {
    t := Step(w, EvFinish({}, false));
    assert Finalized(Rows(w.s, 0)) == [Candidate(0, ELIGIBLE, Some(5100))];
    assert SameRows(AtEnd(w), Answer(w, {}, false).state);
  }

  lemma SettledFirst(w: World) returns (t: World)
    requires w.registry == TwoPools().registry && w.now == 0 && w.work == Some(Work(0, 0, {}, {})) && |w.s.requests| == 1
    requires w.s.requests[0].status.RUNNING? && w.s.requests[0].candidates == InitialRows([0], w.registry, [], 0)
    ensures t == Step(Step(Step(w, EvWrite(0, true, 5)), EvTick(5100)), EvSettle(0))
    ensures t.registry == [Listed(0, Some(0), true, 5), Listed(1, None, false, 0)] && t.now == 5100
    ensures t.work == Some(Work(0, 0, {}, {0})) && |t.s.requests| == 1 && t.s.requests[0].status.RUNNING?
    ensures t.s.requests[0].candidates == [Candidate(0, ELIGIBLE, Some(5100))]
  {
    assert Rows(w.s, 0) == [Candidate(0, REFRESH_REQUESTED, None)];
    var w2 := Step(w, EvWrite(0, true, 5));
    assert w2.registry == [Listed(0, Some(0), true, 5), Listed(1, None, false, 0)];
    var w3 := Step(w2, EvTick(5100));
    assert Listing(w3.registry, 0) == Some(Listed(0, Some(0), true, 5));
    t := Step(w3, EvSettle(0));
    assert {} + {0} == {0};
    assert Rows(t.s, 0) == [Candidate(0, ELIGIBLE, Some(5100))];
  }

  lemma TakesOverRow(w: World) returns (t: World)
    requires w.registry == [Listed(0, Some(0), true, 5), Listed(1, None, false, 0)] && w.now == 125000
    requires |w.s.requests| == 1 && w.s.requests[0].candidates == [Candidate(0, ELIGIBLE, Some(5100))]
    ensures t == Start(Opened(w), 1, [0, 1], {})
    ensures t.registry == w.registry && t.now == 125000 && t.work.Some? && t.work.value.rev == 1
    ensures |t.s.requests| == 2 && t.s.requests[0] == w.s.requests[0] && t.s.requests[1].status.RUNNING? && t.s.requests[1].plan == Plan(2, 0)
    ensures t.s.requests[1].candidates == [Candidate(0, ELIGIBLE, Some(5100)), Candidate(1, REFRESH_REQUESTED, None)]
  {
    t := Start(Opened(w), 1, [0, 1], {});
    assert Listing(w.registry, 0) == Some(w.registry[0]);
    assert w.registry[1..][0] == Listed(1, None, false, 0) && Listing(w.registry, 1) == Some(w.registry[1]);
    assert MaySelect(w.registry, [0, 1]);
    var prior := Opened(w).s.requests[..1];
    assert prior == [w.s.requests[0]];
    assert EligibleRow(prior[0].candidates, 0, 125000) == Some(prior[0].candidates[0]);
    assert EligibleRow(prior[0].candidates, 1, 125000) == None by {
      assert prior[0].candidates[1..] == [];
    }
    assert prior[..0] == [] && PriorEligible(prior, 1, 125000) == None;
    assert Rows(t.s, 1) == [Candidate(0, ELIGIBLE, Some(5100)), Candidate(1, REFRESH_REQUESTED, None)];
  }

  lemma SecondWritten(w: World) returns (t: World)
    requires w.registry == [Listed(0, Some(0), true, 5), Listed(1, None, false, 0)] && w.now == 125000
    ensures t == Step(Step(w, EvWrite(1, true, 0)), EvTick(200)) && t.s == w.s && t.now == 125200 && t.work == w.work
    ensures t.registry == [Listed(0, Some(0), true, 5), Listed(1, Some(125000), true, 0)]
    ensures Listing(t.registry, 1) == Some(t.registry[1])
  {
    assert w.registry[1..][0] == w.registry[1] && Listing(w.registry, 1) == Some(w.registry[1]);
    t := Step(Step(w, EvWrite(1, true, 0)), EvTick(200));
    assert t.registry == [Listed(0, Some(0), true, 5), Listed(1, Some(125000), true, 0)];
    assert t.registry[1..][0] == t.registry[1];
  }

  lemma RowsDecide(w: World) returns (t: World)
    requires w.registry == [Listed(0, Some(0), true, 5), Listed(1, None, false, 0)] && w.now == 125000
    requires w.work.Some? && w.work.value.rev == 1
    requires |w.s.requests| == 2 && w.s.requests[0].candidates == [Candidate(0, ELIGIBLE, Some(5100))]
    requires w.s.requests[1].status.RUNNING? && w.s.requests[1].plan == Plan(2, 0)
    requires w.s.requests[1].candidates == [Candidate(0, ELIGIBLE, Some(5100)), Candidate(1, REFRESH_REQUESTED, None)]
    ensures t == Step(Step(Step(w, EvWrite(1, true, 0)), EvTick(200)), EvOtherSettle(1, 1, true, {}))
    ensures |t.s.requests| == 2 && t.s.requests[1].status.NO_ACTIVE_LIQUIDITY_POOL?
    ensures t.s.requests[1].candidates == [Candidate(0, ELIGIBLE, Some(5100)), Candidate(1, NO_ACTIVE_LIQUIDITY, Some(125200))]
  {
    var w3 := SecondWritten(w);
    assert Rows(w3.s, 1)[1].pool == 1 && Pending(Rows(w3.s, 1)[1]);
    t := Step(w3, EvOtherSettle(1, 1, true, {}));
    var cs := [Candidate(0, ELIGIBLE, Some(5100)), Candidate(1, NO_ACTIVE_LIQUIDITY, Some(125200))];
    var s1 := WithRows(w3.s, 1, cs);
    assert Update(Rows(w3.s, 1), 1, Settle(Some(w3.registry[1]), 125200), true) == cs;
    NoneEligible(s1, 1, 125200);
    NegativeAnswerIsSound(s1, 1, NO_ACTIVE_LIQUIDITY_POOL, {}, 2, 125200);
    assert cs[..1][..0] == [] && cs[..1] == [cs[0]];
    assert Count(cs, FreshlyClassified) == 2 by { assert Count(cs[..1], FreshlyClassified) == 1; }
    NoneUnavailable(cs);
    assert LifecycleCounts(s1.requests[1], 2).unavailable == 0 by { CountsCover(cs); }
    RecomputeKeepsRows(s1, 1, {}, 2, 125200);
  }

  /** A reachable run that stores NO_ACTIVE_LIQUIDITY_POOL over a row that says ELIGIBLE: two
      minutes later a second revision takes over that row, and then another refresher settles
      the only row that is pending. */
  lemma AgedRowIsHidden() returns (es: seq<Event>)
    ensures Initial(TwoPools())
    ensures var t := Run(TwoPools(), es);
            |t.s.requests| == 2 && t.s.requests[1].status.NO_ACTIVE_LIQUIDITY_POOL?
            && t.s.requests[1].candidates != [] && t.s.requests[1].candidates[0] == Candidate(0, ELIGIBLE, Some(5100))
  {
    var a, b, c := [EvTick(119900)], Taken(1, 125000, [0, 1]), [EvWrite(1, true, 0), EvTick(200), EvOtherSettle(1, 1, true, {})];
    es := FirstRevision() + a + b + c;
    var w1 := FirstRevisionRuns();
    RunConcat(TwoPools(), FirstRevision() + a + b, c);
    RunConcat(TwoPools(), FirstRevision() + a, b);
    RunConcat(TwoPools(), FirstRevision(), a);
    RunOne(w1, EvTick(119900));
    var w2 := Step(w1, EvTick(119900));
    TakenRuns(w2, [0, 1]);
    var w3 := TakesOverRow(w2);
    RunThree(w3, EvWrite(1, true, 0), EvTick(200), EvOtherSettle(1, 1, true, {}));
    var t := RowsDecide(w3);
    assert t == Run(TwoPools(), es);
  }
}
