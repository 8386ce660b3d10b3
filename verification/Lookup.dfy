/** The direct lookup of one token: request revisions, their candidates, and one outbox row
    for every subscriber. */
module Lookup {
  import opened Prelude

  type Pool = nat
  /** A subscriber is a chat message; it is unique within a revision. */
  type Subscriber = nat

  datatype Status =
    | QUEUED | RUNNING
    | SUPPORTED_POOLS_FOUND | NO_ACTIVE_LIQUIDITY_POOL | PROVIDER_TEMPORARILY_UNAVAILABLE
    | LOOKUP_TIMED_OUT | REQUEST_EXPIRED

  predicate Terminal(status: Status) {
    !status.QUEUED? && !status.RUNNING?
  }

  /** `notInitialized` is the one unavailable reason that is itself fresh evidence. */
  datatype CandidateState =
    | DISCOVERED | REFRESH_REQUESTED | LEASED
    | ELIGIBLE | NO_ACTIVE_LIQUIDITY | UNSUPPORTED | EVIDENCE_UNAVAILABLE(notInitialized: bool)

  datatype Candidate = Candidate(pool: Pool, state: CandidateState, evidenceAt: Option<int>)

  /** The structural and unsupported counts a worker planned for the revision. */
  datatype Plan = Plan(structural: nat, unsupported: nat)

  datatype Request = Request(
    status: Status, deadlineAt: int, resultExpiresAt: int, leasedUntil: Option<int>, attempts: nat,
    candidates: seq<Candidate>, plan: Plan, eligible: set<Pool>)

  datatype OutboxStatus = PENDING | OUT_LEASED | DELIVERED | FAILED
  datatype OutboxRow = OutboxRow(status: OutboxStatus, attempts: nat, availableAt: int, leasedUntil: Option<int>)

  /** A revision number is the position of its request; the newest is the last. */
  type Ref = (nat, Subscriber)
  datatype State = State(requests: seq<Request>, subscribers: set<Ref>, outbox: map<Ref, OutboxRow>)

  const FRESH_MS := 120000

  // ---- requests ----

  predicate Reusable(r: Request, now: int, explicitRetry: bool, refreshStale: bool) {
    if refreshStale then !Terminal(r.status) && r.deadlineAt > now
    else !explicitRetry && (if Terminal(r.status) then r.resultExpiresAt > now else r.deadlineAt > now)
  }

  function CreateOrReuse(s: State, now: int, deadlineMs: int, ttlMs: int, explicitRetry: bool, refreshStale: bool): State {
    if s.requests != [] && Reusable(s.requests[|s.requests| - 1], now, explicitRetry, refreshStale) then s
    else s.(requests := s.requests + [Request(QUEUED, now + deadlineMs, now + ttlMs, None, 0, [], Plan(0, 0), {})])
  }

  function InsertOutbox(s: State, ref: Ref, now: int): State {
    if ref in s.outbox then s else s.(outbox := s.outbox[ref := OutboxRow(PENDING, 0, now, None)])
  }

  function Attach(s: State, rev: nat, subscriber: Subscriber, now: int): Option<State> {
    if rev >= |s.requests| then None
    else
      var t := s.(subscribers := s.subscribers + {(rev, subscriber)});
      Some(if Terminal(s.requests[rev].status) then InsertOutbox(t, (rev, subscriber), now) else t)
  }

  predicate Leasable(r: Request, now: int) {
    !Terminal(r.status) && r.deadlineAt > now && (r.leasedUntil.None? || r.leasedUntil.value < now)
  }

  /** A request is reused while its answer, or its chance of one, is fresh: an explicit retry
      never reuses, and a refresh of stale evidence only reuses one that is still running. */
  lemma ReuseIff(s: State, now: int, deadlineMs: int, ttlMs: int, explicitRetry: bool, refreshStale: bool)
    ensures var t := CreateOrReuse(s, now, deadlineMs, ttlMs, explicitRetry, refreshStale);
            var reused := s.requests != []
              && var r := s.requests[|s.requests| - 1]; var open := r.status.QUEUED? || r.status.RUNNING?;
                 if open then r.deadlineAt > now && (refreshStale || !explicitRetry)
                 else r.resultExpiresAt > now && !refreshStale && !explicitRetry;
            && (reused ==> t == s)
            && (!reused ==>
                  t == s.(requests := s.requests + [Request(QUEUED, now + deadlineMs, now + ttlMs, None, 0, [], Plan(0, 0), {})]))
  {
  }

  /** A request is leased while it is open, before its deadline, and not under a lease that
      still runs; the lease, its release and its attempts are all that changes. */
  lemma LeaseRecords(s: State, rev: nat, now: int, leaseMs: int)
    ensures var t := Step(s, EvLease(rev, now, leaseMs)); var u := Step(s, EvRelease(rev));
            var leased := rev < |s.requests| && !Terminal(s.requests[rev].status) && s.requests[rev].deadlineAt > now
                          && (s.requests[rev].leasedUntil.Some? ==> s.requests[rev].leasedUntil.value < now);
            && (!leased ==> t == s)
            && (leased ==>
                  t == s.(requests := s.requests[rev := s.requests[rev].(status := RUNNING, leasedUntil := Some(now + leaseMs),
                                                                         attempts := s.requests[rev].attempts + 1)]))
            && (!(rev < |s.requests| && s.requests[rev].status.RUNNING?) ==> u == s)
            && (rev < |s.requests| && s.requests[rev].status.RUNNING? ==>
                  u == s.(requests := s.requests[rev := s.requests[rev].(status := QUEUED, leasedUntil := None)]))
  {
  }

  // ---- evidence ----

  predicate FreshlyClassified(c: Candidate) {
    c.state.ELIGIBLE? || c.state.NO_ACTIVE_LIQUIDITY? || (c.state.EVIDENCE_UNAVAILABLE? && c.state.notInitialized)
  }

  predicate Unavailable(c: Candidate) {
    c.state.EVIDENCE_UNAVAILABLE? && !c.state.notInitialized
  }

  function Count(cs: seq<Candidate>, p: Candidate -> bool): nat {
    if cs == [] then 0 else Count(cs[..|cs| - 1], p) + if p(cs[|cs| - 1]) then 1 else 0
  }

  datatype Counts = Counts(structural: nat, unavailable: nat, classified: nat)

  /** What a completion counts: its caller's own evidence, or the candidate rows, beside the
      number of structural candidates the registry lists at that moment. */
  datatype Basis = Given(counts: Counts) | FromRows(live: nat)

  /** The evidence of a revision from its candidate rows and its plan. Without a row every
      live structural candidate counts as unavailable. */
  function LifecycleCounts(r: Request, live: nat): Counts {
    if r.candidates == [] then Counts(live, live, 0) else RowCounts(r)
  }

  function RowCounts(r: Request): Counts {
    var unsupported := Count(r.candidates, (c: Candidate) => c.state.UNSUPPORTED?);
    var rows := if |r.candidates| >= unsupported then |r.candidates| - unsupported else 0;
    var structural := Max(rows, r.plan.structural);
    Counts(structural, Count(r.candidates, Unavailable) + (structural - rows), Count(r.candidates, FreshlyClassified))
  }

  /** The newest fresh evidence of a pool over the revisions up to and including the last of `rs`. */
  function LatestEvidence(rs: seq<Request>, pool: Pool, now: int): Option<CandidateState> {
    if rs == [] then None
    else
      var here := FreshRow(rs[|rs| - 1].candidates, pool, now);
      if here.Some? then here else LatestEvidence(rs[..|rs| - 1], pool, now)
  }

  function FreshRow(cs: seq<Candidate>, pool: Pool, now: int): Option<CandidateState> {
    if cs == [] then None
    else if cs[0].pool == pool && cs[0].evidenceAt.Some? && cs[0].evidenceAt.value >= now - FRESH_MS then Some(cs[0].state)
    else FreshRow(cs[1..], pool, now)
  }

  function KnownPools(rs: seq<Request>): set<Pool> {
    set i, k | 0 <= i < |rs| && 0 <= k < |rs[i].candidates| :: rs[i].candidates[k].pool
  }

  function CanonicalEligible(s: State, rev: nat, now: int): set<Pool>
    requires rev < |s.requests|
  {
    EligibleAmong(KnownPools(s.requests[..rev + 1]), s.requests[..rev + 1], now)
  }

  function EligibleAmong(pools: set<Pool>, rs: seq<Request>, now: int): set<Pool> {
    set p | p in pools && IsEligible(rs, p, now)
  }

  predicate IsEligible(rs: seq<Request>, pool: Pool, now: int) {
    LatestEvidence(rs, pool, now) == Some(ELIGIBLE)
  }

  // ---- completion ----

  /** A negative answer needs fresh evidence on every structural candidate. */
  function Downgrade(status: Status, n: Counts): Status {
    if status.NO_ACTIVE_LIQUIDITY_POOL? && n.structural > 0 && (n.unavailable > 0 || n.classified < n.structural)
    then PROVIDER_TEMPORARILY_UNAVAILABLE
    else status
  }

  function SubscribersOf(subscribers: set<Ref>, rev: nat): set<Ref> {
    set ref | ref in subscribers && ref.0 == rev
  }

  /** The outbox with a pending row for each of `refs` that has none yet. */
  function OutboxWith(outbox: map<Ref, OutboxRow>, refs: set<Ref>, now: int): map<Ref, OutboxRow> {
    outbox + map ref | ref in refs && ref !in outbox :: OutboxRow(PENDING, 0, now, None)
  }

  /** The rows of a completed revision: its outcome, and one outbox row per subscriber. */
  function Publish(s: State, rev: nat, status: Status, eligible: set<Pool>, now: int): State
    requires rev < |s.requests|
  {
    State(s.requests[rev := s.requests[rev].(status := status, eligible := eligible, leasedUntil := None)],
          s.subscribers,
          OutboxWith(s.outbox, SubscribersOf(s.subscribers, rev), now))
  }

  datatype Completion = Completion(completed: bool, state: State)

  function CountsOf(r: Request, basis: Basis): Counts {
    match basis
    case Given(counts) => counts
    case FromRows(live) => LifecycleCounts(r, live)
  }

  /** `completeDirectTokenLookup`: `found` are the pools the caller (and the V3 cache) holds
      eligible. */
  function Complete(s: State, rev: nat, proposed: Status, found: set<Pool>, basis: Basis, now: int): Completion
    requires Terminal(proposed)
  {
    if rev != |s.requests| - 1 then Completion(false, s)
    else
      var r := s.requests[rev];
      var eligible := found + CanonicalEligible(s, rev, now);
      var status := Downgrade(if eligible != {} then SUPPORTED_POOLS_FOUND else proposed, CountsOf(r, basis));
      if Terminal(r.status) then Completion(false, s)
      else Completion(true, Publish(s, rev, status, eligible, now))
  }

  // ---- outbox ----

  predicate OutboxDue(o: OutboxRow, now: int) {
    (o.status.PENDING? || o.status.OUT_LEASED?) && o.availableAt <= now && (o.leasedUntil.None? || o.leasedUntil.value < now)
  }

  function RetryDelay(attempts: nat): nat {
    if attempts <= 1 then 250 else if attempts == 2 then 500 else if attempts == 3 then 1000
    else if attempts == 4 then 2000 else if attempts == 5 then 4000 else 5000
  }

  /** `retryDirectLookupOutbox` updates the row by its id alone, whatever its status is. */
  function RetryRow(o: OutboxRow, maxRetries: nat, now: int): OutboxRow {
    OutboxRow(if o.attempts >= maxRetries then FAILED else PENDING, o.attempts, now + RetryDelay(o.attempts), None)
  }

  // ---- events ----

  datatype Event =
    | EvCreate(now: int, deadlineMs: int, ttlMs: int, explicitRetry: bool, refreshStale: bool)
    | EvAttach(rev: nat, subscriber: Subscriber, now: int)
    | EvLease(rev: nat, now: int, leaseMs: int)
    | EvRelease(rev: nat)
    | EvCandidates(rev: nat, candidates: seq<Candidate>, plan: Plan)
    | EvComplete(rev: nat, proposed: Status, found: set<Pool>, basis: Basis, now: int)
    | EvLeaseOutbox(ref: Ref, now: int, leaseMs: int)
    | EvDeliver(ref: Ref)
    | EvRetry(ref: Ref, maxRetries: nat, now: int)

  function WithRequest(s: State, rev: nat, r: Request): State
    requires rev < |s.requests|
  {
    s.(requests := s.requests[rev := r])
  }

  /** One transaction. Candidate rows are written by several workers at any time, so their
      event may put any rows there. */
  function Step(s: State, e: Event): State {
    match e
    case EvCreate(now, deadlineMs, ttlMs, explicitRetry, refreshStale) => CreateOrReuse(s, now, deadlineMs, ttlMs, explicitRetry, refreshStale)
    case EvAttach(rev, subscriber, now) => (match Attach(s, rev, subscriber, now) case Some(t) => t case None => s)
    case EvLease(rev, now, leaseMs) =>
      if rev < |s.requests| && Leasable(s.requests[rev], now)
      then WithRequest(s, rev, s.requests[rev].(status := RUNNING, leasedUntil := Some(now + leaseMs), attempts := s.requests[rev].attempts + 1))
      else s
    case EvRelease(rev) =>
      if rev < |s.requests| && s.requests[rev].status.RUNNING?
      then WithRequest(s, rev, s.requests[rev].(status := QUEUED, leasedUntil := None)) else s
    case EvCandidates(rev, candidates, plan) =>
      if rev < |s.requests| then WithRequest(s, rev, s.requests[rev].(candidates := candidates, plan := plan)) else s
    case EvComplete(rev, proposed, found, basis, now) =>
      if Terminal(proposed) then Complete(s, rev, proposed, found, basis, now).state else s
    case EvLeaseOutbox(ref, now, leaseMs) =>
      if ref in s.outbox && OutboxDue(s.outbox[ref], now)
      then s.(outbox := s.outbox[ref := s.outbox[ref].(status := OUT_LEASED, leasedUntil := Some(now + leaseMs), attempts := s.outbox[ref].attempts + 1)])
      else s
    case EvDeliver(ref) =>
      if ref in s.outbox && s.outbox[ref].status.OUT_LEASED?
      then s.(outbox := s.outbox[ref := s.outbox[ref].(status := DELIVERED, leasedUntil := None)]) else s
    case EvRetry(ref, maxRetries, now) =>
      if ref in s.outbox then s.(outbox := s.outbox[ref := RetryRow(s.outbox[ref], maxRetries, now)]) else s
  }

  function Run(s: State, es: seq<Event>): State {
    if es == [] then s else Step(Run(s, es[..|es| - 1]), es[|es| - 1])
  }

  predicate Initial(s: State) {
    s == State([], {}, map[])
  }

  // ---- terminal revisions ----

  /** A finished revision keeps its outcome. */
  predicate OutcomesKept(s: State, t: State) {
    |s.requests| <= |t.requests|
    && forall i :: 0 <= i < |s.requests| && Terminal(s.requests[i].status) ==>
         t.requests[i].status == s.requests[i].status && t.requests[i].eligible == s.requests[i].eligible
  }

  /** This step completed revision `rev`. */
  predicate Completes(s: State, t: State, rev: nat) {
    rev < |s.requests| && rev < |t.requests| && !Terminal(s.requests[rev].status) && Terminal(t.requests[rev].status)
  }

  lemma StepOutcomes(s: State, e: Event, rev: nat)
    ensures OutcomesKept(s, Step(s, e))
    ensures Completes(s, Step(s, e), rev) ==> e.EvComplete? && rev == e.rev == |s.requests| - 1
  {
  }

  function Completions(s: State, es: seq<Event>, rev: nat): nat {
    if es == [] then 0
    else
      var before := Run(s, es[..|es| - 1]);
      Completions(s, es[..|es| - 1], rev) + if Completes(before, Step(before, es[|es| - 1]), rev) then 1 else 0
  }

  /** A revision completes at most once in any run, and its outcome never changes after. */
  lemma {:induction false} CompletesAtMostOnce(s: State, es: seq<Event>, rev: nat)
    ensures OutcomesKept(s, Run(s, es))
    ensures Completions(s, es, rev) <= 1
    ensures Completions(s, es, rev) == 1 || (rev < |s.requests| && Terminal(s.requests[rev].status)) ==>
              rev < |Run(s, es).requests| && Terminal(Run(s, es).requests[rev].status)
    ensures rev < |s.requests| && Terminal(s.requests[rev].status) ==> Completions(s, es, rev) == 0
  {
    if es != [] {
      CompletesAtMostOnce(s, es[..|es| - 1], rev);
      StepOutcomes(Run(s, es[..|es| - 1]), es[|es| - 1], rev);
    }
  }

  /** A revision that is no longer the newest is never completed. */
  lemma OnlyNewestCompletes(s: State, e: Event, rev: nat)
    requires rev < |s.requests| - 1
    ensures Step(s, e).requests[rev].status == s.requests[rev].status || !Terminal(Step(s, e).requests[rev].status)
  {
    StepOutcomes(s, e, rev);
  }

  // ---- what a completion stores ----

  /** A completion is refused exactly on an older or a finished revision. It stores every pool
      that is eligible, and answers that pools were found when there is one; otherwise the
      proposal stands, and a negative answer that is refused says that the providers are
      unavailable. Each subscriber without an outbox row gets one, and nothing else changes. */
  lemma CompletionStores(s: State, rev: nat, proposed: Status, found: set<Pool>, basis: Basis, now: int)
    requires Terminal(proposed)
    ensures var c := Complete(s, rev, proposed, found, basis, now);
            && (c.completed <==> rev == |s.requests| - 1 && !Terminal(s.requests[rev].status))
            && (if !c.completed then c.state == s
                else
                  && |c.state.requests| == |s.requests| && c.state.requests[..rev] == s.requests[..rev]
                  && c.state.subscribers == s.subscribers
                  && StoresRight(s.requests[rev], c.state.requests[rev], proposed, found + CanonicalEligible(s, rev, now), CountsOf(s.requests[rev], basis))
                  && OutboxGrows(s, c.state, rev, now))
  {
  }

  predicate StoresRight(r: Request, t: Request, proposed: Status, eligible: set<Pool>, n: Counts) {
    && t == r.(status := t.status, eligible := eligible, leasedUntil := None)
    && (eligible != {} ==> t.status.SUPPORTED_POOLS_FOUND?)
    && (eligible == {} && !proposed.NO_ACTIVE_LIQUIDITY_POOL? ==> t.status == proposed)
    && (eligible == {} && proposed.NO_ACTIVE_LIQUIDITY_POOL? ==>
          var negative := n.structural == 0 || (n.unavailable == 0 && n.classified >= n.structural);
          (negative ==> t.status.NO_ACTIVE_LIQUIDITY_POOL?) && (!negative ==> t.status.PROVIDER_TEMPORARILY_UNAVAILABLE?))
  }

  predicate OutboxGrows(s: State, t: State, rev: nat, now: int) {
    && (forall ref <- s.outbox :: ref in t.outbox && t.outbox[ref] == s.outbox[ref])
    && (forall ref <- s.subscribers :: ref.0 == rev && ref !in s.outbox ==> ref in t.outbox && t.outbox[ref] == OutboxRow(PENDING, 0, now, None))
    && (forall ref <- t.outbox :: ref in s.outbox || (ref in s.subscribers && ref.0 == rev))
  }

  // ---- which pools are eligible ----

  /** Evidence of the last two minutes is fresh. */
  predicate IsFreshRow(c: Candidate, pool: Pool, now: int) {
    c.pool == pool && c.evidenceAt.Some? && c.evidenceAt.value >= now - 120_000
  }

  /** The newest revision with fresh evidence on the pool; its first fresh row decides. */
  predicate DecidesPool(rs: seq<Request>, pool: Pool, now: int, i: nat, k: nat) {
    && i < |rs| && k < |rs[i].candidates| && IsFreshRow(rs[i].candidates[k], pool, now)
    && (forall m :: 0 <= m < k ==> !IsFreshRow(rs[i].candidates[m], pool, now))
    && (forall j, m :: i < j < |rs| && 0 <= m < |rs[j].candidates| ==> !IsFreshRow(rs[j].candidates[m], pool, now))
  }

  lemma {:induction false} FreshRowIs(cs: seq<Candidate>, pool: Pool, now: int)
    ensures FreshRow(cs, pool, now).None? <==> forall m :: 0 <= m < |cs| ==> !IsFreshRow(cs[m], pool, now)
    ensures FreshRow(cs, pool, now).Some? ==>
              exists k: nat :: k < |cs| && IsFreshRow(cs[k], pool, now) && FreshRow(cs, pool, now) == Some(cs[k].state)
                               && forall m :: 0 <= m < k ==> !IsFreshRow(cs[m], pool, now)
  {
    if cs != [] && !IsFreshRow(cs[0], pool, now) {
      FreshRowIs(cs[1..], pool, now);
      assert forall m :: 0 < m < |cs| ==> cs[m] == cs[1..][m - 1];
      if k: nat :| k < |cs[1..]| && IsFreshRow(cs[1..][k], pool, now) && FreshRow(cs, pool, now) == Some(cs[1..][k].state)
                   && forall m :: 0 <= m < k ==> !IsFreshRow(cs[1..][m], pool, now) {
        assert cs[k + 1] == cs[1..][k];
        forall m | 0 <= m < k + 1 ensures !IsFreshRow(cs[m], pool, now) {
          if m > 0 {
            assert cs[m] == cs[1..][m - 1];
          }
        }
      }
    }
  }

  lemma {:induction false} LatestEvidenceIs(rs: seq<Request>, pool: Pool, now: int, i: nat, k: nat)
    requires DecidesPool(rs, pool, now, i, k)
    ensures LatestEvidence(rs, pool, now) == Some(rs[i].candidates[k].state)
  {
    var n := |rs| - 1;
    FreshRowIs(rs[n].candidates, pool, now);
    if i < n {
      assert rs[..n][i] == rs[i];
      LatestEvidenceIs(rs[..n], pool, now, i, k);
    }
  }

  lemma {:induction false} SomeDecides(rs: seq<Request>, pool: Pool, now: int)
    requires LatestEvidence(rs, pool, now).Some?
    ensures exists i: nat, k: nat :: DecidesPool(rs, pool, now, i, k)
  {
    var n := |rs| - 1;
    FreshRowIs(rs[n].candidates, pool, now);
    if FreshRow(rs[n].candidates, pool, now).Some? {
      var k: nat :| k < |rs[n].candidates| && IsFreshRow(rs[n].candidates[k], pool, now)
                    && forall m :: 0 <= m < k ==> !IsFreshRow(rs[n].candidates[m], pool, now);
      assert DecidesPool(rs, pool, now, n, k);
    } else {
      SomeDecides(rs[..n], pool, now);
      var i: nat, k: nat :| DecidesPool(rs[..n], pool, now, i, k);
      assert DecidesPool(rs, pool, now, i, k);
    }
  }

  /** A pool is eligible exactly when the newest fresh evidence on it, over this and all earlier
      revisions, says so. */
  lemma EligibleIff(s: State, rev: nat, pool: Pool, now: int)
    requires rev < |s.requests|
    ensures pool in CanonicalEligible(s, rev, now) <==>
              exists i: nat, k: nat :: DecidesPool(s.requests[..rev + 1], pool, now, i, k) && s.requests[i].candidates[k].state.ELIGIBLE?
  {
    var rs := s.requests[..rev + 1];
    if IsEligible(rs, pool, now) {
      SomeDecides(rs, pool, now);
      var i: nat, k: nat :| DecidesPool(rs, pool, now, i, k);
      LatestEvidenceIs(rs, pool, now, i, k);
      assert rs[i].candidates[k].pool in KnownPools(rs) && rs[i] == s.requests[i];
    }
    if i: nat, k: nat :| DecidesPool(rs, pool, now, i, k) && s.requests[i].candidates[k].state.ELIGIBLE? {
      LatestEvidenceIs(rs, pool, now, i, k);
      assert rs[i].candidates[k].pool in KnownPools(rs);
    }
  }

  // ---- a negative answer is sound ----

  lemma {:induction false} CountsCover(cs: seq<Candidate>)
    ensures Count(cs, FreshlyClassified) + Count(cs, (c: Candidate) => c.state.UNSUPPORTED?) <= |cs|
    ensures Count(cs, FreshlyClassified) + Count(cs, (c: Candidate) => c.state.UNSUPPORTED?) == |cs| <==>
              forall i :: 0 <= i < |cs| ==> FreshlyClassified(cs[i]) || cs[i].state.UNSUPPORTED?
  {
    if cs != [] {
      CountsCover(cs[..|cs| - 1]);
    }
  }

  /** Every row that is not unsupported was freshly classified, and the plan counts no
      structural candidate beyond them; without any row, the registry lists none at all. */
  predicate AllClassified(r: Request, live: nat) {
    if r.candidates == [] then live == 0
    else
      (forall i :: 0 <= i < |r.candidates| ==> FreshlyClassified(r.candidates[i]) || r.candidates[i].state.UNSUPPORTED?)
      && r.plan.structural <= Count(r.candidates, FreshlyClassified)
  }

  /** Answered from the candidate rows, NO_ACTIVE_LIQUIDITY_POOL is stored exactly when it was
      proposed, no pool is eligible, and every structural candidate is known to be classified. */
  lemma NegativeAnswerIsSound(s: State, rev: nat, proposed: Status, found: set<Pool>, live: nat, now: int)
    requires Terminal(proposed) && rev == |s.requests| - 1 && !Terminal(s.requests[rev].status)
    ensures var c := Complete(s, rev, proposed, found, FromRows(live), now);
            c.completed
            && (c.state.requests[rev].status.NO_ACTIVE_LIQUIDITY_POOL? <==>
                  proposed.NO_ACTIVE_LIQUIDITY_POOL? && found == {} && CanonicalEligible(s, rev, now) == {}
                  && AllClassified(s.requests[rev], live))
  {
    var r := s.requests[rev];
    CountsCover(r.candidates);
    NoneUnavailable(r.candidates);
  }

  lemma {:induction false} NoneUnavailable(cs: seq<Candidate>)
    ensures (forall i :: 0 <= i < |cs| ==> FreshlyClassified(cs[i]) || cs[i].state.UNSUPPORTED?) ==> Count(cs, Unavailable) == 0
  {
    if cs != [] {
      NoneUnavailable(cs[..|cs| - 1]);
    }
  }

  /** A row that still says ELIGIBLE although its evidence has aged out. */
  predicate HasAgedEligible(cs: seq<Candidate>, now: int) {
    exists i | 0 <= i < |cs| ::
      cs[i].state.ELIGIBLE? && !(cs[i].evidenceAt.Some? && cs[i].evidenceAt.value >= now - FRESH_MS)
  }

  /** What "freshly classified" leaves open: an aged ELIGIBLE row counts as classified and not
      as eligible. Answered from the candidate rows, NO_ACTIVE_LIQUIDITY_POOL is stored over an
      ELIGIBLE row exactly when there is such a row and nothing else stands against the
      answer. */
  lemma HidesEligibleIff(s: State, rev: nat, proposed: Status, found: set<Pool>, live: nat, now: int)
    requires Terminal(proposed) && rev == |s.requests| - 1 && !Terminal(s.requests[rev].status)
    requires DistinctRows(s.requests[rev].candidates)
    ensures var cs := s.requests[rev].candidates;
            (Complete(s, rev, proposed, found, FromRows(live), now).state.requests[rev].status.NO_ACTIVE_LIQUIDITY_POOL?
             && exists i | 0 <= i < |cs| :: cs[i].state.ELIGIBLE?)
            <==> (HasAgedEligible(cs, now)
                  && proposed.NO_ACTIVE_LIQUIDITY_POOL? && found == {} && CanonicalEligible(s, rev, now) == {}
                  && AllClassified(s.requests[rev], live))
  {
    var cs := s.requests[rev].candidates;
    NegativeAnswerIsSound(s, rev, proposed, found, live, now);
    if i :| 0 <= i < |cs| && cs[i].state.ELIGIBLE? && cs[i].evidenceAt.Some? && cs[i].evidenceAt.value >= now - FRESH_MS {
      FreshEligibleCounts(s, rev, i, now);
    }
  }

  lemma FreshEligibleCounts(s: State, rev: nat, i: nat, now: int)
    requires rev == |s.requests| - 1 && i < |s.requests[rev].candidates| && DistinctRows(s.requests[rev].candidates)
    requires var c := s.requests[rev].candidates[i]; c.state.ELIGIBLE? && c.evidenceAt.Some? && c.evidenceAt.value >= now - FRESH_MS
    ensures s.requests[rev].candidates[i].pool in CanonicalEligible(s, rev, now)
  {
    var cs := s.requests[rev].candidates;
    assert s.requests[..rev + 1] == s.requests;
    FreshRowFinds(cs, i, now);
    assert cs[i].pool in KnownPools(s.requests);
    assert IsEligible(s.requests, cs[i].pool, now);
  }

  predicate DistinctRows(cs: seq<Candidate>) {
    forall i, j :: 0 <= i < j < |cs| ==> cs[i].pool != cs[j].pool
  }

  lemma {:induction false} FreshRowFinds(cs: seq<Candidate>, i: nat, now: int)
    requires DistinctRows(cs) && i < |cs| && cs[i].evidenceAt.Some? && cs[i].evidenceAt.value >= now - FRESH_MS
    ensures FreshRow(cs, cs[i].pool, now) == Some(cs[i].state)
  {
    if i > 0 {
      assert cs[1..][i - 1] == cs[i];
      FreshRowFinds(cs[1..], i - 1, now);
    }
  }

  /** The registry's own view of a structural candidate, when a worker counts that instead. */
  datatype RegistryClass = STALE | FRESH_ZERO | FRESH_POSITIVE | FRESH_NOT_INITIALIZED

  function CountClassified(cs: seq<RegistryClass>): nat {
    if cs == [] then 0 else CountClassified(cs[..|cs| - 1]) + if cs[|cs| - 1].STALE? then 0 else 1
  }

  function RegistryCounts(cs: seq<RegistryClass>): Counts {
    Counts(|cs|, Max(0, |cs| - CountClassified(cs)), CountClassified(cs))
  }

  lemma {:induction false} ClassifiedAll(cs: seq<RegistryClass>)
    ensures CountClassified(cs) <= |cs|
    ensures CountClassified(cs) == |cs| <==> forall i :: 0 <= i < |cs| ==> !cs[i].STALE?
  {
    if cs != [] {
      ClassifiedAll(cs[..|cs| - 1]);
    }
  }

  /** Answered from the registry, as the worker does, NO_ACTIVE_LIQUIDITY_POOL is stored
      exactly when it was proposed, no pool was found or is eligible, and every structural
      candidate was refreshed within the freshness window. */
  lemma RegistryAnswerIsSound(s: State, rev: nat, proposed: Status, found: set<Pool>, cs: seq<RegistryClass>, now: int)
    requires Terminal(proposed) && rev == |s.requests| - 1 && !Terminal(s.requests[rev].status)
    ensures var c := Complete(s, rev, proposed, found, Given(RegistryCounts(cs)), now);
            c.completed
            && (c.state.requests[rev].status.NO_ACTIVE_LIQUIDITY_POOL? <==>
                  proposed.NO_ACTIVE_LIQUIDITY_POOL? && found == {} && CanonicalEligible(s, rev, now) == {}
                  && forall i :: 0 <= i < |cs| ==> !cs[i].STALE?)
  {
    ClassifiedAll(cs);
  }

  // ---- one outbox row per subscriber ----

  /** A subscriber has an outbox row exactly when its revision is finished. */
  predicate OutboxExact(s: State) {
    && (forall ref <- s.subscribers :: ref.0 < |s.requests| && (ref in s.outbox <==> Terminal(s.requests[ref.0].status)))
    && (forall ref <- s.outbox :: ref in s.subscribers)
  }

  lemma StepOutbox(s: State, e: Event)
    requires OutboxExact(s)
    ensures OutboxExact(Step(s, e))
  {
  }

  /** In every reachable state, whether a subscriber attached before or after the
      completion, it has its one outbox row exactly when its revision is finished. */
  lemma {:induction false} OneOutboxRowEach(s: State, es: seq<Event>)
    requires Initial(s)
    ensures OutboxExact(Run(s, es))
  {
    if es != [] {
      OneOutboxRowEach(s, es[..|es| - 1]);
      StepOutbox(Run(s, es[..|es| - 1]), es[|es| - 1]);
    }
  }

  // ---- delivery ----

  /** The three updates of an outbox row: leased when it is due and under no running lease,
      delivered from a lease only, and put back with a longer delay each time, or given up
      after the last attempt. */
  lemma OutboxRecords(s: State, ref: Ref, now: int, leaseMs: int, maxRetries: nat)
    requires ref in s.outbox
    ensures var o := s.outbox[ref];
            var due := !o.status.DELIVERED? && !o.status.FAILED? && o.availableAt <= now && (o.leasedUntil.Some? ==> o.leasedUntil.value < now);
            && Step(s, EvLeaseOutbox(ref, now, leaseMs))
               == (if due then s.(outbox := s.outbox[ref := OutboxRow(OUT_LEASED, o.attempts + 1, o.availableAt, Some(now + leaseMs))]) else s)
            && Step(s, EvDeliver(ref))
               == (if o.status.OUT_LEASED? then s.(outbox := s.outbox[ref := OutboxRow(DELIVERED, o.attempts, o.availableAt, None)]) else s)
            && Step(s, EvRetry(ref, maxRetries, now))
               == s.(outbox := s.outbox[ref := OutboxRow(if o.attempts >= maxRetries then FAILED else PENDING, o.attempts, now + RetryDelay(o.attempts), None)])
  {
  }

  /** The delays of the retries: 250 milliseconds, doubled each time up to five seconds. */
  lemma RetryDelays(attempts: nat)
    ensures RetryDelay(0) == RetryDelay(1) == 250 && 250 <= RetryDelay(attempts) <= 5000
    ensures attempts >= 1 ==> RetryDelay(attempts + 1) == Min(2 * RetryDelay(attempts), 5000)
  {
  }

  predicate Delivers(s: State, t: State, ref: Ref) {
    ref in s.outbox && ref in t.outbox && !s.outbox[ref].status.DELIVERED? && t.outbox[ref].status.DELIVERED?
  }

  predicate RevertsDelivery(s: State, e: Event, ref: Ref) {
    e.EvRetry? && e.ref == ref && ref in s.outbox && s.outbox[ref].status.DELIVERED?
  }

  /** A delivered row stays delivered under every transaction but a retry of it. */
  lemma DeliveredChangesOnlyByRetry(s: State, e: Event, ref: Ref)
    requires ref in s.outbox && s.outbox[ref].status.DELIVERED?
    ensures ref in Step(s, e).outbox
    ensures Step(s, e).outbox[ref].status.DELIVERED? <==> !RevertsDelivery(s, e, ref)
  {
  }

  function Deliveries(s: State, es: seq<Event>, ref: Ref): nat {
    if es == [] then 0
    else
      var before := Run(s, es[..|es| - 1]);
      Deliveries(s, es[..|es| - 1], ref) + if Delivers(before, Step(before, es[|es| - 1]), ref) then 1 else 0
  }

  /** Each outbox row is delivered at most once in every run in which nobody retries a row
      that was already delivered. */
  lemma {:induction false} DeliveredAtMostOnce(s: State, es: seq<Event>, ref: Ref)
    requires Initial(s)
    requires forall i :: 0 <= i < |es| ==> !RevertsDelivery(Run(s, es[..i]), es[i], ref)
    ensures Deliveries(s, es, ref) <= 1
    ensures Deliveries(s, es, ref) == 1 ==> ref in Run(s, es).outbox && Run(s, es).outbox[ref].status.DELIVERED?
  {
    if es != [] {
      var prior := es[..|es| - 1];
      forall i | 0 <= i < |prior| ensures !RevertsDelivery(Run(s, prior[..i]), prior[i], ref) {
        assert prior[..i] == es[..i];
      }
      DeliveredAtMostOnce(s, prior, ref);
      var before := Run(s, prior);
      if ref in before.outbox && before.outbox[ref].status.DELIVERED? {
        DeliveredChangesOnlyByRetry(before, es[|es| - 1], ref);
      }
    }
  }

  /** The retry of a worker whose lease was taken over undoes a delivery: the row can be
      leased and delivered a second time. */
  lemma LateRetryDeliversTwice(s: State, ref: Ref, now: int, maxRetries: nat)
    requires ref in s.outbox && s.outbox[ref].status.DELIVERED? && s.outbox[ref].attempts < maxRetries
    ensures var later := now + RetryDelay(s.outbox[ref].attempts);
            var t := Run(s, [EvRetry(ref, maxRetries, now), EvLeaseOutbox(ref, later, 1000), EvDeliver(ref)]);
            Deliveries(s, [EvRetry(ref, maxRetries, now), EvLeaseOutbox(ref, later, 1000), EvDeliver(ref)], ref) == 1
            && ref in t.outbox && t.outbox[ref].status.DELIVERED?
  {
    var later := now + RetryDelay(s.outbox[ref].attempts);
    var e0, e1, e2 := EvRetry(ref, maxRetries, now), EvLeaseOutbox(ref, later, 1000), EvDeliver(ref);
    var es := [e0, e1, e2];
    assert es[..2] == [e0, e1] && es[..2][..1] == [e0] && es[..2][..1][..0] == [];
    assert Run(s, es[..2][..1]) == Step(s, e0);
    assert Run(s, es[..2]) == Step(Step(s, e0), e1);
    assert Deliveries(s, es[..2][..1], ref) == 0;
    assert Deliveries(s, es[..2], ref) == 0;
  }

  lemma {:induction false} RunConcat(s: State, a: seq<Event>, b: seq<Event>, ref: Ref)
    ensures Run(s, a + b) == Run(Run(s, a), b)
    ensures Deliveries(s, a + b, ref) == Deliveries(s, a, ref) + Deliveries(Run(s, a), b, ref)
  {
    if b == [] {
      assert a + b == a;
    } else {
      assert (a + b)[..|a + b| - 1] == a + b[..|b| - 1];
      RunConcat(s, a, b[..|b| - 1], ref);
    }
  }

  lemma RunThree(s: State, a: Event, b: Event, c: Event, ref: Ref)
    ensures Run(s, [a, b, c]) == Step(Step(Step(s, a), b), c)
    ensures Deliveries(s, [a, b, c], ref) >= if Delivers(Step(Step(s, a), b), Step(Step(Step(s, a), b), c), ref) then 1 else 0
  {
    assert [a, b, c][..2] == [a, b] && [a, b][..1] == [a] && [a][..0] == [];
    assert Run(s, [a]) == Step(s, a);
    assert Run(s, [a, b]) == Step(Run(s, [a]), b);
  }

  /** Such a state is reached, and left for a second delivery, from the empty tables. */
  lemma TwoDeliveriesAreReachable(s: State, ref: Ref) returns (es: seq<Event>)
    requires Initial(s) && ref == (0, 7)
    ensures Deliveries(s, es, ref) >= 2
  {
    var before, t := FirstDelivery(s, ref);
    var again := [EvRetry(ref, 5, 0), EvLeaseOutbox(ref, 0 + RetryDelay(t.outbox[ref].attempts), 1000), EvDeliver(ref)];
    LateRetryDeliversTwice(t, ref, 0, 5);
    es := before + again;
    RunConcat(s, before, again, ref);
  }

  lemma FirstDelivery(s: State, ref: Ref) returns (es: seq<Event>, t: State)
    requires Initial(s) && ref == (0, 7)
    ensures t == Run(s, es) && Deliveries(s, es, ref) >= 1
    ensures ref in t.outbox && t.outbox[ref].status.DELIVERED? && t.outbox[ref].attempts == 1
  {
    var start := [EvCreate(0, 45000, 300000, false, false), EvAttach(0, 7, 0)];
    var rest := [EvComplete(0, LOOKUP_TIMED_OUT, {}, FromRows(0), 0), EvLeaseOutbox(ref, 0, 1000), EvDeliver(ref)];
    var s1 := Opened(s);
    t := DeliversFirst(s1, ref);
    RunThree(s1, rest[0], rest[1], rest[2], ref);
    es := start + rest;
    RunConcat(s, start, rest, ref);
  }

  lemma Opened(s: State) returns (t: State)
    requires Initial(s)
    ensures t == Run(s, [EvCreate(0, 45000, 300000, false, false), EvAttach(0, 7, 0)])
    ensures |t.requests| == 1 && t.requests[0].status.QUEUED? && t.requests[0].candidates == [] && t.subscribers == {(0, 7)} && t.outbox == map[]
  {
    var a, b := EvCreate(0, 45000, 300000, false, false), EvAttach(0, 7, 0);
    t := Step(Step(s, a), b);
    assert [a, b][..1] == [a] && [a][..0] == [];
    assert Run(s, [a]) == Step(s, a);
  }

  lemma DeliversFirst(s: State, ref: Ref) returns (t: State)
    requires |s.requests| == 1 && s.requests[0].status.QUEUED? && s.requests[0].candidates == [] && ref == (0, 7)
    requires s.subscribers == {ref} && s.outbox == map[]
    ensures t == Step(Step(Step(s, EvComplete(0, LOOKUP_TIMED_OUT, {}, FromRows(0), 0)), EvLeaseOutbox(ref, 0, 1000)), EvDeliver(ref))
    ensures Delivers(Step(Step(s, EvComplete(0, LOOKUP_TIMED_OUT, {}, FromRows(0), 0)), EvLeaseOutbox(ref, 0, 1000)), t, ref)
    ensures ref in t.outbox && t.outbox[ref].status.DELIVERED? && t.outbox[ref].attempts == 1
  {
    var s1 := Step(s, EvComplete(0, LOOKUP_TIMED_OUT, {}, FromRows(0), 0));
    assert ref in SubscribersOf(s.subscribers, 0);
    assert ref in s1.outbox && s1.outbox[ref] == OutboxRow(PENDING, 0, 0, None);
    t := Step(Step(s1, EvLeaseOutbox(ref, 0, 1000)), EvDeliver(ref));
  }

  // ---- the rows as they are updated in place ----

  class LookupStore {
    var requests: seq<Request>
    var subscribers: set<Ref>
    var outbox: map<Ref, OutboxRow>

    function Rows(): State
      reads this
    {
      State(requests, subscribers, outbox)
    }

    constructor ()
      ensures Initial(Rows())
    {
      requests, subscribers, outbox := [], {}, map[];
    }

    method AttachSubscriber(rev: nat, subscriber: Subscriber, now: int) returns (ok: bool)
      modifies this
      ensures var t := Attach(old(Rows()), rev, subscriber, now);
              ok == t.Some? && Rows() == if ok then t.value else old(Rows())
      ensures requests == old(requests)
      ensures forall ref <- old(outbox) :: ref in outbox && outbox[ref] == old(outbox)[ref]
      ensures forall ref <- outbox :: ref in old(outbox) || (ref == (rev, subscriber) && outbox[ref].status.PENDING?)
      ensures ok ==> (rev, subscriber) in subscribers && (Terminal(requests[rev].status) ==> (rev, subscriber) in outbox)
    {
      if rev >= |requests| { return false; }
      subscribers := subscribers + {(rev, subscriber)};
      if Terminal(requests[rev].status) { AddOutbox((rev, subscriber), now); }
      return true;
    }

    method AddOutbox(ref: Ref, now: int)
      modifies this`outbox
      ensures outbox == old(outbox) + if ref in old(outbox) then map[] else map[ref := OutboxRow(PENDING, 0, now, None)]
    {
      if ref !in outbox { outbox := outbox[ref := OutboxRow(PENDING, 0, now, None)]; }
    }

    method CompleteLookup(rev: nat, proposed: Status, found: set<Pool>, basis: Basis, now: int) returns (completed: bool)
      requires Terminal(proposed)
      modifies this
      ensures Completion(completed, Rows()) == Complete(old(Rows()), rev, proposed, found, basis, now)
      ensures completed <==> rev == |old(requests)| - 1 && !Terminal(old(requests)[rev].status)
      ensures !completed ==> Rows() == old(Rows())
      ensures completed ==>
                && |requests| == |old(requests)| && requests[..rev] == old(requests)[..rev] && subscribers == old(subscribers)
                && StoresRight(old(requests)[rev], requests[rev], proposed, found + CanonicalEligible(old(Rows()), rev, now),
                               CountsOf(old(requests)[rev], basis))
                && OutboxGrows(old(Rows()), Rows(), rev, now)
    {
      CompletionStores(Rows(), rev, proposed, found, basis, now);
      if rev != |requests| - 1 { return false; }
      var r := requests[rev];
      var eligible := found + CanonicalEligible(Rows(), rev, now);
      var status := Downgrade(if eligible != {} then SUPPORTED_POOLS_FOUND else proposed, CountsOf(r, basis));
      if Terminal(r.status) { return false; }
      requests := requests[rev := r.(status := status, eligible := eligible, leasedUntil := None)];
      AddOutboxRows(SubscribersOf(subscribers, rev), now);
      return true;
    }

    method AddOutboxRows(refs: set<Ref>, now: int)
      modifies this`outbox
      ensures outbox == OutboxWith(old(outbox), refs, now)
    {
      ghost var before := outbox;
      var waiting := refs;
      while waiting != {}
        invariant waiting <= refs
        invariant outbox == OutboxWith(before, refs - waiting, now)
        decreases |waiting|
      {
        var ref :| ref in waiting;
        AddOutbox(ref, now);
        waiting := waiting - {ref};
      }
      assert refs - waiting == refs;
    }
  }
}
