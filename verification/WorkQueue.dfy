/** The economic reconciliation queue and the RPC read lanes: leases under a monotone clock.
    Every writer reads the clock, and what it checks first, before it waits for its turn to
    write; a parameter `at` is such a reading of the clock. */
module WorkQueue {
  import opened Prelude

  type Id = nat
  type Owner = nat

  datatype Status = PENDING | LEASED | RETRYABLE | COMPLETED | FAILED_CLOSED
  datatype Item = Item(
    source: nat, status: Status, priority: int, availableAt: int, owner: Option<Owner>, leasedUntil: int, attempts: nat)

  type Items = map<Id, Item>

  predicate Terminal(status: Status) {
    status.COMPLETED? || status.FAILED_CLOSED?
  }

  predicate Waiting(status: Status) {
    status.PENDING? || status.RETRYABLE?
  }

  // ---- ensure ----

  /** `ensureEconomicReconciliationWork`: one row per canonical identity. `seen` is the row as
      it was read before the write; not `ok` when it throws because the identity is known from
      another source. It only ever raises the priority and brings a waiting item forward. */
  function Ensure(items: Items, seen: Option<Item>, id: Id, source: nat, priority: int, at: int): Ensured {
    if seen.Some? && seen.value.source != source then Ensured(items, false)
    else if seen.Some? && !Raises(seen.value, priority, at) then Ensured(items, true)
    else
      var t := Upsert(items, id, source, priority, at);
      Ensured(t, t[id].source == source)
  }

  datatype Ensured = Ensured(items: Items, ok: bool)

  /** An ensure has something to change: a higher priority, or an earlier time while waiting. */
  predicate Raises(item: Item, priority: int, at: int) {
    priority > item.priority || (Waiting(item.status) && at < item.availableAt)
  }

  /** The insert that on conflict merges, and keeps the source of the row it finds. */
  function Upsert(items: Items, id: Id, source: nat, priority: int, at: int): (r: Items)
    ensures id in r
  {
    if id !in items then items[id := Item(source, PENDING, priority, at, None, 0, 0)]
    else
      var item := items[id];
      items[id := item.(priority := Max(item.priority, priority),
                        availableAt := if Waiting(item.status) then Min(item.availableAt, at) else item.availableAt)]
  }

  /** An ensure that read the row before another writer inserted it is refused late: it throws
      exactly when the sources differ, and then its merge stays. */
  lemma LateConflictKeepsMerge(items: Items, id: Id, source: nat, priority: int, at: int)
    requires id in items
    ensures var r := Ensure(items, None, id, source, priority, at);
            (!r.ok <==> items[id].source != source)
            && id in r.items && r.items[id].source == items[id].source && r.items[id].status == items[id].status
            && (Raises(items[id], priority, at) <==> r.items != items)
  {
    if !Raises(items[id], priority, at) {
      assert items[id := items[id]] == items;
    } else {
      assert Upsert(items, id, source, priority, at)[id] != items[id];
    }
  }

  /** What an ensure leaves: a new item is pending from its reading of the clock; a known one
      keeps everything but its priority, which never falls, and the time of a waiting one,
      which never rises. */
  lemma EnsureRecords(items: Items, seen: Option<Item>, id: Id, source: nat, priority: int, at: int)
    ensures var r := Ensure(items, seen, id, source, priority, at);
            var skipped := seen.Some? && (seen.value.source != source || !Raises(seen.value, priority, at));
            && (forall other <- items :: other != id ==> other in r.items && r.items[other] == items[other])
            && r.items.Keys == (if skipped then items.Keys else items.Keys + {id})
            && (skipped ==> r.items == items && (r.ok <==> seen.value.source == source))
            && (!skipped && id !in items ==> r.ok && r.items[id] == Item(source, PENDING, priority, at, None, 0, 0))
            && (!skipped && id in items ==>
                  var was, now := items[id], r.items[id];
                  && (r.ok <==> was.source == source)
                  && now == was.(priority := now.priority, availableAt := now.availableAt)
                  && now.priority >= was.priority && now.priority >= priority && (now.priority == was.priority || now.priority == priority)
                  && (if Waiting(was.status) then now.availableAt <= was.availableAt && now.availableAt <= at
                                                  && (now.availableAt == was.availableAt || now.availableAt == at)
                      else now.availableAt == was.availableAt))
  {
  }

  // ---- lease ----

  predicate Due(item: Item, at: int) {
    (Waiting(item.status) && item.availableAt <= at) || (item.status.LEASED? && item.leasedUntil <= at)
  }

  /** priority DESC, available_at_ms, work_id. */
  predicate Before(items: Items, a: Id, b: Id)
    requires a in items && b in items
  {
    if items[a].priority != items[b].priority then items[a].priority > items[b].priority
    else if items[a].availableAt != items[b].availableAt then items[a].availableAt < items[b].availableAt
    else a < b
  }

  lemma BeforeIsTransitive(items: Items, a: Id, b: Id, c: Id)
    requires a in items && b in items && c in items && Before(items, a, b) && Before(items, b, c)
    ensures Before(items, a, c)
  {
  }

  function DueItems(items: Items, at: int): set<Id> {
    set id | id in items && Due(items[id], at)
  }

  /** `batch` is the top of the order among the due items: as many as the limit allows, and
      every due item left out comes after every one taken. */
  predicate IsTop(items: Items, at: int, limit: nat, batch: set<Id>) {
    && batch <= DueItems(items, at)
    && |batch| == Min(limit, |DueItems(items, at)|)
    && forall a <- batch, b <- DueItems(items, at) - batch :: a in items && b in items && Before(items, a, b)
  }

  predicate IsDue(item: Item, at: int) {
    match item.status
    case PENDING => item.availableAt <= at
    case RETRYABLE => item.availableAt <= at
    case LEASED => item.leasedUntil <= at
    case _ => false
  }

  /** Nothing that is left out and due has a higher priority than what is taken, or the same
      and has waited longer; and only what is due is taken. */
  predicate MostUrgent(items: Items, at: int, batch: set<Id>) {
    && (forall a <- batch :: a in items && IsDue(items[a], at))
    && forall a <- batch, b <- items :: b !in batch && IsDue(items[b], at) ==>
         items[a].priority > items[b].priority
         || (items[a].priority == items[b].priority
             && (items[a].availableAt < items[b].availableAt || (items[a].availableAt == items[b].availableAt && a < b)))
  }

  lemma TopIsUrgent(items: Items, at: int, limit: nat, batch: set<Id>)
    requires IsTop(items, at, limit, batch)
    ensures MostUrgent(items, at, batch)
  {
    forall a <- batch, b <- items | b !in batch && IsDue(items[b], at) ensures Before(items, a, b) {
      assert b in DueItems(items, at) - batch;
    }
  }

  /** The first of a set of items in the order. */
  method First(items: Items, ids: set<Id>) returns (best: Id)
    requires ids != {} && forall id <- ids :: id in items
    ensures best in ids && forall id <- ids :: id != best ==> Before(items, best, id)
  {
    best :| best in ids;
    var rest := ids - {best};
    while rest != {}
      invariant rest <= ids && best in ids - rest
      invariant forall id <- ids - rest :: id != best ==> Before(items, best, id)
      decreases |rest|
    {
      var id :| id in rest;
      forall x <- ids | Before(items, id, best) && Before(items, best, x) ensures Before(items, id, x) {
        BeforeIsTransitive(items, id, best, x);
      }
      if Before(items, id, best) { best := id; }
      rest := rest - {id};
    }
  }

  /** The candidates of one lease statement. */
  method TopDue(items: Items, at: int, limit: nat) returns (batch: set<Id>)
    ensures IsTop(items, at, limit, batch)
  {
    batch := {};
    var due := DueItems(items, at);
    var rest := due;
    while |batch| < limit && rest != {}
      invariant batch <= due && rest == due - batch && |batch| <= limit
      invariant forall a <- batch, b <- rest :: a in items && b in items && Before(items, a, b)
      decreases |rest|
    {
      var best := First(items, rest);
      batch, rest := batch + {best}, rest - {best};
    }
    assert |due| == |batch| + |rest|;
  }

  function ClampLimit(limit: int): (n: nat)
    ensures 1 <= n <= 32
    ensures n == limit || (n == 1 && limit < 1) || (n == 32 && limit > 32)
  {
    Max(1, Min(32, limit))
  }

  function ClampLease(leaseMs: int): (n: nat)
    ensures 1000 <= n <= 300000
    ensures n == leaseMs || (n == 1000 && leaseMs < 1000) || (n == 300000 && leaseMs > 300000)
  {
    Max(1000, Min(300000, leaseMs))
  }

  function LeaseItems(items: Items, batch: set<Id>, owner: Owner, until: int): Items {
    map id | id in items ::
      if id in batch then items[id].(status := LEASED, owner := Some(owner), leasedUntil := until, attempts := items[id].attempts + 1)
      else items[id]
  }

  // ---- complete and retry ----

  predicate OwnedBy(items: Items, id: Id, owner: Owner) {
    id in items && items[id].status.LEASED? && items[id].owner == Some(owner)
  }

  function Complete(items: Items, id: Id, owner: Owner): Option<Items> {
    if OwnedBy(items, id, owner) then Some(items[id := items[id].(status := COMPLETED, owner := None)]) else None
  }

  /** An item is completed by its owner alone, and then leased to nobody. */
  lemma CompleteRecords(items: Items, id: Id, owner: Owner)
    ensures var t := Complete(items, id, owner);
            && (t.Some? <==> id in items && items[id].status.LEASED? && items[id].owner == Some(owner))
            && (t.Some? ==>
                  t.value.Keys == items.Keys && (forall other <- items :: other != id ==> t.value[other] == items[other])
                  && t.value[id] == items[id].(status := COMPLETED, owner := None))
  {
  }

  function TwoTo(n: nat): nat {
    if n == 0 then 1 else 2 * TwoTo(n - 1)
  }

  function RetryDelay(attempts: nat): nat {
    Min(300000, 1000 * TwoTo(Min(attempts, 8)))
  }

  /** `attempts` is what the owner read before it waited. */
  function Retry(items: Items, id: Id, owner: Owner, attempts: nat, terminal: bool, at: int): Option<Items> {
    if OwnedBy(items, id, owner) then
      Some(items[id := items[id].(status := if terminal then FAILED_CLOSED else RETRYABLE, owner := None,
                                  availableAt := at + RetryDelay(attempts))])
    else None
  }

  /** A retry is its owner's alone too: it fails the item closed, or puts it back with its
      back-off. */
  lemma RetryRecords(items: Items, id: Id, owner: Owner, attempts: nat, terminal: bool, at: int)
    ensures var t := Retry(items, id, owner, attempts, terminal, at);
            && (t.Some? <==> id in items && items[id].status.LEASED? && items[id].owner == Some(owner))
            && (t.Some? ==>
                  t.value.Keys == items.Keys && (forall other <- items :: other != id ==> t.value[other] == items[other])
                  && t.value[id] == items[id].(status := if terminal then FAILED_CLOSED else RETRYABLE, owner := None,
                                               availableAt := at + RetryDelay(attempts)))
  {
  }

  /** The back-off doubles up to 256 seconds; the cap of 300 seconds is never reached. */
  lemma RetryDelayBounds(attempts: nat)
    ensures 1000 <= RetryDelay(attempts) <= 256000 && RetryDelay(0) == 1000
    ensures RetryDelay(attempts) == 1000 * TwoTo(Min(attempts, 8))
    ensures attempts < 8 ==> RetryDelay(attempts + 1) == 2 * RetryDelay(attempts)
    ensures attempts >= 8 ==> RetryDelay(attempts) == 256000
  {
    assert TwoTo(8) == 256 && TwoTo(7) == 128 && TwoTo(6) == 64 && TwoTo(5) == 32 && TwoTo(4) == 16;
    TwoToMono(Min(attempts, 8), 8);
    TwoToMono(0, Min(attempts, 8));
    if attempts < 8 {
      TwoToMono(attempts + 1, 8);
    }
  }

  lemma {:induction false} TwoToMono(a: nat, b: nat)
    requires a <= b
    ensures TwoTo(a) <= TwoTo(b)
    decreases b
  {
    if a < b {
      TwoToMono(a, b - 1);
    }
  }

  // ---- runs ----

  /** A lease as its owner remembers it, until it completes or retries the item itself. */
  datatype Lease = Lease(id: Id, owner: Owner, until: int)
  datatype World = World(items: Items, now: int, leases: set<Lease>)

  datatype Event =
    | EvTick(ms: nat)
    | EvEnsure(seen: Option<Item>, id: Id, source: nat, priority: int, at: int)
    | EvLease(owner: Owner, batch: set<Id>, leaseMs: int, at: int)
    | EvComplete(id: Id, owner: Owner)
    | EvRetry(id: Id, owner: Owner, attempts: nat, terminal: bool, at: int)

  function Forget(leases: set<Lease>, id: Id, owner: Owner): set<Lease> {
    set l | l in leases && !(l.id == id && l.owner == owner)
  }

  /** The lease event takes any set of items that are due by its reading of the clock, so in
      particular the top of the order. The reading may be of any age, and so may what an
      ensure or a retry has read of the row: a lease may have run out when it is written. */
  function Step(w: World, e: Event): World {
    match e
    case EvTick(ms) => w.(now := w.now + ms)
    case EvEnsure(seen, id, source, priority, at) => w.(items := Ensure(w.items, seen, id, source, priority, at).items)
    case EvLease(owner, batch, leaseMs, at) =>
      if at <= w.now && batch <= DueItems(w.items, at)
      then w.(items := LeaseItems(w.items, batch, owner, at + ClampLease(leaseMs)),
              leases := w.leases + set id | id in batch :: Lease(id, owner, at + ClampLease(leaseMs)))
      else w
    case EvComplete(id, owner) =>
      (match Complete(w.items, id, owner)
       case Some(items) => w.(items := items, leases := Forget(w.leases, id, owner)) case None => w)
    case EvRetry(id, owner, attempts, terminal, at) =>
      (match Retry(w.items, id, owner, attempts, terminal, at)
       case Some(items) => w.(items := items, leases := Forget(w.leases, id, owner)) case None => w)
  }

  function Run(w: World, es: seq<Event>): World {
    if es == [] then w else Step(Run(w, es[..|es| - 1]), es[|es| - 1])
  }

  predicate Initial(w: World) {
    w.items == map[] && w.leases == {}
  }

  /** A lease is written on a reading of the clock of any age, and on any items due by it. */
  lemma LeaseApplies(w: World, owner: Owner, batch: set<Id>, leaseMs: int, at: int)
    requires at <= w.now && forall id <- batch :: id in w.items && IsDue(w.items[id], at)
    ensures var t := Step(w, EvLease(owner, batch, leaseMs, at));
            && t.items == LeaseItems(w.items, batch, owner, at + ClampLease(leaseMs))
            && forall id <- batch :: Lease(id, owner, at + ClampLease(leaseMs)) in t.leases
  {
    assert batch <= DueItems(w.items, at);
  }

  /** A remembered lease that has not expired is the stored one. */
  predicate LeasesStored(w: World) {
    forall l <- w.leases :: l.until > w.now ==> OwnedBy(w.items, l.id, l.owner) && w.items[l.id].leasedUntil >= l.until
  }

  lemma StepKeepsLeases(w: World, e: Event)
    requires LeasesStored(w)
    ensures LeasesStored(Step(w, e)) && w.now <= Step(w, e).now
  {
    var t := Step(w, e);
    forall l <- t.leases | l.until > t.now
      ensures OwnedBy(t.items, l.id, l.owner) && t.items[l.id].leasedUntil >= l.until
    {
      if l in w.leases {
        assert OwnedBy(w.items, l.id, l.owner) && w.items[l.id].leasedUntil >= l.until;
      }
    }
  }

  lemma {:induction false} RunKeepsLeases(w: World, es: seq<Event>)
    requires LeasesStored(w)
    ensures LeasesStored(Run(w, es))
  {
    if es != [] {
      RunKeepsLeases(w, es[..|es| - 1]);
      StepKeepsLeases(Run(w, es[..|es| - 1]), es[|es| - 1]);
    }
  }

  /** In every reachable state two owners never both hold an unexpired lease of one item. */
  lemma NoTwoOwners(w: World, es: seq<Event>, a: Lease, b: Lease)
    requires Initial(w)
    requires var t := Run(w, es); a in t.leases && b in t.leases && a.id == b.id && a.until > t.now && b.until > t.now
    ensures a.owner == b.owner
  {
    RunKeepsLeases(w, es);
  }

  predicate LeasesTo(e: Event, id: Id, owner: Owner) {
    e.EvLease? && e.owner == owner && id in e.batch
  }

  /** An owner whose item is not (or no longer) leased to it can neither complete nor retry
      it, in any later run in which it does not lease it again. */
  lemma {:induction false} StaleOwnerIsPowerless(w: World, es: seq<Event>, id: Id, owner: Owner)
    requires !OwnedBy(w.items, id, owner) && forall i :: 0 <= i < |es| ==> !LeasesTo(es[i], id, owner)
    ensures var t := Run(w, es);
            !OwnedBy(t.items, id, owner) && Complete(t.items, id, owner).None?
            && forall attempts, terminal, at :: Retry(t.items, id, owner, attempts, terminal, at).None?
  {
    if es != [] {
      StaleOwnerIsPowerless(w, es[..|es| - 1], id, owner);
    }
  }

  /** COMPLETED and FAILED_CLOSED are absorbing, also under later ensures. */
  lemma {:induction false} TerminalIsAbsorbing(w: World, es: seq<Event>, id: Id)
    requires id in w.items && Terminal(w.items[id].status)
    ensures id in Run(w, es).items && Run(w, es).items[id].status == w.items[id].status
  {
    if es != [] {
      TerminalIsAbsorbing(w, es[..|es| - 1], id);
      var e := es[|es| - 1];
      if e.EvLease? {
        assert id !in DueItems(Run(w, es[..|es| - 1]).items, e.at);
      }
    }
  }

  // ---- the queue as it is updated in place ----

  class Queue {
    var items: Items

    constructor ()
      ensures items == map[]
    {
      items := map[];
    }

    /** `seen` is the row as it was read before the write. */
    method EnsureWork(seen: Option<Item>, id: Id, source: nat, priority: int, at: int) returns (ok: bool)
      modifies this
      ensures Ensured(items, ok) == Ensure(old(items), seen, id, source, priority, at)
      ensures forall other <- old(items) :: other in items && items[other].source == old(items)[other].source
                                            && items[other].status == old(items)[other].status
    {
      if seen.Some? {
        if seen.value.source != source { return false; }
        var raises := priority > seen.value.priority || (Waiting(seen.value.status) && at < seen.value.availableAt);
        if !raises { return true; }
      }
      if id !in items {
        items := items[id := Item(source, PENDING, priority, at, None, 0, 0)];
      } else {
        var item := items[id];
        items := items[id := item.(priority := Max(item.priority, priority),
                                   availableAt := if Waiting(item.status) then Min(item.availableAt, at) else item.availableAt)];
      }
      return items[id].source == source;
    }

    /** `seenDue` is whether a due item was found before the write. */
    method LeaseWork(seenDue: bool, owner: Owner, limit: int, leaseMs: int, at: int) returns (batch: set<Id>)
      modifies this
      ensures if seenDue then IsTop(old(items), at, ClampLimit(limit), batch) else batch == {}
      ensures seenDue ==> MostUrgent(old(items), at, batch)
      ensures items.Keys == old(items).Keys
      ensures forall id <- items ::
                items[id] == if id in batch then old(items)[id].(status := LEASED, owner := Some(owner), leasedUntil := at + ClampLease(leaseMs),
                                                                 attempts := old(items)[id].attempts + 1)
                             else old(items)[id]
      ensures items == LeaseItems(old(items), batch, owner, at + ClampLease(leaseMs))
    {
      batch := {};
      if seenDue {
        batch := TopDue(items, at, ClampLimit(limit));
        TopIsUrgent(items, at, ClampLimit(limit), batch);
      }
      items := LeaseItems(items, batch, owner, at + ClampLease(leaseMs));
    }

    /** `seen` is the attempts of the item as they were read before the write, None when it
        was not leased to this owner then. */
    method RetryWork(seen: Option<nat>, id: Id, owner: Owner, terminal: bool, at: int) returns (ok: bool)
      modifies this
      ensures ok <==> seen.Some? && OwnedBy(old(items), id, owner)
      ensures !ok ==> items == old(items)
      ensures ok ==> items.Keys == old(items).Keys && forall other <- items :: other != id ==> items[other] == old(items)[other]
      ensures ok ==> items[id].owner.None? && at + 1000 <= items[id].availableAt <= at + 256000
                     && items[id].status == (if terminal then FAILED_CLOSED else RETRYABLE)
      ensures ok ==> Some(items) == Retry(old(items), id, owner, seen.value, terminal, at)
    {
      if seen.None? || id !in items || !items[id].status.LEASED? || items[id].owner != Some(owner) { return false; }
      var delay := RetryDelay(seen.value);
      RetryDelayBounds(seen.value);
      items := items[id := items[id].(status := if terminal then FAILED_CLOSED else RETRYABLE, owner := None, availableAt := at + delay)];
      return true;
    }
  }

  // ---- RPC read lanes ----

  type Lane = nat
  datatype LaneRow = LaneRow(owner: Owner, until: int)
  datatype Lanes = Lanes(rows: map<Lane, LaneRow>, now: int, held: set<(Lane, Owner, int)>)

  /** `acquireRpcReadLease`: refused exactly while another owner's lease is unexpired by the
      reading of the clock. */
  function Acquire(rows: map<Lane, LaneRow>, lane: Lane, owner: Owner, leaseMs: nat, at: int): Option<map<Lane, LaneRow>> {
    if lane in rows && rows[lane].until > at && rows[lane].owner != owner then None
    else Some(rows[lane := LaneRow(owner, at + leaseMs)])
  }

  function Release(rows: map<Lane, LaneRow>, lane: Lane, owner: Owner, at: int): Option<map<Lane, LaneRow>> {
    if lane in rows && rows[lane].owner == owner then Some(rows[lane := LaneRow(owner, at)]) else None
  }

  datatype LaneEvent =
    | LaneTick(ms: nat)
    | LaneAcquire(lane: Lane, owner: Owner, leaseMs: nat, at: int)
    | LaneRelease(lane: Lane, owner: Owner, at: int)

  /** An owner remembers its newest lease of a lane until it releases it. */
  function DropLane(held: set<(Lane, Owner, int)>, lane: Lane, owner: Owner): set<(Lane, Owner, int)> {
    set h | h in held && !(h.0 == lane && h.1 == owner)
  }

  function LaneStep(s: Lanes, e: LaneEvent): Lanes {
    match e
    case LaneTick(ms) => s.(now := s.now + ms)
    case LaneAcquire(lane, owner, leaseMs, at) =>
      (match if at <= s.now then Acquire(s.rows, lane, owner, leaseMs, at) else None
       case Some(rows) => Lanes(rows, s.now, DropLane(s.held, lane, owner) + {(lane, owner, at + leaseMs)})
       case None => s)
    case LaneRelease(lane, owner, at) =>
      (match Release(s.rows, lane, owner, at)
       case Some(rows) => Lanes(rows, s.now, DropLane(s.held, lane, owner))
       case None => s)
  }

  function LaneRun(s: Lanes, es: seq<LaneEvent>): Lanes {
    if es == [] then s else LaneStep(LaneRun(s, es[..|es| - 1]), es[|es| - 1])
  }

  predicate HeldStored(s: Lanes) {
    forall h <- s.held :: h.2 > s.now ==> h.0 in s.rows && s.rows[h.0] == LaneRow(h.1, h.2)
  }

  lemma {:induction false} LaneRunKeeps(s: Lanes, es: seq<LaneEvent>)
    requires HeldStored(s)
    ensures HeldStored(LaneRun(s, es))
  {
    if es != [] {
      LaneRunKeeps(s, es[..|es| - 1]);
    }
  }

  /** A lane is never held by two different owners with unexpired leases. */
  lemma NoTwoLaneOwners(es: seq<LaneEvent>, now: int, a: (Lane, Owner, int), b: (Lane, Owner, int))
    requires var t := LaneRun(Lanes(map[], now, {}), es);
             a in t.held && b in t.held && a.0 == b.0 && a.2 > t.now && b.2 > t.now
    ensures a == b
  {
    LaneRunKeeps(Lanes(map[], now, {}), es);
  }

  /** When a lane is granted and when it can be given back, and what is stored then. */
  lemma LaneRecords(rows: map<Lane, LaneRow>, lane: Lane, owner: Owner, leaseMs: nat, at: int)
    ensures var a := Acquire(rows, lane, owner, leaseMs, at); var r := Release(rows, lane, owner, at);
            && (a.None? <==> lane in rows && rows[lane].owner != owner && rows[lane].until > at)
            && (r.None? <==> lane !in rows || rows[lane].owner != owner)
            && (a.Some? ==> lane in a.value && a.value[lane] == LaneRow(owner, at + leaseMs))
            && (r.Some? ==> lane in r.value && r.value[lane] == LaneRow(owner, at))
            && (forall other <- rows :: other != lane ==>
                  (a.Some? ==> other in a.value && a.value[other] == rows[other]) && (r.Some? ==> other in r.value && r.value[other] == rows[other]))
  {
  }

}
