/** The durable broadcast boundary as a step machine: any number of callers of `submit`, each
    interrupted anywhere, over one journal, one nonce mutex and one chain. */
module Broadcast {
  import opened Prelude
  import opened Evidence
  import opened Journal

  type Caller = nat

  /** The prepared transaction a caller loads from the journal. */
  datatype Prepared = Prepared(attempt: nat, tx: Tx)

  /** Where a call stands. `attempt` is the attempt `submit` computed on entry. */
  datatype Pc =
    | Entered(key: Key)
    | AttemptRead(key: Key, attempt: nat)
    | JournalLoaded(key: Key, attempt: nat, loaded: Option<Prepared>)
    | LeaseHeld(key: Key, attempt: nat, loaded: Option<Prepared>)
    | Signed(key: Key, attempt: nat, tx: Tx)
    | Committed(key: Key, attempt: nat, tx: Tx)
    | Sent(key: Key, attempt: nat, tx: Tx, accepted: bool)
    | Waiting(key: Key, attempt: nat, prepared: Prepared)

  /** One raw transaction handed to the provider. */
  datatype Send = Send(caller: Caller, key: Key, attempt: nat, tx: Tx)

  /** `mutex` holds the expiry of the wallet's nonce lease. `sends`, `signers`, `recovering`
      and `seen` only record what happened; `strict` is the insert-once journal contract. */
  datatype World = World(
    strict: bool, journal: Journal, mutex: Option<int>, now: int, callers: map<Caller, Pc>,
    sends: seq<Send>, signers: set<Caller>, recovering: set<Caller>, seen: set<Caller>, chain: Chain)

  const NONCE_MUTEX_TTL_MS := 300 * 1000

  /** Leaving without touching the mutex: before it was taken, after it was released, or by
      a crash. */
  function Leave(w: World, c: Caller): World {
    w.(callers := w.callers - {c})
  }

  function Goto(w: World, c: Caller, pc: Pc): World {
    w.(callers := w.callers[c := pc])
  }

  predicate Holding(pc: Pc) {
    pc.LeaseHeld? || pc.Signed? || pc.Committed? || pc.Sent?
  }

  /** The `finally` of the boundary: it deletes the lease of the wallet, whoever took it. */
  function Release(w: World): World {
    w.(mutex := None)
  }

  function Exit(w: World, c: Caller): World {
    Release(Leave(w, c))
  }

  // ---- the steps of one call ----

  function Enter(w: World, c: Caller, key: Key): World {
    if c in w.seen then w else Goto(w.(seen := w.seen + {c}), c, Entered(key))
  }

  /** A confirmed stage returns its receipt; a failed one starts the next attempt. */
  function ReadAttempt(w: World, c: Caller, key: Key): World {
    var rows := Rows(w.journal, key);
    if rows == [] then Goto(w, c, AttemptRead(key, 0))
    else if rows[|rows| - 1].status.CONFIRMED? then Leave(w, c)
    else Goto(w, c, AttemptRead(key, if rows[|rows| - 1].status.FAILED? then |rows| else |rows| - 1))
  }

  function Load(w: World, c: Caller, key: Key, attempt: nat): World {
    var rows := Rows(w.journal, key);
    if rows != [] && Unresolved(rows[|rows| - 1]) then
      Goto(w.(recovering := w.recovering + {c}), c, JournalLoaded(key, attempt, Some(Prepared(|rows| - 1, rows[|rows| - 1].tx))))
    else Goto(w, c, JournalLoaded(key, attempt, None))
  }

  function Acquire(w: World, c: Caller, key: Key, attempt: nat, loaded: Option<Prepared>): World {
    if w.mutex.None? || w.mutex.value < w.now then
      Goto(w.(mutex := Some(w.now + NONCE_MUTEX_TTL_MS)), c, LeaseHeld(key, attempt, loaded))
    else Leave(w, c)
  }

  function Sign(w: World, c: Caller, key: Key, attempt: nat, tx: Tx): World {
    Goto(w.(signers := w.signers + {c}), c, Signed(key, attempt, tx))
  }

  function Persist(w: World, c: Caller, key: Key, attempt: nat, tx: Tx): World {
    match PersistPrepared(w.strict, w.journal, key, attempt, tx)
    case Some(j) => Goto(w.(journal := j), c, Committed(key, attempt, tx))
    case None => Exit(w, c)
  }

  function SendRaw(w: World, c: Caller, key: Key, attempt: nat, tx: Tx, accepted: bool): World {
    Goto(w.(sends := w.sends + [Send(c, key, attempt, tx)]), c, Sent(key, attempt, tx, accepted))
  }

  /** The journal writes of `classify`, and whether it returns (or throws). `own` is the
      attempt the client's markSubmitted moves. */
  function Classify(j: Journal, key: Key, own: nat, p: Prepared, e: Evidence, accepted: bool): (Journal, bool) {
    if e.RECEIPT? then
      match Settle(j, key, p.attempt, p.tx, if e.receipt.success then CONFIRMED else FAILED)
      case None => (j, false)
      case Some(k) =>
        if !e.receipt.success then (k, true)
        else match Advance(k, key, own, PREPARED, SUBMITTED)
             case None => (k, false)
             case Some(l) => (l, true)
    else if e.PENDING? || accepted then
      match Advance(j, key, own, PREPARED, SUBMITTED)
      case None => (j, false)
      case Some(k) => (k, accepted)
    else if e.ABSENT? && (e.latest > p.tx.nonce || e.pending > p.tx.nonce) then
      match Settle(j, key, p.attempt, p.tx, FAILED)
      case None => (j, false)
      case Some(k) => (k, false)
    else (j, false)
  }

  function Conclude(w: World, c: Caller, key: Key, own: nat, p: Prepared, e: Evidence, accepted: bool): World {
    var (j, returned) := Classify(w.journal, key, own, p, e, accepted);
    var w1 := Release(w.(journal := j));
    if returned then Goto(w1, c, Waiting(key, own, p)) else Leave(w1, c)
  }

  // ---- events ----

  datatype Event =
    | EvEnter(c: Caller, key: Key)
    | EvStep(c: Caller)
    | EvSign(c: Caller, tx: Tx)
    | EvSend(c: Caller, accepted: bool)
    | EvClassify(c: Caller, e: Evidence)
    | EvThrow(c: Caller)
    | EvCrash(c: Caller)
    | EvReverted(c: Caller, receipt: Receipt)
    | EvLanded(c: Caller, receipt: Receipt)
    | EvConfirmed(c: Caller, receipt: Receipt)
    | EvReconcile(key: Key, attempt: nat, tx: Tx, e: Evidence)
    | EvTick(ms: nat)
    | EvMine(receipt: Receipt)
    | EvPool(pool: set<Tx>)

  /** The steps a caller takes by itself: read, load, lease, persist. */
  function OwnStep(w: World, c: Caller): World {
    if c !in w.callers then w
    else match w.callers[c]
         case Entered(key) => ReadAttempt(w, c, key)
         case AttemptRead(key, attempt) => Load(w, c, key, attempt)
         case JournalLoaded(key, attempt, loaded) => Acquire(w, c, key, attempt, loaded)
         case Signed(key, attempt, tx) => Persist(w, c, key, attempt, tx)
         case _ => w
  }

  function ClassifyStep(w: World, c: Caller, e: Evidence): World {
    if c !in w.callers then w
    else match w.callers[c]
         case Sent(key, attempt, tx, accepted) => Conclude(w, c, key, attempt, Prepared(attempt, tx), e, accepted)
         case LeaseHeld(key, attempt, Some(p)) => Conclude(w, c, key, attempt, p, e, false)
         case _ => w
  }

  /** `submit` after the boundary returned, with the receipt of the transaction it waits for. */
  predicate WaitsFor(w: World, c: Caller, receipt: Receipt) {
    c in w.callers && w.callers[c].Waiting? && w.callers[c].prepared.tx == receipt.tx
  }

  function RevertedStep(w: World, c: Caller, receipt: Receipt): World {
    if !WaitsFor(w, c, receipt) || receipt.success then w
    else Leave(w.(journal := FailNewest(w.journal, w.callers[c].key)), c)
  }

  function AdvanceStep(w: World, c: Caller, receipt: Receipt, from: Status, to: Status): World {
    if !WaitsFor(w, c, receipt) || !receipt.success then w
    else match Advance(w.journal, w.callers[c].key, w.callers[c].attempt, from, to)
         case None => Leave(w, c)
         case Some(j) => w.(journal := j)
  }

  /** One row of `reconcileDurableV4Journals`: never a send, and a failure only when the
      latest count is past the nonce. */
  function ReconcileStep(w: World, key: Key, attempt: nat, tx: Tx, e: Evidence): World {
    var verdict := if e.RECEIPT? then Some(if e.receipt.success then CONFIRMED else FAILED)
                   else if e.ABSENT? && e.latest > tx.nonce then Some(FAILED)
                   else None;
    if verdict.None? then w
    else match Settle(w.journal, key, attempt, tx, verdict.value)
         case None => w
         case Some(j) => w.(journal := j)
  }

  function Step(w: World, ev: Event): World {
    match ev
    case EvEnter(c, key) => Enter(w, c, key)
    case EvStep(c) => OwnStep(w, c)
    case EvSign(c, tx) =>
      if c in w.callers && w.callers[c].LeaseHeld? && w.callers[c].loaded.None?
      then Sign(w, c, w.callers[c].key, w.callers[c].attempt, tx) else w
    case EvSend(c, accepted) =>
      if c in w.callers && w.callers[c].Committed?
      then SendRaw(w, c, w.callers[c].key, w.callers[c].attempt, w.callers[c].tx, accepted) else w
    case EvClassify(c, e) => ClassifyStep(w, c, e)
    case EvThrow(c) => if c in w.callers && Holding(w.callers[c]) then Exit(w, c) else w
    case EvCrash(c) => Leave(w, c)
    case EvReverted(c, receipt) => RevertedStep(w, c, receipt)
    case EvLanded(c, receipt) => AdvanceStep(w, c, receipt, PREPARED, SUBMITTED)
    case EvConfirmed(c, receipt) => AdvanceStep(w, c, receipt, SUBMITTED, CONFIRMED)
    case EvReconcile(key, attempt, tx, e) => ReconcileStep(w, key, attempt, tx, e)
    case EvTick(ms) => w.(now := w.now + ms)
    case EvMine(receipt) =>
      if receipt.tx.nonce == |w.chain.mined| && ValidReceipt(receipt, receipt.tx)
      then w.(chain := Chain(w.chain.mined + [receipt], set t <- w.chain.pool | t.nonce > receipt.tx.nonce))
      else w
    case EvPool(pool) =>
      if forall t <- pool :: t.nonce >= |w.chain.mined| then w.(chain := w.chain.(pool := pool)) else w
  }

  function Run(w: World, es: seq<Event>): World {
    if es == [] then w else Step(Run(w, es[..|es| - 1]), es[|es| - 1])
  }

  predicate Initial(w: World) {
    w.journal == map[] && w.mutex.None? && w.callers == map[] && w.sends == []
    && w.signers == {} && w.recovering == {} && w.seen == {} && w.chain == Chain([], {})
  }
}
