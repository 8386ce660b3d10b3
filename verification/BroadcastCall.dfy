/** One uninterrupted call of `broadcastDurableTransaction`, as it updates the journal, the
    nonce mutex and the provider; it is a run of the step machine, so the results about all
    runs hold of it. */
module BroadcastCall {
  import opened Prelude
  import opened Evidence
  import opened Journal
  import opened Broadcast
  import opened BroadcastRuns
  import opened Misleads

  datatype Result =
    | MUTEX_HELD
    | THREW
    | RECONCILIATION_PENDING
    | RETURNED(recovered: bool)

  /** How the boundary answers once the evidence is in: it returns, throws that reconciliation
      is pending, or throws for good (a refused journal write, or an unavailable nonce). */
  function AnswerOf(j: Journal, key: Key, own: nat, p: Prepared, e: Evidence, accepted: bool, recovered: bool): Result {
    if Classify(j, key, own, p, e, accepted).1 then RETURNED(recovered)
    else if e.RECEIPT? then THREW
    else if e.PENDING? || accepted then
      if Advance(j, key, own, PREPARED, SUBMITTED).None? then THREW else RECONCILIATION_PENDING
    else if Decisive(e, p.tx.nonce) then THREW
    else RECONCILIATION_PENDING
  }

  /** The call asks for reconciliation exactly when the evidence leaves its transaction open:
      pending, or not decisive. */
  lemma PendingMeansOpen(j: Journal, key: Key, own: nat, p: Prepared, e: Evidence, accepted: bool, recovered: bool)
    ensures AnswerOf(j, key, own, p, e, accepted, recovered).RECONCILIATION_PENDING? <==>
              !accepted && (if e.PENDING? then Advance(j, key, own, PREPARED, SUBMITTED).Some? else !Decisive(e, p.tx.nonce))
  {
  }

  // ---- what a call answers, and what it records ----

  /** The transaction is absent and one of the two counts has passed its nonce. */
  predicate NoncePassed(e: Evidence, tx: Tx) {
    e.ABSENT? && (e.latest > tx.nonce || e.pending > tx.nonce)
  }

  predicate IsNewest(j: Journal, key: Key, p: Prepared) {
    Has(j, key, p.attempt, p.tx) && p.attempt == |Rows(j, key)| - 1
  }

  /** The row of the call after it: a receipt and a passed nonce end an open row, a pending or
      accepted transaction is no longer merely prepared, and anything else leaves it. */
  predicate RowFollows(row: Row, now: Row, e: Evidence, accepted: bool) {
    && now.tx == row.tx
    && (!Unresolved(row) ==> now == row)
    && (Unresolved(row) && e.RECEIPT? ==> now.status == if e.receipt.success then CONFIRMED else FAILED)
    && (Unresolved(row) && (e.PENDING? || (accepted && !e.RECEIPT?)) ==> now.status.SUBMITTED?)
    && (Unresolved(row) && !accepted && NoncePassed(e, row.tx) ==> now.status.FAILED?)
    && (!accepted && !e.RECEIPT? && !e.PENDING? && !NoncePassed(e, row.tx) ==> now == row)
  }

  /** The call returns on a receipt of its transaction and when the provider accepted it; it
      throws for good when the nonce is gone; otherwise it asks for reconciliation. */
  predicate AnswersRight(e: Evidence, tx: Tx, accepted: bool, recovered: bool, r: Result) {
    && (r.RETURNED? <==> e.RECEIPT? || accepted)
    && (r.RETURNED? ==> r.recovered == recovered)
    && (r.THREW? <==> !accepted && NoncePassed(e, tx))
    && !r.MUTEX_HELD?
  }

  lemma AnswerIsRight(j: Journal, key: Key, p: Prepared, e: Evidence, accepted: bool, recovered: bool)
    requires IsNewest(j, key, p)
    ensures AnswersRight(e, p.tx, accepted, recovered, AnswerOf(j, key, p.attempt, p, e, accepted, recovered))
    ensures var k := Classify(j, key, p.attempt, p, e, accepted).0;
            SameBut(j, k, key, p.attempt) && RowFollows(Rows(j, key)[p.attempt], Rows(k, key)[p.attempt], e, accepted)
  {
    AdvanceRecords(j, key, p.attempt, PREPARED, SUBMITTED);
    SettleRecords(j, key, p.attempt, p.tx, FAILED);
    if e.RECEIPT? {
      var verdict := if e.receipt.success then CONFIRMED else FAILED;
      SettleRecords(j, key, p.attempt, p.tx, verdict);
      var k := Settle(j, key, p.attempt, p.tx, verdict).value;
      AdvanceRecords(k, key, p.attempt, PREPARED, SUBMITTED);
    }
  }

  /** The newest row of the stage is still PREPARED, and so it stays, while the row of the
      caller's own attempt is not, or is the one just confirmed. */
  predicate Overtaken(j: Journal, key: Key, own: nat, p: Prepared, e: Evidence) {
    var rows := Rows(j, key);
    && rows != [] && rows[|rows| - 1].status.PREPARED?
    && !(own < |rows| && rows[own].status.PREPARED? && (e.RECEIPT? ==> own != p.attempt))
    && (e.RECEIPT? ==> e.receipt.success && p.attempt != |rows| - 1)
  }

  /** For any rows: with a receipt or an acceptance the call fails to return exactly when it
      was overtaken by a newer attempt. */
  lemma ReturnsIff(j: Journal, key: Key, own: nat, p: Prepared, e: Evidence, accepted: bool, recovered: bool)
    requires Has(j, key, p.attempt, p.tx)
    ensures AnswerOf(j, key, own, p, e, accepted, recovered).RETURNED? <==> (e.RECEIPT? || accepted) && !Overtaken(j, key, own, p, e)
  {
    AdvanceRecords(j, key, own, PREPARED, SUBMITTED);
    if e.RECEIPT? {
      var verdict := if e.receipt.success then CONFIRMED else FAILED;
      SettleRecords(j, key, p.attempt, p.tx, verdict);
      AdvanceRecords(Settle(j, key, p.attempt, p.tx, verdict).value, key, own, PREPARED, SUBMITTED);
    }
  }

  /** The newest row of the stage is open: a call has to recover its transaction. */
  predicate NewestOpen(j: Journal, key: Key) {
    var rows := Rows(j, key);
    rows != [] && (rows[|rows| - 1].status.PREPARED? || rows[|rows| - 1].status.SUBMITTED?)
  }

  function NewestRow(j: Journal, key: Key): Prepared
    requires Rows(j, key) != []
  {
    Prepared(|Rows(j, key)| - 1, Rows(j, key)[|Rows(j, key)| - 1].tx)
  }

  /** What a call loads before it takes the lease. */
  function LoadedOf(j: Journal, key: Key): (p: Option<Prepared>)
    ensures p.Some? <==> NewestOpen(j, key)
    ensures p.Some? ==> p.value == NewestRow(j, key)
  {
    var rows := Rows(j, key);
    if rows != [] && Unresolved(rows[|rows| - 1]) then Some(Prepared(|rows| - 1, rows[|rows| - 1].tx)) else None
  }

  /** A call that sent: its row was committed, and what follows is read off the evidence. */
  ghost predicate SentRight(committed: Journal, key: Key, p: Prepared, e: Evidence, accepted: bool, r: Result, j: Journal) {
    && IsNewest(committed, key, p) && SameBut(committed, j, key, p.attempt)
    && AnswersRight(e, p.tx, accepted, false, r)
    && RowFollows(Rows(committed, key)[p.attempt], Rows(j, key)[p.attempt], e, accepted)
  }

  /** A call without a loaded transaction throws, and leaves the rows, exactly when it has
      nothing to sign or its insert is refused. */
  ghost predicate SigningRight(strict: bool, j: Journal, key: Key, attempt: nat, request: Option<Tx>, rounds: seq<seq<Evidence>>,
                               accepted: bool, r: Result, k: Journal)
    requires rounds != [] && forall n :: 0 <= n < |rounds| ==> rounds[n] != []
  {
    if request.None? || PersistPrepared(strict, j, key, attempt, request.value).None? then r.THREW? && k == j
    else
      attempt + 1 >= |Rows(j, key)| ==>
        SentRight(PersistPrepared(strict, j, key, attempt, request.value).value, key, Prepared(attempt, request.value),
                  Deciding(rounds, request.value.nonce), accepted, r, k)
  }

  /** A call with a loaded transaction `p`, the newest open row: it returns exactly on the
      receipt of `p`, and when `p` is its own attempt the row follows the evidence. */
  ghost predicate RecoveryRight(j: Journal, key: Key, attempt: nat, p: Prepared, valid: bool, e: Evidence, r: Result, k: Journal) {
    if !valid then r.THREW? && k == j
    else
      && (r.RETURNED? <==> e.RECEIPT?)
      && (r.RETURNED? ==> r.recovered)
      && (p.attempt == attempt ==>
            && IsNewest(j, key, p) && SameBut(j, k, key, attempt) && AnswersRight(e, p.tx, false, true, r)
            && RowFollows(Rows(j, key)[attempt], Rows(k, key)[attempt], e, false))
  }

  /** An accepted insert holds the transaction, newest unless a later attempt was there. */
  lemma CommittedIsNewest(strict: bool, j: Journal, key: Key, attempt: nat, tx: Tx)
    requires PersistPrepared(strict, j, key, attempt, tx).Some? && attempt + 1 >= |Rows(j, key)|
    ensures IsNewest(PersistPrepared(strict, j, key, attempt, tx).value, key, Prepared(attempt, tx))
  {
  }

  class Boundary {
    const strict: bool
    var journal: Journal
    var mutex: Option<int>
    var now: int
    var sends: seq<Send>
    ghost var world: World

    ghost predicate Valid()
      reads this
    {
      world.strict == strict && world.journal == journal && world.mutex == mutex && world.now == now && world.sends == sends
    }

    constructor (strict: bool, now: int)
      ensures Valid() && Initial(world) && world.strict == strict && world.now == now
    {
      this.strict, this.now := strict, now;
      journal, mutex, sends := map[], None, [];
      world := World(strict, map[], None, now, map[], [], {}, {}, {}, Chain([], {}));
    }

    /** `valid` says that a loaded transaction has the identity of this call; `request` is the
        transaction the call would sign, None when a provider, a hook or the signer throws
        first; `accepted` is the provider's answer to the send; `rounds` are the observations
        of the bounded probe. */
    method BroadcastDurable(c: Caller, key: Key, attempt: nat, valid: bool, request: Option<Tx>, accepted: bool, rounds: seq<seq<Evidence>>)
      returns (r: Result, ghost trace: seq<Event>)
      requires Valid() && c in world.callers && world.callers[c] == AttemptRead(key, attempt)
      requires |rounds| == PROBE_ROUNDS && forall k :: 0 <= k < |rounds| ==> rounds[k] != []
      modifies this
      ensures Valid() && world == Run(old(world), trace)
      ensures r.MUTEX_HELD? <==> old(mutex.Some? && mutex.value >= now)
      ensures r.MUTEX_HELD? ==> mutex == old(mutex) && journal == old(journal) && sends == old(sends)
      ensures !r.MUTEX_HELD? ==> mutex.None?
      ensures r.RETURNED? <==> c in world.callers && world.callers[c].Waiting?
      ensures sends == if !r.MUTEX_HELD? && !NewestOpen(old(journal), key) && request.Some?
                          && PersistPrepared(strict, old(journal), key, attempt, request.value).Some?
                       then old(sends) + [Send(c, key, attempt, request.value)] else old(sends)
      ensures !r.MUTEX_HELD? ==>
                if NewestOpen(old(journal), key) then
                  var p := NewestRow(old(journal), key);
                  RecoveryRight(old(journal), key, attempt, p, valid, Deciding(rounds, p.tx.nonce), r, journal)
                else SigningRight(strict, old(journal), key, attempt, request, rounds, accepted, r, journal)
    {
      ghost var start := world;
      var loaded := LoadedOf(journal, key);
      var taken;
      taken, trace := TakeLease(c, key, attempt);
      if !taken { return MUTEX_HELD, trace; }
      ghost var more;
      if loaded.Some? {
        ghost var ev;
        r, ev := Recover(c, key, attempt, loaded.value, valid, rounds);
        more := [ev];
      } else {
        r, more := SignAndSend(c, key, attempt, request, accepted, rounds);
      }
      trace := Extend(start, trace, more, world);
    }

    /** The journal is read before the lease is taken. */
    method TakeLease(c: Caller, key: Key, attempt: nat) returns (taken: bool, ghost trace: seq<Event>)
      requires Valid() && c in world.callers && world.callers[c] == AttemptRead(key, attempt)
      modifies this`mutex, this`world
      ensures Valid() && world == Run(old(world), trace)
      ensures taken <==> !old(mutex.Some? && mutex.value >= now)
      ensures !taken ==> mutex == old(mutex) && c !in world.callers
      ensures taken ==> mutex == Some(now + 300_000) && c in world.callers && world.callers[c] == LeaseHeld(key, attempt, LoadedOf(old(journal), key))
    {
      var loaded := LoadedOf(journal, key);
      trace := [EvStep(c), EvStep(c)];
      RunTwo(world, EvStep(c), EvStep(c));
      taken := mutex.None? || mutex.value < now;
      LoadThenAcquire(world, c, key, attempt, loaded);
      if taken { mutex := Some(now + NONCE_MUTEX_TTL_MS); }
      world := Step(Step(world, EvStep(c)), EvStep(c));
    }

    /** A loaded transaction is only probed and classified. */
    method Recover(c: Caller, key: Key, attempt: nat, p: Prepared, valid: bool, rounds: seq<seq<Evidence>>) returns (r: Result, ghost ev: Event)
      requires Valid() && c in world.callers && world.callers[c] == LeaseHeld(key, attempt, Some(p))
      requires |rounds| == PROBE_ROUNDS && forall k :: 0 <= k < |rounds| ==> rounds[k] != []
      modifies this
      ensures Valid() && world == Run(old(world), [ev]) && mutex.None? && sends == old(sends) && !r.MUTEX_HELD?
      ensures r.RETURNED? <==> c in world.callers && world.callers[c].Waiting?
      ensures r.RETURNED? ==> r.recovered
      ensures !valid ==> r.THREW? && journal == old(journal)
      ensures valid ==> ev == EvClassify(c, Deciding(rounds, p.tx.nonce))
                        && r == AnswerOf(old(journal), key, attempt, p, Deciding(rounds, p.tx.nonce), false, true)
      ensures IsNewest(old(journal), key, p) && Unresolved(Rows(old(journal), key)[p.attempt]) ==>
                RecoveryRight(old(journal), key, attempt, p, valid, Deciding(rounds, p.tx.nonce), r, journal)
    {
      if !valid {
        mutex, ev, r := None, EvThrow(c), THREW;
        RunOne(world, ev);
        world := Exit(world, c);
        return;
      }
      var evidence, _ := BoundedProbe(rounds, p.tx.nonce);
      r := AnswerOf(journal, key, attempt, p, evidence, false, true);
      if IsNewest(journal, key, p) {
        ReturnsIff(journal, key, attempt, p, evidence, false, true);
        if p.attempt == attempt { AnswerIsRight(journal, key, p, evidence, false, true); }
      }
      journal, mutex := Classify(journal, key, attempt, p, evidence, false).0, None;
      ev := EvClassify(c, evidence);
      RunOne(world, ev);
      world := Conclude(world, c, key, attempt, p, evidence, false);
    }

    /** A new transaction is signed, committed and sent, in this order, then classified. */
    method SignAndSend(c: Caller, key: Key, attempt: nat, request: Option<Tx>, accepted: bool, rounds: seq<seq<Evidence>>)
      returns (r: Result, ghost trace: seq<Event>)
      requires Valid() && c in world.callers && world.callers[c] == LeaseHeld(key, attempt, None)
      requires |rounds| == PROBE_ROUNDS && forall k :: 0 <= k < |rounds| ==> rounds[k] != []
      modifies this
      ensures Valid() && world == Run(old(world), trace) && mutex.None? && !r.MUTEX_HELD?
      ensures r.RETURNED? <==> c in world.callers && world.callers[c].Waiting?
      ensures r.RETURNED? ==> !r.recovered
      ensures sends == if request.Some? && PersistPrepared(strict, old(journal), key, attempt, request.value).Some?
                       then old(sends) + [Send(c, key, attempt, request.value)] else old(sends)
      ensures SigningRight(strict, old(journal), key, attempt, request, rounds, accepted, r, journal)
    {
      ghost var start := world;
      var sent;
      sent, trace := CommitAndSend(c, key, attempt, request, accepted);
      if !sent { return THREW, trace; }
      if attempt + 1 >= |Rows(old(journal), key)| {
        CommittedIsNewest(strict, old(journal), key, attempt, request.value);
      }
      ghost var ev;
      r, ev := Conclusion(c, key, attempt, request.value, accepted, rounds);
      trace := Extend(start, trace, [ev], world);
    }

    method CommitAndSend(c: Caller, key: Key, attempt: nat, request: Option<Tx>, accepted: bool) returns (sent: bool, ghost trace: seq<Event>)
      requires Valid() && c in world.callers && world.callers[c] == LeaseHeld(key, attempt, None)
      modifies this
      ensures Valid() && world == Run(old(world), trace)
      ensures sent <==> request.Some? && PersistPrepared(strict, old(journal), key, attempt, request.value).Some?
      ensures sent ==> sends == old(sends) + [Send(c, key, attempt, request.value)]
                       && c in world.callers && world.callers[c] == Sent(key, attempt, request.value, accepted)
      ensures sent ==> journal == PersistPrepared(strict, old(journal), key, attempt, request.value).value
      ensures !sent ==> sends == old(sends) && mutex.None? && c !in world.callers && journal == old(journal)
    {
      ghost var start := world;
      sent := false;
      if request.None? {
        mutex := None;
        trace := Record(start, [], EvThrow(c));
        return;
      }
      var tx := request.value;
      trace := Record(start, [], EvSign(c, tx));
      sent, trace := CommitRequest(start, trace, c, key, attempt, tx);
      if !sent { return; }
      sends := sends + [Send(c, key, attempt, tx)];
      trace := Record(start, trace, EvSend(c, accepted));
    }

    method CommitRequest(ghost start: World, ghost trace: seq<Event>, c: Caller, key: Key, attempt: nat, tx: Tx)
      returns (committed: bool, ghost longer: seq<Event>)
      requires Valid() && c in world.callers && world.callers[c] == Signed(key, attempt, tx) && world == Run(start, trace)
      modifies this`journal, this`mutex, this`world
      ensures Valid() && world == Run(start, longer)
      ensures committed <==> PersistPrepared(strict, old(journal), key, attempt, tx).Some?
      ensures committed ==> c in world.callers && world.callers[c] == Committed(key, attempt, tx)
                            && journal == PersistPrepared(strict, old(journal), key, attempt, tx).value
      ensures !committed ==> mutex.None? && c !in world.callers && journal == old(journal)
    {
      var inserted := PersistPrepared(strict, journal, key, attempt, tx);
      committed := inserted.Some?;
      if committed {
        journal := inserted.value;
      } else {
        mutex := None;
      }
      longer := Record(start, trace, EvStep(c));
    }

    method Conclusion(c: Caller, key: Key, attempt: nat, tx: Tx, accepted: bool, rounds: seq<seq<Evidence>>)
      returns (r: Result, ghost ev: Event)
      requires Valid() && c in world.callers && world.callers[c] == Sent(key, attempt, tx, accepted)
      requires |rounds| == PROBE_ROUNDS && forall k :: 0 <= k < |rounds| ==> rounds[k] != []
      modifies this
      ensures Valid() && world == Run(old(world), [ev]) && mutex.None? && sends == old(sends) && !r.MUTEX_HELD?
      ensures r.RETURNED? <==> c in world.callers && world.callers[c].Waiting?
      ensures ev == EvClassify(c, Deciding(rounds, tx.nonce))
      ensures r == AnswerOf(old(journal), key, attempt, Prepared(attempt, tx), Deciding(rounds, tx.nonce), accepted, false)
      ensures IsNewest(old(journal), key, Prepared(attempt, tx)) ==>
                SentRight(old(journal), key, Prepared(attempt, tx), Deciding(rounds, tx.nonce), accepted, r, journal)
    {
      var evidence, _ := BoundedProbe(rounds, tx.nonce);
      r := AnswerOf(journal, key, attempt, Prepared(attempt, tx), evidence, accepted, false);
      if IsNewest(journal, key, Prepared(attempt, tx)) {
        AnswerIsRight(journal, key, Prepared(attempt, tx), evidence, accepted, false);
      }
      journal, mutex := Classify(journal, key, attempt, Prepared(attempt, tx), evidence, accepted).0, None;
      ev := EvClassify(c, evidence);
      RunOne(world, ev);
      world := Conclude(world, c, key, attempt, Prepared(attempt, tx), evidence, accepted);
    }

    /** Appends one event to the recorded run. */
    ghost method Record(start: World, trace: seq<Event>, ev: Event) returns (longer: seq<Event>)
      requires world == Run(start, trace)
      modifies this`world
      ensures world == Step(old(world), ev) && longer == trace + [ev] && world == Run(start, longer)
    {
      RunConcat(start, trace, [ev]);
      RunOne(world, ev);
      longer := trace + [ev];
      world := Step(world, ev);
    }
  }

  ghost method Extend(start: World, trace: seq<Event>, more: seq<Event>, end: World) returns (longer: seq<Event>)
    requires end == Run(Run(start, trace), more)
    ensures longer == trace + more && end == Run(start, longer)
  {
    RunConcat(start, trace, more);
    longer := trace + more;
  }

  lemma LoadThenAcquire(w: World, c: Caller, key: Key, attempt: nat, loaded: Option<Prepared>)
    requires c in w.callers && w.callers[c] == AttemptRead(key, attempt)
    requires loaded == LoadedOf(w.journal, key)
    ensures var t := Step(Step(w, EvStep(c)), EvStep(c)); var free := w.mutex.None? || w.mutex.value < w.now;
            t.strict == w.strict && t.journal == w.journal && t.now == w.now && t.sends == w.sends
            && t.mutex == (if free then Some(w.now + NONCE_MUTEX_TTL_MS) else w.mutex)
            && (if free then c in t.callers && t.callers[c] == LeaseHeld(key, attempt, loaded) else c !in t.callers)
  {
    var l := Step(w, EvStep(c));
    assert l == Goto(w.(recovering := l.recovering), c, JournalLoaded(key, attempt, loaded));
    assert Step(l, EvStep(c)) == Acquire(l, c, key, attempt, loaded);
  }
}
