/** Results about whole runs of the broadcast boundary. */
module BroadcastRuns {
  import opened Prelude
  import opened Evidence
  import opened Journal
  import opened Broadcast
  import opened BroadcastSafety

  // ---- journal before send ----

  /** In every reachable state each transaction that was ever sent is the one committed for
      its attempt, every earlier attempt of its stage has failed, and its sender never
      loaded a prepared transaction. */
  lemma SendsAreJournaled(w: World, es: seq<Event>, i: nat)
    requires Initial(w) && i < |Run(w, es).sends|
    ensures var t := Run(w, es); var s := t.sends[i];
            Has(t.journal, s.key, s.attempt, s.tx)
            && (forall k: nat :: k < s.attempt ==> Rows(t.journal, s.key)[k].status.FAILED?)
            && s.caller in t.signers && s.caller !in t.recovering
  {
    InitialInv(w);
    RunKeeps(w, es);
    assert SendOk(Run(w, es).journal, Run(w, es).sends[i]);
  }

  /** The row is committed before its transaction is sent. */
  lemma CommittedBeforeSend(w: World, ev: Event)
    requires Inv(w) && Step(w, ev).sends != w.sends
    ensures ev.EvSend? && |Step(w, ev).sends| == |w.sends| + 1
    ensures var s := Step(w, ev).sends[|w.sends|]; s.caller == ev.c && Has(w.journal, s.key, s.attempt, s.tx)
  {
    if ev.EvSend? {
      assert CallOk(w.journal, w.callers[ev.c]);
    }
  }

  /** Under the insert-once contract every attempt is sent at most once. */
  lemma SentAtMostOnce(w: World, es: seq<Event>, i: nat, k: nat)
    requires Initial(w) && w.strict && i < k < |Run(w, es).sends|
    ensures var t := Run(w, es); !(t.sends[i].key == t.sends[k].key && t.sends[i].attempt == t.sends[k].attempt)
  {
    InitialInv(w);
    RunKeeps(w, es);
    StrictStays(w, es);
    assert !SameAttempt(Run(w, es).sends[i], Run(w, es).sends[k].key, Run(w, es).sends[k].attempt);
  }

  lemma {:induction false} StrictStays(w: World, es: seq<Event>)
    ensures Run(w, es).strict == w.strict
  {
    if es != [] {
      StrictStays(w, es[..|es| - 1]);
      StepStaysStrict(Run(w, es[..|es| - 1]), es[|es| - 1]);
    }
  }

  lemma StepStaysStrict(w: World, ev: Event)
    ensures Step(w, ev).strict == w.strict
  {
    match ev
    case EvStep(_) =>
    case EvClassify(_, _) =>
    case _ =>
  }

  /** Whatever the journal accepts, two sends of one attempt are the same bytes. */
  lemma RepeatedSendsAreIdentical(w: World, es: seq<Event>, i: nat, k: nat)
    requires Initial(w) && i < |Run(w, es).sends| && k < |Run(w, es).sends|
    requires Run(w, es).sends[i].key == Run(w, es).sends[k].key && Run(w, es).sends[i].attempt == Run(w, es).sends[k].attempt
    ensures Run(w, es).sends[i].tx == Run(w, es).sends[k].tx
  {
    SendsAreJournaled(w, es, i);
    SendsAreJournaled(w, es, k);
  }

  // ---- the ledger against the insert-once contract ----

  /** A caller commits an attempt whose row is already there with the same bytes. */
  predicate RepeatsInsert(w: World, ev: Event) {
    ev.EvStep? && ev.c in w.callers && w.callers[ev.c].Signed?
    && Has(w.journal, w.callers[ev.c].key, w.callers[ev.c].attempt, w.callers[ev.c].tx)
  }

  /** The ledger behaves like the insert-once journal in every run without a repeated
      insert, so there too every attempt is sent at most once. */
  lemma {:induction false} LedgerIsStrictUntilRepeat(w: World, es: seq<Event>)
    requires forall i :: 0 <= i < |es| ==> !RepeatsInsert(Run(w, es[..i]), es[i])
    ensures Run(w.(strict := true), es) == Run(w, es).(strict := true)
  {
    if es != [] {
      var prior, last := es[..|es| - 1], es[|es| - 1];
      forall i | 0 <= i < |prior| ensures !RepeatsInsert(Run(w, prior[..i]), prior[i]) {
        assert prior[..i] == es[..i];
      }
      LedgerIsStrictUntilRepeat(w, prior);
      assert !RepeatsInsert(Run(w, prior), last);
      StepIsStrict(Run(w, prior), last);
    }
  }

  /** So there too every attempt is sent at most once. */
  lemma LedgerSendsOnceWithoutRepeat(w: World, es: seq<Event>, i: nat, k: nat)
    requires Initial(w) && (forall n :: 0 <= n < |es| ==> !RepeatsInsert(Run(w, es[..n]), es[n]))
    requires i < k < |Run(w, es).sends|
    ensures !SameAttempt(Run(w, es).sends[i], Run(w, es).sends[k].key, Run(w, es).sends[k].attempt)
  {
    LedgerIsStrictUntilRepeat(w, es);
    SentAtMostOnce(w.(strict := true), es, i, k);
  }

  /** The ledger parts from the insert-once journal in exactly the steps that insert an
      attempt whose row is already there with the same bytes. */
  lemma LedgerPartsIff(w: World, ev: Event)
    requires !w.strict
    ensures Step(w.(strict := true), ev) == Step(w, ev).(strict := true) <==> !RepeatsInsert(w, ev)
  {
    if RepeatsInsert(w, ev) {
      var pc := w.callers[ev.c];
      assert PersistPrepared(true, w.journal, pc.key, pc.attempt, pc.tx).None?;
      assert ev.c !in Step(w.(strict := true), ev).callers;
      assert ev.c in Step(w, ev).callers;
    } else {
      StepIsStrict(w, ev);
    }
  }

  predicate WasSent(sends: seq<Send>, key: Key, attempt: nat) {
    exists i | 0 <= i < |sends| :: SameAttempt(sends[i], key, attempt)
  }

  /** The last send sends its attempt again. */
  predicate LastIsRepeat(sends: seq<Send>)
    requires sends != []
  {
    WasSent(sends[..|sends| - 1], sends[|sends| - 1].key, sends[|sends| - 1].attempt)
  }

  /** From every state a run can reach: a caller whose insert is accepted goes on to send, and
      that is a repeat exactly when its insert found the row there and that row was sent (its
      first caller may have crashed before). */
  lemma SendIsRepeatIff(w: World, c: Caller, accepted: bool)
    requires Inv(w) && c in w.callers && w.callers[c].Signed?
    requires PersistPrepared(w.strict, w.journal, w.callers[c].key, w.callers[c].attempt, w.callers[c].tx).Some?
    ensures var pc := w.callers[c]; var t := Step(Step(w, EvStep(c)), EvSend(c, accepted));
            t.sends == w.sends + [Send(c, pc.key, pc.attempt, pc.tx)]
            && (LastIsRepeat(t.sends) <==> RepeatsInsert(w, EvStep(c)) && WasSent(w.sends, pc.key, pc.attempt))
  {
    var pc := w.callers[c];
    InsertThenSend(w, c, accepted);
    assert (w.sends + [Send(c, pc.key, pc.attempt, pc.tx)])[..|w.sends|] == w.sends;
    if i :| 0 <= i < |w.sends| && SameAttempt(w.sends[i], pc.key, pc.attempt) {
      assert SendOk(w.journal, w.sends[i]);
    }
  }

  lemma InsertThenSend(w: World, c: Caller, accepted: bool)
    requires c in w.callers && w.callers[c].Signed?
    requires PersistPrepared(w.strict, w.journal, w.callers[c].key, w.callers[c].attempt, w.callers[c].tx).Some?
    ensures var pc := w.callers[c];
            Step(Step(w, EvStep(c)), EvSend(c, accepted)).sends == w.sends + [Send(c, pc.key, pc.attempt, pc.tx)]
  {
    var pc := w.callers[c];
    var w1 := Step(w, EvStep(c));
    assert w1.sends == w.sends && w1.callers[c] == Committed(pc.key, pc.attempt, pc.tx);
  }

  lemma StepIsStrict(w: World, ev: Event)
    requires !RepeatsInsert(w, ev)
    ensures Step(w.(strict := true), ev) == Step(w, ev).(strict := true)
  {
    match ev
    case EvStep(c) => OwnStepIsStrict(w, c);
    case EvClassify(c, e) => ClassifyIsStrict(w, c, e);
    case EvReverted(_, _) =>
    case EvLanded(_, _) =>
    case EvConfirmed(_, _) =>
    case EvReconcile(_, _, _, _) =>
    case _ =>
  }

  lemma ClassifyIsStrict(w: World, c: Caller, e: Evidence)
    ensures ClassifyStep(w.(strict := true), c, e) == ClassifyStep(w, c, e).(strict := true)
  {
    if c in w.callers {
      match w.callers[c]
      case Sent(key, attempt, tx, accepted) => ConcludeIsStrict(w, c, key, attempt, Prepared(attempt, tx), e, accepted);
      case LeaseHeld(key, attempt, Some(p)) => ConcludeIsStrict(w, c, key, attempt, p, e, false);
      case _ =>
    }
  }

  lemma ConcludeIsStrict(w: World, c: Caller, key: Key, own: nat, p: Prepared, e: Evidence, accepted: bool)
    ensures Conclude(w.(strict := true), c, key, own, p, e, accepted) == Conclude(w, c, key, own, p, e, accepted).(strict := true)
  {
    assert w.(strict := true).journal == w.journal;
  }

  lemma OwnStepIsStrict(w: World, c: Caller)
    requires !RepeatsInsert(w, EvStep(c))
    ensures OwnStep(w.(strict := true), c) == OwnStep(w, c).(strict := true)
  {
    if c in w.callers && w.callers[c].Signed? {
      var pc := w.callers[c];
      assert PersistPrepared(true, w.journal, pc.key, pc.attempt, pc.tx) == PersistPrepared(w.strict, w.journal, pc.key, pc.attempt, pc.tx);
    }
  }

  // ---- rows only move forward ----

  lemma StepGrows(w: World, ev: Event)
    requires Inv(w)
    ensures Grows(w.journal, Step(w, ev).journal)
  {
    match ev
    case EvStep(c) => OwnStepGrows(w, c);
    case EvClassify(c, e) => ClassifyGrows(w, c, e);
    case EvReverted(c, receipt) =>
      if WaitsFor(w, c, receipt) { FailNewestKeeps(w.journal, w.callers[c].key); }
    case EvLanded(c, receipt) => AdvanceGrows(w, c, receipt, PREPARED, SUBMITTED);
    case EvConfirmed(c, receipt) => AdvanceGrows(w, c, receipt, SUBMITTED, CONFIRMED);
    case EvReconcile(key, attempt, tx, e) => ReconcileGrows(w, key, attempt, tx, e);
    case _ =>
  }

  lemma OwnStepGrows(w: World, c: Caller)
    requires Inv(w)
    ensures Grows(w.journal, OwnStep(w, c).journal)
  {
    if c in w.callers && w.callers[c].Signed? {
      var pc := w.callers[c];
      assert CallOk(w.journal, pc);
      if PersistPrepared(w.strict, w.journal, pc.key, pc.attempt, pc.tx).Some? {
        PersistKeeps(w.strict, w.journal, pc.key, pc.attempt, pc.tx);
      }
    }
  }

  lemma ClassifyGrows(w: World, c: Caller, e: Evidence)
    requires Inv(w)
    ensures Grows(w.journal, ClassifyStep(w, c, e).journal)
  {
    if c in w.callers {
      match w.callers[c]
      case Sent(key, attempt, tx, accepted) => ConcludeGrows(w, c, key, attempt, Prepared(attempt, tx), e, accepted);
      case LeaseHeld(key, attempt, Some(p)) => ConcludeGrows(w, c, key, attempt, p, e, false);
      case _ =>
    }
  }

  lemma ConcludeGrows(w: World, c: Caller, key: Key, own: nat, p: Prepared, e: Evidence, accepted: bool)
    requires Inv(w)
    ensures Grows(w.journal, Conclude(w, c, key, own, p, e, accepted).journal)
  {
    ClassifyKeeps(w.journal, key, own, p, e, accepted);
  }

  lemma AdvanceGrows(w: World, c: Caller, receipt: Receipt, from: Status, to: Status)
    requires Inv(w) && ((from.PREPARED? && to.SUBMITTED?) || (from.SUBMITTED? && to.CONFIRMED?))
    ensures Grows(w.journal, AdvanceStep(w, c, receipt, from, to).journal)
  {
    if WaitsFor(w, c, receipt) && Advance(w.journal, w.callers[c].key, w.callers[c].attempt, from, to).Some? {
      AdvanceKeeps(w.journal, w.callers[c].key, w.callers[c].attempt, from, to);
    }
  }

  lemma ReconcileGrows(w: World, key: Key, attempt: nat, tx: Tx, e: Evidence)
    requires Inv(w)
    ensures Grows(w.journal, ReconcileStep(w, key, attempt, tx, e).journal)
  {
    if Settle(w.journal, key, attempt, tx, CONFIRMED).Some? { SettleKeeps(w.journal, key, attempt, tx, CONFIRMED); }
    if Settle(w.journal, key, attempt, tx, FAILED).Some? { SettleKeeps(w.journal, key, attempt, tx, FAILED); }
  }

  /** Along any continuation no row is lost or given another transaction, statuses only move
      PREPARED to SUBMITTED to CONFIRMED or FAILED, and terminal rows never change. */
  lemma {:induction false} RowsOnlyMoveForward(w: World, es: seq<Event>, key: Key, i: nat)
    requires Inv(w) && i < |Rows(w.journal, key)|
    ensures var t := Run(w, es);
            i < |Rows(t.journal, key)| && Rows(t.journal, key)[i].tx == Rows(w.journal, key)[i].tx
            && Forward(Rows(w.journal, key)[i].status, Rows(t.journal, key)[i].status)
            && (!Unresolved(Rows(w.journal, key)[i]) ==> Rows(t.journal, key)[i] == Rows(w.journal, key)[i])
  {
    if es != [] {
      RowsOnlyMoveForward(w, es[..|es| - 1], key, i);
      RunKeeps(w, es[..|es| - 1]);
      StepGrows(Run(w, es[..|es| - 1]), es[|es| - 1]);
    }
  }

  /** A new attempt is only ever journaled after the one before it failed, and no two live
      rows of the wallet share a nonce. */
  lemma AttemptsFollowFailures(w: World, es: seq<Event>, key: Key, i: nat)
    requires Initial(w) && i + 1 < |Rows(Run(w, es).journal, key)|
    ensures Rows(Run(w, es).journal, key)[i].status.FAILED?
    ensures NoncesDistinct(Run(w, es).journal)
  {
    InitialInv(w);
    RunKeeps(w, es);
  }

  // ---- the nonce mutex ----

  predicate Holds(w: World, c: Caller) {
    c in w.callers && Holding(w.callers[c])
  }

  /** Every exit of a call after it took the mutex releases it: only a crash does not. */
  lemma ExitReleases(w: World, ev: Event, c: Caller)
    requires w.callers.Keys <= w.seen
    requires Holds(w, c) && !Holds(Step(w, ev), c) && ev != EvCrash(c)
    ensures Step(w, ev).mutex.None?
  {
    match ev
    case EvStep(_) =>
    case EvClassify(_, _) =>
    case EvThrow(_) =>
    case _ =>
  }

  /** A lease never lasts longer than its time to live. */
  predicate LeaseBounded(w: World) {
    w.mutex.Some? ==> w.mutex.value <= w.now + NONCE_MUTEX_TTL_MS
  }

  lemma {:induction false} LeasesAreBounded(w: World, es: seq<Event>)
    requires LeaseBounded(w)
    ensures LeaseBounded(Run(w, es)) && w.now <= Run(w, es).now
  {
    if es != [] {
      LeasesAreBounded(w, es[..|es| - 1]);
      StepBounded(Run(w, es[..|es| - 1]), es[|es| - 1]);
    }
  }

  lemma StepBounded(w: World, ev: Event)
    requires LeaseBounded(w)
    ensures LeaseBounded(Step(w, ev)) && w.now <= Step(w, ev).now
  {
  }

  /** So a crash while holding it blocks the wallet for at most that long. */
  lemma CrashesDoNotBlock(w: World, es: seq<Event>, ms: nat, c: Caller)
    requires Initial(w) && c in Run(w, es).callers && Run(w, es).callers[c].JournalLoaded? && ms > NONCE_MUTEX_TTL_MS
    ensures Holds(Step(Step(Run(w, es), EvTick(ms)), EvStep(c)), c)
  {
    LeasesAreBounded(w, es);
  }

  /** At most one call holds the mutex, and while one does the lease is stored. */
  predicate Exclusive(w: World) {
    (forall c <- w.callers :: Holding(w.callers[c]) ==> w.mutex.Some?)
    && (forall c <- w.callers, d <- w.callers :: Holding(w.callers[c]) && Holding(w.callers[d]) ==> c == d)
  }

  /** A call takes over a lease whose holder outlived it. */
  predicate Overruns(w: World, ev: Event) {
    ev.EvStep? && ev.c in w.callers && w.callers[ev.c].JournalLoaded?
    && w.mutex.Some? && w.mutex.value < w.now && exists d <- w.callers :: Holding(w.callers[d])
  }

  /** Without a new holder and without a release under one, exclusion stays. */
  lemma FewerHolders(w: World, t: World)
    requires Exclusive(w)
    requires forall c <- t.callers :: Holding(t.callers[c]) ==> c in w.callers && Holding(w.callers[c])
    requires t.mutex == w.mutex || forall c <- t.callers :: !Holding(t.callers[c])
    ensures Exclusive(t)
  {
  }

  lemma StepExclusive(w: World, ev: Event)
    requires Exclusive(w) && w.callers.Keys <= w.seen && !Overruns(w, ev)
    ensures Exclusive(Step(w, ev))
  {
    var t := Step(w, ev);
    if ev.EvStep? && ev.c in w.callers && w.callers[ev.c].JournalLoaded? && (w.mutex.None? || w.mutex.value < w.now) {
      assert forall d <- w.callers :: !Holding(w.callers[d]);
    } else {
      NoNewHolder(w, ev);
      if t.mutex != w.mutex {
        OnlyHolderReleases(w, ev);
      }
      FewerHolders(w, t);
    }
  }

  lemma NoNewHolder(w: World, ev: Event)
    requires w.callers.Keys <= w.seen
    requires !(ev.EvStep? && ev.c in w.callers && w.callers[ev.c].JournalLoaded? && (w.mutex.None? || w.mutex.value < w.now))
    ensures forall c <- Step(w, ev).callers :: Holding(Step(w, ev).callers[c]) ==> c in w.callers && Holding(w.callers[c])
  {
    match ev
    case EvStep(c) => OwnStepNoNewHolder(w, c);
    case EvClassify(c, e) => ConclusionNoNewHolder(w, c, e);
    case _ =>
  }

  lemma OwnStepNoNewHolder(w: World, c: Caller)
    requires !(c in w.callers && w.callers[c].JournalLoaded? && (w.mutex.None? || w.mutex.value < w.now))
    ensures forall d <- OwnStep(w, c).callers :: Holding(OwnStep(w, c).callers[d]) ==> d in w.callers && Holding(w.callers[d])
  {
  }

  lemma ConclusionNoNewHolder(w: World, c: Caller, e: Evidence)
    ensures forall d <- ClassifyStep(w, c, e).callers :: Holding(ClassifyStep(w, c, e).callers[d]) ==> d in w.callers && Holding(w.callers[d])
  {
  }

  lemma OnlyHolderReleases(w: World, ev: Event)
    requires Exclusive(w) && Step(w, ev).mutex != w.mutex
    requires !(ev.EvStep? && ev.c in w.callers && w.callers[ev.c].JournalLoaded? && (w.mutex.None? || w.mutex.value < w.now))
    ensures forall c <- Step(w, ev).callers :: !Holding(Step(w, ev).callers[c])
  {
    match ev
    case EvStep(c) =>
    case EvClassify(c, e) =>
    case EvThrow(c) =>
    case _ =>
  }

  /** The mutex excludes in every run in which no call outlives its lease. */
  lemma {:induction false} MutexExcludes(w: World, es: seq<Event>)
    requires Initial(w) && forall i :: 0 <= i < |es| ==> !Overruns(Run(w, es[..i]), es[i])
    ensures Exclusive(Run(w, es))
  {
    if es != [] {
      var prior := es[..|es| - 1];
      forall i | 0 <= i < |prior| ensures !Overruns(Run(w, prior[..i]), prior[i]) {
        assert prior[..i] == es[..i];
      }
      MutexExcludes(w, prior);
      InitialInv(w);
      RunKeeps(w, prior);
      StepExclusive(Run(w, prior), es[|es| - 1]);
    }
  }

  // ---- what a waiting caller records ----

  /** A successful receipt moves the caller's own newest row to SUBMITTED and then CONFIRMED. */
  lemma CallerConfirms(w: World, c: Caller, receipt: Receipt)
    requires WaitsFor(w, c, receipt) && receipt.success
    requires var pc := w.callers[c]; pc.attempt == |Rows(w.journal, pc.key)| - 1 && Unresolved(Rows(w.journal, pc.key)[pc.attempt])
    ensures var pc := w.callers[c]; var t := Step(Step(w, EvLanded(c, receipt)), EvConfirmed(c, receipt));
            SameBut(w.journal, t.journal, pc.key, pc.attempt)
            && Rows(t.journal, pc.key)[pc.attempt] == Row(CONFIRMED, Rows(w.journal, pc.key)[pc.attempt].tx)
  {
    var pc := w.callers[c];
    AdvanceRecords(w.journal, pc.key, pc.attempt, PREPARED, SUBMITTED);
    var k := Advance(w.journal, pc.key, pc.attempt, PREPARED, SUBMITTED).value;
    assert Step(w, EvLanded(c, receipt)) == w.(journal := k);
    AdvanceRecords(k, pc.key, pc.attempt, SUBMITTED, CONFIRMED);
  }

  /** A reverted one fails the newest row of the stage when it is open, and the call ends. */
  lemma CallerFails(w: World, c: Caller, receipt: Receipt)
    requires WaitsFor(w, c, receipt) && !receipt.success
    ensures var key := w.callers[c].key; var rows := Rows(w.journal, key); var t := Step(w, EvReverted(c, receipt));
            && c !in t.callers
            && (rows == [] || !Unresolved(rows[|rows| - 1]) ==> t.journal == w.journal)
            && (rows != [] && Unresolved(rows[|rows| - 1]) ==>
                  SameBut(w.journal, t.journal, key, |rows| - 1)
                  && Rows(t.journal, key)[|rows| - 1] == Row(FAILED, rows[|rows| - 1].tx))
  {
    var key := w.callers[c].key;
    var rows := Rows(w.journal, key);
    if rows != [] && Unresolved(rows[|rows| - 1]) {
      SetStatusRecords(w.journal, key, |rows| - 1, FAILED);
    }
  }

  /** When its own row can be neither the newest due one nor any other, the update throws:
      the call ends and records nothing; otherwise it stays. */
  lemma CallerAdvances(w: World, c: Caller, receipt: Receipt, landed: bool)
    requires WaitsFor(w, c, receipt) && receipt.success
    ensures var pc := w.callers[c]; var rows := Rows(w.journal, pc.key);
            var t := Step(w, if landed then EvLanded(c, receipt) else EvConfirmed(c, receipt));
            var due := (s: Status) => if landed then s.PREPARED? else s.SUBMITTED?;
            && (c !in t.callers <==> rows != [] && due(rows[|rows| - 1].status) && !(pc.attempt < |rows| && due(rows[pc.attempt].status)))
            && (c !in t.callers ==> t.journal == w.journal)
            && SameBut(w.journal, t.journal, pc.key, pc.attempt)
  {
    var pc := w.callers[c];
    AdvanceRecords(w.journal, pc.key, pc.attempt, if landed then PREPARED else SUBMITTED, if landed then SUBMITTED else CONFIRMED);
  }

  // ---- what a call starts from ----

  /** A call ends at once exactly when the newest row of its stage is CONFIRMED. Otherwise it
      takes the first attempt that has not failed: the open row, or the one after the last. */
  lemma FirstUnfailedAttempt(w: World, c: Caller, key: Key)
    requires JournalOk(w.journal) && c in w.callers && w.callers[c] == Entered(key)
    ensures var rows := Rows(w.journal, key); var t := Step(w, EvStep(c));
            && t.journal == w.journal && t.mutex == w.mutex && t.sends == w.sends
            && (c !in t.callers <==> rows != [] && rows[|rows| - 1].status.CONFIRMED?)
            && (c in t.callers ==>
                  t.callers[c].AttemptRead? && t.callers[c].key == key
                  && var n := t.callers[c].attempt;
                     n <= |rows| && (forall i :: 0 <= i < n ==> rows[i].status.FAILED?)
                     && (n < |rows| ==> n == |rows| - 1 && Unresolved(rows[n])))
  {
    var rows := Rows(w.journal, key);
    assert forall i: nat :: i + 1 < |rows| ==> rows[i].status.FAILED?;
  }
}
