/** Safety of the broadcast boundary over every interleaving and every crash. */
module BroadcastSafety {
  import opened Prelude
  import opened Evidence
  import opened Journal
  import opened Broadcast

  // ---- the invariant ----

  ghost predicate FailedBelow(j: Journal, key: Key, attempt: nat) {
    attempt <= |Rows(j, key)| && forall i: nat :: i < attempt ==> Rows(j, key)[i].status.FAILED?
  }

  ghost predicate LoadedOk(j: Journal, key: Key, own: nat, p: Prepared) {
    own <= p.attempt && Has(j, key, p.attempt, p.tx)
  }

  /** What a call knows about the journal at each of its program points. */
  ghost predicate CallOk(j: Journal, pc: Pc) {
    match pc
    case Entered(_) => true
    case AttemptRead(key, attempt) => FailedBelow(j, key, attempt)
    case JournalLoaded(key, attempt, loaded) =>
      FailedBelow(j, key, attempt) && (loaded.Some? ==> LoadedOk(j, key, attempt, loaded.value))
    case LeaseHeld(key, attempt, loaded) =>
      FailedBelow(j, key, attempt) && (loaded.Some? ==> LoadedOk(j, key, attempt, loaded.value))
    case Signed(key, attempt, _) => FailedBelow(j, key, attempt)
    case Committed(key, attempt, tx) => FailedBelow(j, key, attempt) && Has(j, key, attempt, tx)
    case Sent(key, attempt, tx, _) => FailedBelow(j, key, attempt) && Has(j, key, attempt, tx)
    case Waiting(key, attempt, p) => FailedBelow(j, key, attempt) && LoadedOk(j, key, attempt, p)
  }

  /** A send carries the transaction of its journal row, and every earlier attempt failed. */
  ghost predicate SendOk(j: Journal, s: Send) {
    FailedBelow(j, s.key, s.attempt) && Has(j, s.key, s.attempt, s.tx)
  }

  predicate MayStillLoad(pc: Pc) {
    pc.Entered? || pc.AttemptRead?
  }

  predicate IsRecovering(pc: Pc) {
    (pc.JournalLoaded? || pc.LeaseHeld?) && pc.loaded.Some?
  }

  /** A call either recovers a loaded transaction or signs a new one, never both. */
  ghost predicate RolesOk(w: World) {
    && w.callers.Keys <= w.seen && w.signers <= w.seen && w.recovering <= w.seen
    && w.signers !! w.recovering
    && (forall i :: 0 <= i < |w.sends| ==> w.sends[i].caller in w.signers)
    && (forall c <- w.callers ::
          && (MayStillLoad(w.callers[c]) ==> c !in w.recovering && c !in w.signers)
          && (IsRecovering(w.callers[c]) ==> c in w.recovering)
          && ((w.callers[c].JournalLoaded? || w.callers[c].LeaseHeld?) && w.callers[c].loaded.None? ==> c !in w.recovering)
          && (w.callers[c].Signed? || w.callers[c].Committed? ==> c in w.signers))
  }

  predicate SameAttempt(s: Send, key: Key, attempt: nat) {
    s.key == key && s.attempt == attempt
  }

  predicate About(pc: Pc, key: Key, attempt: nat) {
    pc.Committed? && pc.key == key && pc.attempt == attempt
  }

  /** With an insert-once journal nobody else is at the point of sending an attempt that was
      sent, and no attempt was sent twice. */
  ghost predicate OnceOk(w: World) {
    w.strict ==>
      && (forall i, k :: 0 <= i < k < |w.sends| ==> !SameAttempt(w.sends[i], w.sends[k].key, w.sends[k].attempt))
      && (forall c <- w.callers, i | 0 <= i < |w.sends| :: !About(w.callers[c], w.sends[i].key, w.sends[i].attempt))
      && (forall c <- w.callers, d <- w.callers :: c != d && w.callers[c].Committed? ==>
            !About(w.callers[d], w.callers[c].key, w.callers[c].attempt))
  }

  ghost predicate Inv(w: World) {
    && JournalOk(w.journal)
    && (forall c <- w.callers :: CallOk(w.journal, w.callers[c]))
    && (forall i :: 0 <= i < |w.sends| ==> SendOk(w.journal, w.sends[i]))
    && RolesOk(w) && OnceOk(w) && ChainOk(w.chain)
  }

  // ---- facts survive a growing journal ----

  lemma FailedBelowGrows(j: Journal, k: Journal, key: Key, attempt: nat)
    requires Grows(j, k) && FailedBelow(j, key, attempt)
    ensures FailedBelow(k, key, attempt)
  {
    forall i: nat | i < attempt ensures Rows(k, key)[i].status.FAILED? {
      assert Rows(j, key)[i].status.FAILED?;
    }
  }

  lemma CallGrows(j: Journal, k: Journal, pc: Pc)
    requires Grows(j, k) && CallOk(j, pc)
    ensures CallOk(k, pc)
  {
    if !pc.Entered? {
      FailedBelowGrows(j, k, pc.key, pc.attempt);
    }
  }

  lemma JournalStep(w: World, k: Journal)
    requires Inv(w) && Grows(w.journal, k) && JournalOk(k)
    ensures Inv(w.(journal := k))
  {
    forall c <- w.callers ensures CallOk(k, w.callers[c]) {
      CallGrows(w.journal, k, w.callers[c]);
    }
    forall i | 0 <= i < |w.sends| ensures SendOk(k, w.sends[i]) {
      FailedBelowGrows(w.journal, k, w.sends[i].key, w.sends[i].attempt);
    }
  }

  lemma ExitKeeps(w: World, c: Caller)
    requires Inv(w)
    ensures Inv(Leave(w, c)) && Inv(Exit(w, c)) && Inv(Release(w))
  {
  }

  // ---- each step keeps the invariant ----

  lemma EnterKeeps(w: World, c: Caller, key: Key)
    requires Inv(w)
    ensures Inv(Enter(w, c, key))
  {
  }

  /** A call that has neither loaded nor signed moves on to another such point. */
  lemma GotoKeeps(w: World, c: Caller, pc: Pc)
    requires Inv(w) && c in w.callers && MayStillLoad(w.callers[c]) && MayStillLoad(pc) && CallOk(w.journal, pc)
    ensures Inv(Goto(w, c, pc))
  {
  }

  /** Only the newest row is not failed, so the attempt computed from it is the next one. */
  lemma ReadKeeps(w: World, c: Caller)
    requires Inv(w) && c in w.callers && w.callers[c].Entered?
    ensures Inv(ReadAttempt(w, c, w.callers[c].key))
  {
    var key := w.callers[c].key;
    var rows := Rows(w.journal, key);
    if rows != [] && rows[|rows| - 1].status.CONFIRMED? {
      ExitKeeps(w, c);
    } else {
      var attempt := if rows == [] then 0 else if rows[|rows| - 1].status.FAILED? then |rows| else |rows| - 1;
      NewestAttempt(w.journal, key, attempt);
      GotoKeeps(w, c, AttemptRead(key, attempt));
    }
  }

  lemma NewestAttempt(j: Journal, key: Key, attempt: nat)
    requires Ordered(j)
    requires attempt == |Rows(j, key)| - 1 || (attempt == |Rows(j, key)| && (attempt > 0 ==> Rows(j, key)[attempt - 1].status.FAILED?))
    ensures FailedBelow(j, key, attempt)
  {
    forall i: nat | i < attempt ensures Rows(j, key)[i].status.FAILED? {
      assert i + 1 < |Rows(j, key)| || i == attempt - 1;
    }
  }

  lemma LoadKeeps(w: World, c: Caller)
    requires Inv(w) && c in w.callers && w.callers[c].AttemptRead?
    ensures Inv(Load(w, c, w.callers[c].key, w.callers[c].attempt))
  {
    var rows := Rows(w.journal, w.callers[c].key);
    if rows != [] && Unresolved(rows[|rows| - 1]) {
      assert w.callers[c].attempt <= |rows| - 1;
    }
  }

  lemma AcquireKeeps(w: World, c: Caller)
    requires Inv(w) && c in w.callers && w.callers[c].JournalLoaded?
    ensures Inv(Acquire(w, c, w.callers[c].key, w.callers[c].attempt, w.callers[c].loaded))
  {
  }

  lemma SignKeeps(w: World, c: Caller, tx: Tx)
    requires Inv(w) && c in w.callers && w.callers[c].LeaseHeld? && w.callers[c].loaded.None?
    ensures Inv(Sign(w, c, w.callers[c].key, w.callers[c].attempt, tx))
  {
  }

  ghost predicate NobodyAt(w: World, key: Key, attempt: nat) {
    (forall i | 0 <= i < |w.sends| :: !SameAttempt(w.sends[i], key, attempt))
    && (forall d <- w.callers :: !About(w.callers[d], key, attempt))
  }

  /** A strict insert is the first row of its attempt, so nobody sent or is about to. */
  lemma FirstRowOfAttempt(w: World, key: Key, attempt: nat)
    requires Inv(w) && attempt >= |Rows(w.journal, key)|
    ensures NobodyAt(w, key, attempt)
  {
    forall i | 0 <= i < |w.sends| ensures !SameAttempt(w.sends[i], key, attempt) {
      assert SendOk(w.journal, w.sends[i]);
    }
    forall d <- w.callers ensures !About(w.callers[d], key, attempt) {
      assert CallOk(w.journal, w.callers[d]);
    }
  }

  lemma CommitKeeps(w: World, c: Caller, key: Key, attempt: nat, tx: Tx)
    requires Inv(w) && c in w.callers && w.callers[c].Signed?
    requires FailedBelow(w.journal, key, attempt) && Has(w.journal, key, attempt, tx)
    requires w.strict ==> NobodyAt(w, key, attempt)
    ensures Inv(Goto(w, c, Committed(key, attempt, tx)))
  {
  }

  lemma PersistStepKeeps(w: World, c: Caller)
    requires Inv(w) && c in w.callers && w.callers[c].Signed?
    ensures Inv(Persist(w, c, w.callers[c].key, w.callers[c].attempt, w.callers[c].tx))
  {
    var key, attempt, tx := w.callers[c].key, w.callers[c].attempt, w.callers[c].tx;
    assert CallOk(w.journal, w.callers[c]);
    var p := PersistPrepared(w.strict, w.journal, key, attempt, tx);
    if p.Some? {
      PersistKeeps(w.strict, w.journal, key, attempt, tx);
      JournalStep(w, p.value);
      FailedBelowGrows(w.journal, p.value, key, attempt);
      if w.strict { FirstRowOfAttempt(w, key, attempt); }
      CommitKeeps(w.(journal := p.value), c, key, attempt, tx);
    } else {
      ExitKeeps(w, c);
    }
  }

  lemma SendKeeps(w: World, c: Caller, accepted: bool)
    requires Inv(w) && c in w.callers && w.callers[c].Committed?
    ensures Inv(SendRaw(w, c, w.callers[c].key, w.callers[c].attempt, w.callers[c].tx, accepted))
  {
    var pc := w.callers[c];
    assert CallOk(w.journal, pc);
    assert About(pc, pc.key, pc.attempt);
  }

  lemma ClassifyKeeps(j: Journal, key: Key, own: nat, p: Prepared, e: Evidence, accepted: bool)
    requires JournalOk(j)
    ensures var k := Classify(j, key, own, p, e, accepted).0; JournalOk(k) && Grows(j, k)
  {
    if e.RECEIPT? {
      var verdict := if e.receipt.success then CONFIRMED else FAILED;
      var s := Settle(j, key, p.attempt, p.tx, verdict);
      if s.Some? {
        SettleKeeps(j, key, p.attempt, p.tx, verdict);
        var a := Advance(s.value, key, own, PREPARED, SUBMITTED);
        if e.receipt.success && a.Some? {
          AdvanceKeeps(s.value, key, own, PREPARED, SUBMITTED);
          GrowsTransitive(j, s.value, a.value);
        }
      }
    } else if e.PENDING? || accepted {
      if Advance(j, key, own, PREPARED, SUBMITTED).Some? {
        AdvanceKeeps(j, key, own, PREPARED, SUBMITTED);
      }
    } else if Settle(j, key, p.attempt, p.tx, FAILED).Some? {
      SettleKeeps(j, key, p.attempt, p.tx, FAILED);
    }
  }

  /** A holder that leaves the boundary waits for the receipt of a row it knows. */
  lemma WaitKeeps(w: World, c: Caller, key: Key, own: nat, p: Prepared)
    requires Inv(w) && c in w.callers && Holding(w.callers[c])
    requires FailedBelow(w.journal, key, own) && LoadedOk(w.journal, key, own, p)
    ensures Inv(Goto(Release(w), c, Waiting(key, own, p)))
  {
  }

  lemma ConcludeKeeps(w: World, c: Caller, key: Key, own: nat, p: Prepared, e: Evidence, accepted: bool)
    requires Inv(w) && c in w.callers && Holding(w.callers[c])
    requires FailedBelow(w.journal, key, own) && LoadedOk(w.journal, key, own, p)
    ensures Inv(Conclude(w, c, key, own, p, e, accepted))
  {
    ClassifyKeeps(w.journal, key, own, p, e, accepted);
    var j := Classify(w.journal, key, own, p, e, accepted).0;
    JournalStep(w, j);
    if Classify(w.journal, key, own, p, e, accepted).1 {
      FailedBelowGrows(w.journal, j, key, own);
      WaitKeeps(w.(journal := j), c, key, own, p);
    } else {
      ExitKeeps(w.(journal := j), c);
    }
  }

  lemma RevertedKeeps(w: World, c: Caller, receipt: Receipt)
    requires Inv(w)
    ensures Inv(RevertedStep(w, c, receipt))
  {
    if WaitsFor(w, c, receipt) && !receipt.success {
      FailNewestKeeps(w.journal, w.callers[c].key);
      JournalStep(w, FailNewest(w.journal, w.callers[c].key));
      ExitKeeps(w.(journal := FailNewest(w.journal, w.callers[c].key)), c);
    }
  }

  lemma AdvanceStepKeeps(w: World, c: Caller, receipt: Receipt, from: Status, to: Status)
    requires Inv(w) && ((from.PREPARED? && to.SUBMITTED?) || (from.SUBMITTED? && to.CONFIRMED?))
    ensures Inv(AdvanceStep(w, c, receipt, from, to))
  {
    ExitKeeps(w, c);
    if WaitsFor(w, c, receipt) && receipt.success {
      var key, own := w.callers[c].key, w.callers[c].attempt;
      if Advance(w.journal, key, own, from, to).Some? {
        AdvanceKeeps(w.journal, key, own, from, to);
        JournalStep(w, Advance(w.journal, key, own, from, to).value);
      }
    }
  }

  lemma ReconcileKeeps(w: World, key: Key, attempt: nat, tx: Tx, e: Evidence)
    requires Inv(w)
    ensures Inv(ReconcileStep(w, key, attempt, tx, e))
  {
    if Settle(w.journal, key, attempt, tx, CONFIRMED).Some? {
      SettleKeeps(w.journal, key, attempt, tx, CONFIRMED);
      JournalStep(w, Settle(w.journal, key, attempt, tx, CONFIRMED).value);
    }
    if Settle(w.journal, key, attempt, tx, FAILED).Some? {
      SettleKeeps(w.journal, key, attempt, tx, FAILED);
      JournalStep(w, Settle(w.journal, key, attempt, tx, FAILED).value);
    }
  }

  lemma OwnStepKeeps(w: World, c: Caller)
    requires Inv(w)
    ensures Inv(OwnStep(w, c))
  {
    if c in w.callers {
      match w.callers[c]
      case Entered(_) => ReadKeeps(w, c);
      case AttemptRead(_, _) => LoadKeeps(w, c);
      case JournalLoaded(_, _, _) => AcquireKeeps(w, c);
      case Signed(_, _, _) => PersistStepKeeps(w, c);
      case _ =>
    }
  }

  lemma ClassifyStepKeeps(w: World, c: Caller, e: Evidence)
    requires Inv(w)
    ensures Inv(ClassifyStep(w, c, e))
  {
    if c in w.callers {
      assert CallOk(w.journal, w.callers[c]);
      match w.callers[c]
      case Sent(key, attempt, tx, accepted) => ConcludeKeeps(w, c, key, attempt, Prepared(attempt, tx), e, accepted);
      case LeaseHeld(key, attempt, Some(p)) => ConcludeKeeps(w, c, key, attempt, p, e, false);
      case _ =>
    }
  }

  /** Time and the chain leave the protocol alone. */
  lemma OutsideKeeps(w: World, ev: Event)
    requires Inv(w) && (ev.EvTick? || ev.EvMine? || ev.EvPool?)
    ensures Inv(Step(w, ev))
  {
    var t := Step(w, ev);
    assert t.journal == w.journal && t.callers == w.callers && t.sends == w.sends && t.strict == w.strict;
    assert ChainOk(t.chain);
  }

  lemma StepKeeps(w: World, ev: Event)
    requires Inv(w)
    ensures Inv(Step(w, ev))
  {
    match ev
    case EvEnter(c, key) => EnterKeeps(w, c, key);
    case EvStep(c) => OwnStepKeeps(w, c);
    case EvSign(c, tx) =>
      if c in w.callers && w.callers[c].LeaseHeld? && w.callers[c].loaded.None? { SignKeeps(w, c, tx); }
    case EvSend(c, accepted) =>
      if c in w.callers && w.callers[c].Committed? { SendKeeps(w, c, accepted); }
    case EvClassify(c, e) => ClassifyStepKeeps(w, c, e);
    case EvThrow(c) => ExitKeeps(w, c);
    case EvCrash(c) => ExitKeeps(w, c);
    case EvReverted(c, receipt) => RevertedKeeps(w, c, receipt);
    case EvLanded(c, receipt) => AdvanceStepKeeps(w, c, receipt, PREPARED, SUBMITTED);
    case EvConfirmed(c, receipt) => AdvanceStepKeeps(w, c, receipt, SUBMITTED, CONFIRMED);
    case EvReconcile(key, attempt, tx, e) => ReconcileKeeps(w, key, attempt, tx, e);
    case _ => OutsideKeeps(w, ev);
  }

  lemma InitialInv(w: World)
    requires Initial(w)
    ensures Inv(w)
  {
  }

  lemma {:induction false} RunKeeps(w: World, es: seq<Event>)
    requires Inv(w)
    ensures Inv(Run(w, es))
  {
    if es != [] {
      RunKeeps(w, es[..|es| - 1]);
      StepKeeps(Run(w, es[..|es| - 1]), es[|es| - 1]);
    }
  }
}
