/** Recovery from evidence: what a terminal row says about the chain, and when that is final. */
module Recovery {
  import opened Prelude
  import opened Evidence
  import opened Journal
  import opened Broadcast
  import opened BroadcastSafety
  import opened BroadcastRuns

  // ---- the journal reconciler ----

  /** A candidate row as it was selected, with what the providers then said about it. */
  datatype Candidate = Candidate(key: Key, attempt: nat, tx: Tx, evidence: Evidence)
  datatype Outcome = FAILED_REVERTED | FAILED_NONCE | UNRESOLVED | CONFIRMED_RECONCILED | FINALIZATION_FAILED

  function VerdictOf(c: Candidate): Option<Status> {
    if c.evidence.RECEIPT? then Some(if c.evidence.receipt.success then CONFIRMED else FAILED)
    else if c.evidence.ABSENT? && c.evidence.latest > c.tx.nonce then Some(FAILED)
    else None
  }

  function ReconcileOne(j: Journal, c: Candidate): (Journal, Outcome) {
    if VerdictOf(c).None? then (j, UNRESOLVED)
    else match Settle(j, c.key, c.attempt, c.tx, VerdictOf(c).value)
         case None => (j, FINALIZATION_FAILED)
         case Some(k) => (k, if !c.evidence.RECEIPT? then FAILED_NONCE
                             else if c.evidence.receipt.success then CONFIRMED_RECONCILED else FAILED_REVERTED)
  }

  function ReconcileMany(j: Journal, cs: seq<Candidate>): (Journal, seq<Outcome>) {
    if cs == [] then (j, [])
    else
      var (j1, rs) := ReconcileMany(j, cs[..|cs| - 1]);
      var (j2, r) := ReconcileOne(j1, cs[|cs| - 1]);
      (j2, rs + [r])
  }

  // ---- what a pass records ----

  predicate Names(c: Candidate, key: Key, attempt: nat, tx: Tx) {
    c.key == key && c.attempt == attempt && c.tx == tx
  }

  /** A receipt decides by its status, and an absent transaction only with the latest count
      past its nonce; pending, or absent with an open nonce, decides nothing. */
  predicate Decides(c: Candidate) {
    c.evidence.RECEIPT? || (c.evidence.ABSENT? && c.evidence.latest > c.tx.nonce)
  }

  predicate ShowsSuccess(c: Candidate) {
    c.evidence.RECEIPT? && c.evidence.receipt.success
  }

  /** The first candidate that names this row and decides. */
  predicate DecidesFirst(cs: seq<Candidate>, i: nat, key: Key, attempt: nat, tx: Tx) {
    && i < |cs| && Names(cs[i], key, attempt, tx) && Decides(cs[i])
    && forall k :: 0 <= k < i ==> !(Names(cs[k], key, attempt, tx) && Decides(cs[k]))
  }

  /** An open row becomes what the first deciding candidate shows, and every other row stays. */
  ghost predicate PassRecords(j: Journal, cs: seq<Candidate>, t: Journal) {
    forall key: Key :: |Rows(t, key)| == |Rows(j, key)| && forall i: nat :: i < |Rows(j, key)| ==> RowRecorded(j, cs, t, key, i)
  }

  ghost predicate RowRecorded(j: Journal, cs: seq<Candidate>, t: Journal, key: Key, i: nat)
    requires i < |Rows(j, key)| == |Rows(t, key)|
  {
    var row, now := Rows(j, key)[i], Rows(t, key)[i];
    && now.tx == row.tx
    && (!Unresolved(row) ==> now == row)
    && (forall n: nat :: Unresolved(row) && DecidesFirst(cs, n, key, i, row.tx) ==> now.status == if ShowsSuccess(cs[n]) then CONFIRMED else FAILED)
    && ((forall n: nat :: !DecidesFirst(cs, n, key, i, row.tx)) ==> now == row)
  }

  /** One result per candidate: it is refused exactly when its row holds another transaction,
      and otherwise says what its evidence shows. */
  predicate ResultsRight(j: Journal, cs: seq<Candidate>, results: seq<Outcome>) {
    && |results| == |cs|
    && forall i :: 0 <= i < |cs| ==> ResultRight(j, cs[i], results[i])
  }

  predicate ResultRight(j: Journal, c: Candidate, r: Outcome) {
    var foreign := c.attempt < |Rows(j, c.key)| && !Has(j, c.key, c.attempt, c.tx);
    && (r.UNRESOLVED? <==> !Decides(c))
    && (r.FINALIZATION_FAILED? <==> Decides(c) && foreign)
    && (r.CONFIRMED_RECONCILED? <==> ShowsSuccess(c) && !foreign)
    && (r.FAILED_REVERTED? <==> c.evidence.RECEIPT? && !c.evidence.receipt.success && !foreign)
  }

  ghost predicate SameTransactions(j: Journal, t: Journal) {
    forall key: Key :: |Rows(t, key)| == |Rows(j, key)| && forall i: nat :: i < |Rows(j, key)| ==> Rows(t, key)[i].tx == Rows(j, key)[i].tx
  }

  lemma OneResultRight(j: Journal, mid: Journal, c: Candidate)
    requires SameTransactions(j, mid)
    ensures ResultRight(j, c, ReconcileOne(mid, c).1)
  {
    if Decides(c) {
      SettleRecords(mid, c.key, c.attempt, c.tx, if ShowsSuccess(c) then CONFIRMED else FAILED);
    }
  }

  /** One more candidate changes at most the open row it names. */
  lemma OneMoreRecords(j: Journal, cs: seq<Candidate>, mid: Journal, c: Candidate)
    requires PassRecords(j, cs, mid)
    ensures PassRecords(j, cs + [c], ReconcileOne(mid, c).0)
  {
    var t, more := ReconcileOne(mid, c).0, cs + [c];
    if Decides(c) {
      SettleRecords(mid, c.key, c.attempt, c.tx, if ShowsSuccess(c) then CONFIRMED else FAILED);
    }
    assert forall key: Key :: |Rows(t, key)| == |Rows(mid, key)|;
    forall key: Key, i: nat | i < |Rows(j, key)| ensures RowRecorded(j, more, t, key, i) {
      assert RowRecorded(j, cs, mid, key, i);
      RowAfterOne(j, cs, mid, c, t, key, i);
    }
  }

  lemma RowAfterOne(j: Journal, cs: seq<Candidate>, mid: Journal, c: Candidate, t: Journal, key: Key, i: nat)
    requires i < |Rows(j, key)| == |Rows(mid, key)| == |Rows(t, key)| && RowRecorded(j, cs, mid, key, i)
    requires var before := Rows(mid, key)[i];
             Rows(t, key)[i] == if Names(c, key, i, before.tx) && Decides(c) && Unresolved(before)
                                then Row(if ShowsSuccess(c) then CONFIRMED else FAILED, before.tx) else before
    ensures RowRecorded(j, cs + [c], t, key, i)
  {
    var tx := Rows(j, key)[i].tx;
    FirstOfMore(cs, c, key, i, tx);
    if n: nat :| DecidesFirst(cs, n, key, i, tx) {
      assert forall m: nat :: DecidesFirst(cs, m, key, i, tx) ==> m == n;
    }
  }

  /** Who decides first does not change with later candidates, and a later one decides first
      exactly when nobody did. */
  lemma FirstOfMore(cs: seq<Candidate>, c: Candidate, key: Key, attempt: nat, tx: Tx)
    ensures forall n: nat :: n < |cs| ==> (DecidesFirst(cs + [c], n, key, attempt, tx) <==> DecidesFirst(cs, n, key, attempt, tx))
    ensures DecidesFirst(cs + [c], |cs|, key, attempt, tx) <==>
              Names(c, key, attempt, tx) && Decides(c) && forall n: nat :: !DecidesFirst(cs, n, key, attempt, tx)
  {
    FirstExists(cs, key, attempt, tx);
    assert (cs + [c])[|cs|] == c;
    assert forall k :: 0 <= k < |cs| ==> (cs + [c])[k] == cs[k];
  }

  lemma {:induction false} FirstExists(cs: seq<Candidate>, key: Key, attempt: nat, tx: Tx)
    ensures (forall n: nat :: !DecidesFirst(cs, n, key, attempt, tx)) <==>
              forall k :: 0 <= k < |cs| ==> !(Names(cs[k], key, attempt, tx) && Decides(cs[k]))
  {
    if cs != [] {
      var prior := cs[..|cs| - 1];
      FirstExists(prior, key, attempt, tx);
      if n: nat :| DecidesFirst(prior, n, key, attempt, tx) {
        assert DecidesFirst(cs, n, key, attempt, tx);
      } else if Names(cs[|cs| - 1], key, attempt, tx) && Decides(cs[|cs| - 1]) {
        assert forall k :: 0 <= k < |prior| ==> cs[k] == prior[k];
        assert DecidesFirst(cs, |cs| - 1, key, attempt, tx);
      }
    }
  }

  /** A whole pass: evidence is recorded on exactly the open rows it names, and reported. */
  lemma {:induction false} PassRecordsEvidence(j: Journal, cs: seq<Candidate>)
    ensures PassRecords(j, cs, ReconcileMany(j, cs).0) && ResultsRight(j, cs, ReconcileMany(j, cs).1)
  {
    if cs != [] {
      var prior, c := cs[..|cs| - 1], cs[|cs| - 1];
      PassRecordsEvidence(j, prior);
      var mid := ReconcileMany(j, prior).0;
      OneMoreRecords(j, prior, mid, c);
      assert prior + [c] == cs;
      forall key: Key, i: nat | i < |Rows(j, key)| ensures Rows(mid, key)[i].tx == Rows(j, key)[i].tx {
        assert RowRecorded(j, prior, mid, key, i);
      }
      OneResultRight(j, mid, c);
      assert forall i :: 0 <= i < |prior| ==> cs[i] == prior[i];
    }
  }

  class Reconciler {
    var journal: Journal

    constructor (journal: Journal)
      ensures this.journal == journal
    {
      this.journal := journal;
    }

    /** `reconcileDurableV4Journals`: one pass over the candidates. It never sends. */
    method Reconcile(candidates: seq<Candidate>) returns (results: seq<Outcome>)
      modifies this
      ensures (journal, results) == ReconcileMany(old(journal), candidates)
      ensures PassRecords(old(journal), candidates, journal) && ResultsRight(old(journal), candidates, results)
    {
      ghost var before := journal;
      PassRecordsEvidence(before, candidates);
      results := [];
      for i := 0 to |candidates|
        invariant (journal, results) == ReconcileMany(before, candidates[..i])
        invariant |results| == i
      {
        var c := candidates[i];
        assert candidates[..i + 1][..i] == candidates[..i];
        var outcome := UNRESOLVED;
        if VerdictOf(c).Some? {
          var settled := Settle(journal, c.key, c.attempt, c.tx, VerdictOf(c).value);
          if settled.None? {
            outcome := FINALIZATION_FAILED;
          } else {
            journal := settled.value;
            outcome := if !c.evidence.RECEIPT? then FAILED_NONCE
                       else if c.evidence.receipt.success then CONFIRMED_RECONCILED else FAILED_REVERTED;
          }
        }
        results := results + [outcome];
      }
      assert candidates[..|candidates|] == candidates;
    }
  }

  /** A pass over candidates is a run of the broadcast machine's reconcile events. */
  lemma {:induction false} PassIsRun(w: World, cs: seq<Candidate>)
    ensures Run(w, seq(|cs|, i requires 0 <= i < |cs| => EvReconcile(cs[i].key, cs[i].attempt, cs[i].tx, cs[i].evidence)))
            == w.(journal := ReconcileMany(w.journal, cs).0)
  {
    var es := seq(|cs|, i requires 0 <= i < |cs| => EvReconcile(cs[i].key, cs[i].attempt, cs[i].tx, cs[i].evidence));
    if cs != [] {
      var prior := cs[..|cs| - 1];
      PassIsRun(w, prior);
      assert es[..|es| - 1] == seq(|prior|, i requires 0 <= i < |prior| => EvReconcile(prior[i].key, prior[i].attempt, prior[i].tx, prior[i].evidence));
    }
  }

  // ---- what terminal rows mean ----

  ghost predicate TerminalsTrue(w: World) {
    forall key: Key, i: nat :: i < |Rows(w.journal, key)| ==>
      (Rows(w.journal, key)[i].status.FAILED? ==> Dead(w.chain, Rows(w.journal, key)[i].tx))
      && (Rows(w.journal, key)[i].status.CONFIRMED? ==> Succeeded(w.chain, Rows(w.journal, key)[i].tx))
  }

  /** Evidence and receipts were each read from one snapshot of the chain, at that step or at
      any time before it. */
  ghost predicate Truthful(w: World, ev: Event) {
    match ev
    case EvClassify(c, e) =>
      c in w.callers ==>
        (match w.callers[c]
         case Sent(_, _, tx, _) => JustifiedEarlier(w.chain, tx, e)
         case LeaseHeld(_, _, Some(p)) => JustifiedEarlier(w.chain, p.tx, e)
         case _ => true)
    case EvReverted(_, receipt) => JustifiedEarlier(w.chain, receipt.tx, RECEIPT(receipt))
    case EvLanded(_, receipt) => JustifiedEarlier(w.chain, receipt.tx, RECEIPT(receipt))
    case EvConfirmed(_, receipt) => JustifiedEarlier(w.chain, receipt.tx, RECEIPT(receipt))
    case EvReconcile(_, _, tx, e) => JustifiedEarlier(w.chain, tx, e)
    case _ => true
  }

  ghost predicate TruthfulRun(w: World, es: seq<Event>) {
    forall i :: 0 <= i < |es| ==> Truthful(Run(w, es[..i]), es[i])
  }

  /** The two steps whose failure is not final: a nonce failure read off the pending count of
      a transaction that can still succeed, and a reverted receipt of one attempt recorded on
      a newer one that can. */
  predicate Premature(w: World, ev: Event) {
    match ev
    case EvClassify(c, e) =>
      c in w.callers &&
        (match w.callers[c]
         case Sent(_, _, tx, accepted) => !accepted && PendingOnly(e, tx) && !Dead(w.chain, tx)
         case LeaseHeld(_, _, Some(p)) => PendingOnly(e, p.tx) && !Dead(w.chain, p.tx)
         case _ => false)
    case EvReverted(c, receipt) =>
      WaitsFor(w, c, receipt) && !receipt.success && NewestMayStillSucceed(w, w.callers[c].key, receipt.tx)
    case _ => false
  }

  /** The newest row is open, and is neither the receipt's own nor unable to succeed. */
  predicate NewestMayStillSucceed(w: World, key: Key, tx: Tx) {
    var rows := Rows(w.journal, key);
    rows != [] && Unresolved(rows[|rows| - 1]) && rows[|rows| - 1].tx != tx && !Dead(w.chain, rows[|rows| - 1].tx)
  }

  lemma SetTerminal(w: World, key: Key, i: nat, status: Status)
    requires TerminalsTrue(w) && i < |Rows(w.journal, key)|
    requires status.FAILED? ==> Dead(w.chain, Rows(w.journal, key)[i].tx)
    requires status.CONFIRMED? ==> Succeeded(w.chain, Rows(w.journal, key)[i].tx)
    ensures TerminalsTrue(w.(journal := SetStatus(w.journal, key, i, status)))
  {
    var j := SetStatus(w.journal, key, i, status);
    assert forall other :: other != key ==> Rows(j, other) == Rows(w.journal, other);
  }

  lemma SettleTrue(w: World, key: Key, attempt: nat, tx: Tx, verdict: Status)
    requires TerminalsTrue(w) && (verdict.CONFIRMED? || verdict.FAILED?)
    requires verdict.FAILED? ==> Dead(w.chain, tx)
    requires verdict.CONFIRMED? ==> Succeeded(w.chain, tx)
    requires Settle(w.journal, key, attempt, tx, verdict).Some?
    ensures TerminalsTrue(w.(journal := Settle(w.journal, key, attempt, tx, verdict).value))
  {
    if attempt < |Rows(w.journal, key)| && Unresolved(Rows(w.journal, key)[attempt]) {
      SetTerminal(w, key, attempt, verdict);
    }
  }

  lemma AdvanceTrue(w: World, key: Key, attempt: nat, from: Status, to: Status)
    requires TerminalsTrue(w) && Advance(w.journal, key, attempt, from, to).Some?
    requires to.SUBMITTED? || (to.CONFIRMED? && attempt < |Rows(w.journal, key)| && Succeeded(w.chain, Rows(w.journal, key)[attempt].tx))
    ensures TerminalsTrue(w.(journal := Advance(w.journal, key, attempt, from, to).value))
  {
    var rows := Rows(w.journal, key);
    if rows != [] && rows[|rows| - 1].status == from {
      SetTerminal(w, key, attempt, to);
    }
  }

  lemma ClassifyTrue(w: World, key: Key, own: nat, p: Prepared, e: Evidence, accepted: bool)
    requires TerminalsTrue(w) && JustifiedEarlier(w.chain, p.tx, e) && (accepted || !PendingOnly(e, p.tx) || Dead(w.chain, p.tx))
    ensures TerminalsTrue(w.(journal := Classify(w.journal, key, own, p, e, accepted).0))
  {
    EarlierEvidenceHolds(w.chain, p.tx, e);
    if e.RECEIPT? {
      var verdict := if e.receipt.success then CONFIRMED else FAILED;
      var s := Settle(w.journal, key, p.attempt, p.tx, verdict);
      if s.Some? {
        SettleTrue(w, key, p.attempt, p.tx, verdict);
        var w1 := w.(journal := s.value);
        if e.receipt.success && Advance(s.value, key, own, PREPARED, SUBMITTED).Some? {
          AdvanceTrue(w1, key, own, PREPARED, SUBMITTED);
        }
      }
    } else if e.PENDING? || accepted {
      if Advance(w.journal, key, own, PREPARED, SUBMITTED).Some? {
        AdvanceTrue(w, key, own, PREPARED, SUBMITTED);
      }
    } else if Fails(e, p.tx) && Settle(w.journal, key, p.attempt, p.tx, FAILED).Some? {
      SettleTrue(w, key, p.attempt, p.tx, FAILED);
    }
  }

  /** A caller confirms its own attempt only if that is the transaction it waited for. */
  lemma ConfirmsItsOwn(w: World, c: Caller, receipt: Receipt)
    requires Inv(w) && WaitsFor(w, c, receipt)
    requires w.callers[c].attempt < |Rows(w.journal, w.callers[c].key)|
    requires Rows(w.journal, w.callers[c].key)[w.callers[c].attempt].status.SUBMITTED?
    ensures Rows(w.journal, w.callers[c].key)[w.callers[c].attempt].tx == receipt.tx
  {
    var pc := w.callers[c];
    assert CallOk(w.journal, pc);
    OnlyNewestIsLive(w.journal, pc.key, pc.attempt);
  }

  lemma OnlyNewestIsLive(j: Journal, key: Key, i: nat)
    requires Ordered(j) && i < |Rows(j, key)| && Live(Rows(j, key)[i])
    ensures i == |Rows(j, key)| - 1
  {
  }

  lemma StepTrue(w: World, ev: Event)
    requires Inv(w) && TerminalsTrue(w) && Truthful(w, ev) && !Premature(w, ev)
    ensures TerminalsTrue(Step(w, ev))
  {
    match ev
    case EvStep(c) =>
      if c in w.callers && w.callers[c].Signed? { PersistTrue(w, c); }
    case EvClassify(c, e) => ClassifyStepTrue(w, c, e);
    case EvReverted(c, receipt) => RevertedTrue(w, c, receipt);
    case EvLanded(c, receipt) => LandedTrue(w, c, receipt);
    case EvConfirmed(c, receipt) => ConfirmedTrue(w, c, receipt);
    case EvReconcile(key, attempt, tx, e) => ReconcileTrue(w, key, attempt, tx, e);
    case EvMine(receipt) => MineTrue(w, receipt);
    case _ =>
  }

  lemma ClassifyStepTrue(w: World, c: Caller, e: Evidence)
    requires TerminalsTrue(w) && Truthful(w, EvClassify(c, e)) && !Premature(w, EvClassify(c, e))
    ensures TerminalsTrue(ClassifyStep(w, c, e))
  {
    if c in w.callers {
      match w.callers[c]
      case Sent(key, attempt, tx, accepted) => ClassifyTrue(w, key, attempt, Prepared(attempt, tx), e, accepted);
      case LeaseHeld(key, attempt, Some(p)) => ClassifyTrue(w, key, attempt, p, e, false);
      case _ =>
    }
  }

  lemma LandedTrue(w: World, c: Caller, receipt: Receipt)
    requires TerminalsTrue(w)
    ensures TerminalsTrue(AdvanceStep(w, c, receipt, PREPARED, SUBMITTED))
  {
    if WaitsFor(w, c, receipt) && Advance(w.journal, w.callers[c].key, w.callers[c].attempt, PREPARED, SUBMITTED).Some? {
      AdvanceTrue(w, w.callers[c].key, w.callers[c].attempt, PREPARED, SUBMITTED);
    }
  }

  lemma MineTrue(w: World, receipt: Receipt)
    requires TerminalsTrue(w)
    ensures TerminalsTrue(Step(w, EvMine(receipt)))
  {
    var t := Step(w, EvMine(receipt));
    forall key: Key, i: nat | i < |Rows(t.journal, key)|
      ensures (Rows(t.journal, key)[i].status.FAILED? ==> Dead(t.chain, Rows(t.journal, key)[i].tx))
              && (Rows(t.journal, key)[i].status.CONFIRMED? ==> Succeeded(t.chain, Rows(t.journal, key)[i].tx))
    {
      DeadStays(w.chain, t.chain, Rows(w.journal, key)[i].tx);
    }
  }

  lemma RevertedTrue(w: World, c: Caller, receipt: Receipt)
    requires TerminalsTrue(w) && JustifiedEarlier(w.chain, receipt.tx, RECEIPT(receipt))
    requires WaitsFor(w, c, receipt) && !receipt.success ==> !NewestMayStillSucceed(w, w.callers[c].key, receipt.tx)
    ensures TerminalsTrue(RevertedStep(w, c, receipt))
  {
    EarlierEvidenceHolds(w.chain, receipt.tx, RECEIPT(receipt));
    if WaitsFor(w, c, receipt) && !receipt.success {
      var rows := Rows(w.journal, w.callers[c].key);
      if rows != [] && Unresolved(rows[|rows| - 1]) {
        SetTerminal(w, w.callers[c].key, |rows| - 1, FAILED);
      }
    }
  }

  lemma PersistTrue(w: World, c: Caller)
    requires Inv(w) && TerminalsTrue(w) && c in w.callers && w.callers[c].Signed?
    ensures TerminalsTrue(Persist(w, c, w.callers[c].key, w.callers[c].attempt, w.callers[c].tx))
  {
    var j := Persist(w, c, w.callers[c].key, w.callers[c].attempt, w.callers[c].tx).journal;
    assert forall other :: other != w.callers[c].key ==> Rows(j, other) == Rows(w.journal, other);
  }

  lemma ConfirmedTrue(w: World, c: Caller, receipt: Receipt)
    requires Inv(w) && TerminalsTrue(w) && JustifiedEarlier(w.chain, receipt.tx, RECEIPT(receipt))
    ensures TerminalsTrue(AdvanceStep(w, c, receipt, SUBMITTED, CONFIRMED))
  {
    EarlierEvidenceHolds(w.chain, receipt.tx, RECEIPT(receipt));
    if WaitsFor(w, c, receipt) && receipt.success {
      var key, own := w.callers[c].key, w.callers[c].attempt;
      var a := Advance(w.journal, key, own, SUBMITTED, CONFIRMED);
      if a.Some? && a.value != w.journal {
        ConfirmsItsOwn(w, c, receipt);
        AdvanceTrue(w, key, own, SUBMITTED, CONFIRMED);
      }
    }
  }

  lemma ReconcileTrue(w: World, key: Key, attempt: nat, tx: Tx, e: Evidence)
    requires TerminalsTrue(w) && JustifiedEarlier(w.chain, tx, e)
    ensures TerminalsTrue(ReconcileStep(w, key, attempt, tx, e))
  {
    EarlierEvidenceHolds(w.chain, tx, e);
    if e.RECEIPT? && e.receipt.success && Settle(w.journal, key, attempt, tx, CONFIRMED).Some? {
      SettleTrue(w, key, attempt, tx, CONFIRMED);
    } else if ((e.RECEIPT? && !e.receipt.success) || (e.ABSENT? && e.latest > tx.nonce)) && Settle(w.journal, key, attempt, tx, FAILED).Some? {
      SettleTrue(w, key, attempt, tx, FAILED);
    }
  }

  /** With evidence of which each piece was read from one snapshot, however much was mined
      before it was acted on, and without a premature failure, every terminal row of every
      reachable journal tells the truth for good: a failed transaction can never succeed any
      more, and a confirmed one has. */
  lemma {:induction false} TerminalRowsAreTrue(w: World, es: seq<Event>)
    requires Initial(w) && TruthfulRun(w, es)
    requires forall i :: 0 <= i < |es| ==> !Premature(Run(w, es[..i]), es[i])
    ensures Inv(Run(w, es)) && TerminalsTrue(Run(w, es))
  {
    InitialInv(w);
    RunKeeps(w, es);
    if es != [] {
      var prior := es[..|es| - 1];
      forall i | 0 <= i < |prior| ensures Truthful(Run(w, prior[..i]), prior[i]) && !Premature(Run(w, prior[..i]), prior[i]) {
        assert prior[..i] == es[..i];
      }
      assert Truthful(Run(w, es[..|es| - 1]), es[|es| - 1]);
      TerminalRowsAreTrue(w, prior);
      StepTrue(Run(w, prior), es[|es| - 1]);
    }
  }

  /** So each stage of each workflow succeeds on chain at most once, however many attempts,
      callers and crashes there were. */
  lemma StageSucceedsAtMostOnce(w: World, es: seq<Event>, key: Key, i: nat, k: nat)
    requires Initial(w) && TruthfulRun(w, es)
    requires forall n :: 0 <= n < |es| ==> !Premature(Run(w, es[..n]), es[n])
    requires i < |Rows(Run(w, es).journal, key)| && k < |Rows(Run(w, es).journal, key)|
    requires Succeeded(Run(w, es).chain, Rows(Run(w, es).journal, key)[i].tx)
    requires Succeeded(Run(w, es).chain, Rows(Run(w, es).journal, key)[k].tx)
    ensures i == k
  {
    TerminalRowsAreTrue(w, es);
    OnlyNewestIsLive(Run(w, es).journal, key, i);
    OnlyNewestIsLive(Run(w, es).journal, key, k);
  }

  /** The failure a call records is final if and only if it was not read off the pending count
      alone: then the transaction is dead at that step, however old the evidence is, and
      otherwise the same evidence is shown by a chain on which it still succeeds. */
  lemma ClassifiedFailureIsFinalIff(w: World, key: Key, own: nat, p: Prepared, e: Evidence)
    requires JustifiedEarlier(w.chain, p.tx, e)
    requires Has(w.journal, key, p.attempt, p.tx) && Unresolved(Rows(w.journal, key)[p.attempt])
    requires p.attempt < |Rows(Classify(w.journal, key, own, p, e, false).0, key)|
    requires Rows(Classify(w.journal, key, own, p, e, false).0, key)[p.attempt].status.FAILED?
    ensures Fails(e, p.tx) && (Final(e, p.tx) <==> !PendingOnly(e, p.tx))
    ensures !PendingOnly(e, p.tx) ==> Dead(w.chain, p.tx)
    ensures PendingOnly(e, p.tx) && Justified(w.chain, p.tx, e) ==> !Dead(w.chain, p.tx)
  {
    ClassifyFails(w.journal, key, own, p, e);
    FinalIff(e, p.tx);
    EarlierEvidenceHolds(w.chain, p.tx, e);
  }

  lemma ClassifyFails(j: Journal, key: Key, own: nat, p: Prepared, e: Evidence)
    requires Has(j, key, p.attempt, p.tx) && Unresolved(Rows(j, key)[p.attempt])
    requires p.attempt < |Rows(Classify(j, key, own, p, e, false).0, key)|
    requires Rows(Classify(j, key, own, p, e, false).0, key)[p.attempt].status.FAILED?
    ensures Fails(e, p.tx)
  {
  }

  /** The reverted receipt that a caller records is final for the row it fails exactly when
      that row, the newest of the stage, is the receipt's own or can no longer succeed. */
  lemma RevertedFailureIsFinalIff(w: World, c: Caller, receipt: Receipt)
    requires Inv(w) && TerminalsTrue(w) && WaitsFor(w, c, receipt) && !receipt.success
    requires JustifiedEarlier(w.chain, receipt.tx, RECEIPT(receipt))
    ensures TerminalsTrue(RevertedStep(w, c, receipt)) <==> !NewestMayStillSucceed(w, w.callers[c].key, receipt.tx)
  {
    var key := w.callers[c].key;
    var rows, j := Rows(w.journal, key), FailNewest(w.journal, key);
    if NewestMayStillSucceed(w, key, receipt.tx) {
      assert Rows(j, key)[|rows| - 1] == Row(FAILED, rows[|rows| - 1].tx);
    } else {
      RevertedTrue(w, c, receipt);
    }
  }
}
