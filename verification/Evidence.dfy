/** What providers say about one transaction hash, and what may be concluded from it. */
module Evidence {
  import opened Prelude

  /** A signed transaction of the wallet. The hash of a transaction is an injective function
      of what was signed, so the transaction stands for its own hash. */
  datatype Tx = Tx(nonce: nat, body: nat)

  datatype Receipt = Receipt(tx: Tx, success: bool, block: int, gasUsed: int, gasPrice: int)
  datatype Inconclusive = PROVIDER_ERROR | PROVIDER_DISAGREEMENT | NONCE_EVIDENCE_INVALID | MALFORMED_EVIDENCE
  datatype Evidence =
    | RECEIPT(receipt: Receipt)
    | PENDING(nonce: nat)
    | ABSENT(latest: nat, pending: nat)
    | INCONCLUSIVE(reason: Inconclusive)

  // ---- one provider ----

  /** A reply to one RPC call: a value, "not found", or any other failure. */
  datatype Reply<T> = Found(value: T) | NotFound | Failed

  /** The transaction object of a reply; `block` is None while it is pending. */
  datatype TxReply = TxReply(tx: Tx, nonce: int, fromWallet: bool, block: Option<int>)

  predicate ValidReceipt(r: Receipt, tx: Tx) {
    r.tx == tx && r.block >= 0 && r.gasUsed >= 0 && r.gasPrice >= 0
  }

  predicate ValidPending(r: TxReply, tx: Tx, expectedNonce: Option<nat>) {
    r.tx == tx && r.nonce >= 0 && r.fromWallet && r.block.None? && (expectedNonce.Some? ==> r.nonce == expectedNonce.value)
  }

  /** `providerEvidence`: receipt first, then the transaction, then the two nonce counts. */
  function ProviderEvidence(receipt: Reply<Receipt>, transaction: Reply<TxReply>, latest: Reply<int>, pending: Reply<int>,
                            tx: Tx, expectedNonce: Option<nat>): Evidence
  {
    match receipt
    case Found(r) => if ValidReceipt(r, tx) then RECEIPT(r) else INCONCLUSIVE(MALFORMED_EVIDENCE)
    case Failed => INCONCLUSIVE(PROVIDER_ERROR)
    case NotFound =>
      match transaction
      case Found(t) => if ValidPending(t, tx, expectedNonce) then PENDING(t.nonce) else INCONCLUSIVE(MALFORMED_EVIDENCE)
      case Failed => INCONCLUSIVE(PROVIDER_ERROR)
      case NotFound =>
        if !latest.Found? || !pending.Found? then INCONCLUSIVE(PROVIDER_ERROR)
        else if latest.value < 0 || pending.value < latest.value then INCONCLUSIVE(NONCE_EVIDENCE_INVALID)
        else ABSENT(latest.value, pending.value)
  }

  /** What one provider's replies amount to: a receipt only from a receipt of this very
      transaction, pending only after the receipt was reported missing, absent only after both
      were, with two counts that fit together; a failed or malformed reply is never absence. */
  lemma ProviderEvidenceIff(receipt: Reply<Receipt>, transaction: Reply<TxReply>, latest: Reply<int>, pending: Reply<int>,
                            tx: Tx, expectedNonce: Option<nat>)
    ensures var e := ProviderEvidence(receipt, transaction, latest, pending, tx, expectedNonce);
            && (e.RECEIPT? <==>
                  receipt.Found? && receipt.value.tx == tx
                  && receipt.value.block >= 0 && receipt.value.gasUsed >= 0 && receipt.value.gasPrice >= 0)
            && (e.RECEIPT? ==> e.receipt == receipt.value)
            && (e.PENDING? <==>
                  receipt.NotFound? && transaction.Found? && transaction.value.tx == tx && transaction.value.fromWallet
                  && transaction.value.block.None? && transaction.value.nonce >= 0
                  && (expectedNonce.Some? ==> transaction.value.nonce == expectedNonce.value))
            && (e.PENDING? ==> e.nonce == transaction.value.nonce)
            && (e.ABSENT? <==> receipt.NotFound? && transaction.NotFound? && latest.Found? && pending.Found?
                               && 0 <= latest.value <= pending.value)
            && (e.ABSENT? ==> e.latest == latest.value && e.pending == pending.value)
            && (e == INCONCLUSIVE(NONCE_EVIDENCE_INVALID) <==>
                  receipt.NotFound? && transaction.NotFound? && latest.Found? && pending.Found?
                  && !(0 <= latest.value <= pending.value))
            && (e == INCONCLUSIVE(PROVIDER_ERROR) <==>
                  receipt.Failed? || (receipt.NotFound? && (transaction.Failed? || (transaction.NotFound? && !(latest.Found? && pending.Found?)))))
            && e != INCONCLUSIVE(PROVIDER_DISAGREEMENT)
  {
  }

  // ---- agreement of all providers ----

  datatype Identity = IdReceipt(success: bool, tx: Tx, block: int) | IdPending(nonce: nat) | IdAbsent(latest: nat, pending: nat) | IdNone

  /** What two observations must share to agree; the gas fields of a receipt do not count. */
  function IdentityOf(e: Evidence): Identity {
    match e
    case RECEIPT(r) => IdReceipt(r.success, r.tx, r.block)
    case PENDING(n) => IdPending(n)
    case ABSENT(l, p) => IdAbsent(l, p)
    case INCONCLUSIVE(_) => IdNone
  }

  function FirstInconclusive(es: seq<Evidence>): Option<Evidence> {
    if es == [] then None
    else if es[0].INCONCLUSIVE? then Some(es[0])
    else FirstInconclusive(es[1..])
  }

  /** `exactHashEvidence` over the observations of all providers. */
  function ExactHashEvidence(es: seq<Evidence>): Evidence
    requires es != []
  {
    var malformed := FirstInconclusive(es);
    if malformed.Some? then malformed.value
    else if exists i | 0 <= i < |es| :: IdentityOf(es[i]) != IdentityOf(es[0]) then INCONCLUSIVE(PROVIDER_DISAGREEMENT)
    else es[0]
  }

  lemma {:induction false} FirstInconclusiveFinds(es: seq<Evidence>)
    ensures FirstInconclusive(es).None? <==> forall i :: 0 <= i < |es| ==> !es[i].INCONCLUSIVE?
    ensures FirstInconclusive(es).Some? ==> FirstInconclusive(es).value.INCONCLUSIVE?
  {
    if es != [] && !es[0].INCONCLUSIVE? {
      FirstInconclusiveFinds(es[1..]);
      if FirstInconclusive(es[1..]).None? {
        forall i | 0 <= i < |es| ensures !es[i].INCONCLUSIVE? {
          if i > 0 {
            assert es[1..][i - 1] == es[i];
          }
        }
      }
    }
  }

  /** Two conclusive observations that agree: one receipt up to its gas fields, one nonce, or
      the same two counts. */
  predicate Agree(a: Evidence, b: Evidence) {
    || (a.RECEIPT? && b.RECEIPT? && a.receipt.tx == b.receipt.tx && a.receipt.success == b.receipt.success && a.receipt.block == b.receipt.block)
    || (a.PENDING? && b.PENDING? && a.nonce == b.nonce)
    || (a.ABSENT? && b.ABSENT? && a.latest == b.latest && a.pending == b.pending)
  }

  lemma {:induction false} FirstInconclusiveIs(es: seq<Evidence>) returns (i: nat)
    requires FirstInconclusive(es).Some?
    ensures i < |es| && es[i] == FirstInconclusive(es).value && es[i].INCONCLUSIVE?
    ensures forall k :: 0 <= k < i ==> !es[k].INCONCLUSIVE?
  {
    if es[0].INCONCLUSIVE? {
      i := 0;
    } else {
      i := FirstInconclusiveIs(es[1..]);
      i := i + 1;
    }
  }

  /** What several providers amount to: the first observation when they all agree, the first
      inconclusive one when there is any, and a disagreement otherwise. */
  lemma ExactHashIff(es: seq<Evidence>)
    requires es != []
    ensures var r := ExactHashEvidence(es);
            && (!r.INCONCLUSIVE? <==> forall i :: 0 <= i < |es| ==> Agree(es[i], es[0]))
            && (!r.INCONCLUSIVE? ==> r == es[0])
            && (r.INCONCLUSIVE? ==>
                  if forall i :: 0 <= i < |es| ==> !es[i].INCONCLUSIVE? then r.reason.PROVIDER_DISAGREEMENT?
                  else exists i :: 0 <= i < |es| && es[i] == r && forall k :: 0 <= k < i ==> !es[k].INCONCLUSIVE?)
  {
    FirstInconclusiveFinds(es);
    if FirstInconclusive(es).Some? {
      var i := FirstInconclusiveIs(es);
    } else {
      assert forall i :: 0 <= i < |es| ==> (IdentityOf(es[i]) == IdentityOf(es[0]) <==> Agree(es[i], es[0]));
    }
  }

  predicate Unanimous(es: seq<Evidence>, id: Identity) {
    id != IdNone && forall i :: 0 <= i < |es| ==> IdentityOf(es[i]) == id
  }

  /** Conclusive evidence means exactly that every provider answered and all reported the
      same identity; it is then the identity of the result. */
  lemma ConclusiveIsUnanimous(es: seq<Evidence>)
    requires es != []
    ensures !ExactHashEvidence(es).INCONCLUSIVE? <==> exists id :: Unanimous(es, id)
    ensures !ExactHashEvidence(es).INCONCLUSIVE? ==> Unanimous(es, IdentityOf(ExactHashEvidence(es)))
  {
    FirstInconclusiveFinds(es);
    var r := ExactHashEvidence(es);
    if !r.INCONCLUSIVE? {
      assert Unanimous(es, IdentityOf(r));
    }
    forall id | Unanimous(es, id) ensures !r.INCONCLUSIVE? {
      assert IdentityOf(es[0]) == id;
    }
  }

  // ---- the bounded probe after a broadcast ----

  const PROBE_ROUNDS := 4

  /** Evidence that stops the probe: terminal, pending, or a consumed nonce. */
  predicate Decisive(e: Evidence, nonce: nat) {
    e.RECEIPT? || e.PENDING? || (e.ABSENT? && (e.latest > nonce || e.pending > nonce))
  }

  /** The first decisive evidence of the rounds, or the last. */
  function Deciding(rounds: seq<seq<Evidence>>, nonce: nat): Evidence
    requires rounds != [] && forall k :: 0 <= k < |rounds| ==> rounds[k] != []
  {
    var e := ExactHashEvidence(rounds[0]);
    if Decisive(e, nonce) || |rounds| == 1 then e else Deciding(rounds[1..], nonce)
  }

  lemma {:induction false} DecidingIs(rounds: seq<seq<Evidence>>, nonce: nat, used: nat)
    requires 0 < used <= |rounds| && forall k :: 0 <= k < |rounds| ==> rounds[k] != []
    requires forall k :: 0 <= k < used - 1 ==> !Decisive(ExactHashEvidence(rounds[k]), nonce)
    requires Decisive(ExactHashEvidence(rounds[used - 1]), nonce) || used == |rounds|
    ensures Deciding(rounds, nonce) == ExactHashEvidence(rounds[used - 1])
  {
    if used > 1 {
      assert forall k :: 0 <= k < |rounds[1..]| ==> rounds[1..][k] == rounds[k + 1];
      DecidingIs(rounds[1..], nonce, used - 1);
    }
  }

  /** `boundedPostBroadcastExactHashProbe`: `rounds[k]` is what the providers would say
      after the k-th delay. The result is the first decisive evidence, or the last. */
  method BoundedProbe(rounds: seq<seq<Evidence>>, nonce: nat) returns (e: Evidence, used: nat)
    requires |rounds| == PROBE_ROUNDS && forall k :: 0 <= k < |rounds| ==> rounds[k] != []
    ensures 0 < used <= 4 && e == ExactHashEvidence(rounds[used - 1])
    ensures forall k :: 0 <= k < used - 1 ==> !Decisive(ExactHashEvidence(rounds[k]), nonce)
    ensures Decisive(e, nonce) || used == 4
    ensures e == Deciding(rounds, nonce)
    ensures used < 4 ==> e.RECEIPT? || e.PENDING? || (e.ABSENT? && (e.latest > nonce || e.pending > nonce))
    ensures forall k :: 0 <= k < used - 1 ==>
              var early := ExactHashEvidence(rounds[k]);
              early.INCONCLUSIVE? || (early.ABSENT? && early.latest <= nonce && early.pending <= nonce)
  {
    e, used := INCONCLUSIVE(PROVIDER_ERROR), 0;
    while used < PROBE_ROUNDS
      invariant 0 <= used <= PROBE_ROUNDS
      invariant used > 0 ==> e == ExactHashEvidence(rounds[used - 1])
      invariant forall k :: 0 <= k < used ==> !Decisive(ExactHashEvidence(rounds[k]), nonce)
    {
      e := ExactHashEvidence(rounds[used]);
      used := used + 1;
      if Decisive(e, nonce) {
        DecidingIs(rounds, nonce, used);
        return;
      }
    }
    DecidingIs(rounds, nonce, used);
  }

  // ---- the chain behind the providers ----

  /** The mined transactions of the wallet, in nonce order, and those waiting. */
  datatype Chain = Chain(mined: seq<Receipt>, pool: set<Tx>)

  /** Each account nonce is consumed once, in order (Ethereum Yellow Paper, section 6). */
  predicate ChainOk(c: Chain) {
    && (forall i :: 0 <= i < |c.mined| ==> c.mined[i].tx.nonce == i && ValidReceipt(c.mined[i], c.mined[i].tx))
    && (forall t <- c.pool :: t.nonce >= |c.mined|)
  }

  predicate Mined(c: Chain, tx: Tx) {
    tx.nonce < |c.mined| && c.mined[tx.nonce].tx == tx
  }

  predicate Succeeded(c: Chain, tx: Tx) {
    Mined(c, tx) && c.mined[tx.nonce].success
  }

  /** The replies of a provider that answers all its calls from one snapshot. */
  predicate HonestReplies(c: Chain, tx: Tx, receipt: Reply<Receipt>, transaction: Reply<TxReply>, latest: Reply<int>, pending: Reply<int>) {
    && receipt == (if Mined(c, tx) then Found(c.mined[tx.nonce]) else NotFound)
    && transaction == (if tx in c.pool then Found(TxReply(tx, tx.nonce, true, None)) else NotFound)
    && latest == Found(|c.mined|)
    && pending.Found? && pending.value >= |c.mined|
  }

  /** Evidence that one atomic snapshot of the chain justifies. */
  predicate Justified(c: Chain, tx: Tx, e: Evidence) {
    match e
    case RECEIPT(r) => Mined(c, tx) && c.mined[tx.nonce].tx == r.tx && c.mined[tx.nonce].success == r.success
    case PENDING(n) => tx in c.pool && n == tx.nonce
    case ABSENT(latest, pending) => !Mined(c, tx) && tx !in c.pool && latest == |c.mined| && latest <= pending
    case INCONCLUSIVE(_) => true
  }

  /** A provider that answers from one snapshot yields conclusive evidence, and the kind of
      the evidence is exactly where the transaction is. */
  lemma HonestProviderIsExact(c: Chain, tx: Tx, receipt: Reply<Receipt>, transaction: Reply<TxReply>, latest: Reply<int>, pending: Reply<int>)
    requires ChainOk(c) && HonestReplies(c, tx, receipt, transaction, latest, pending)
    ensures var e := ProviderEvidence(receipt, transaction, latest, pending, tx, Some(tx.nonce));
            !e.INCONCLUSIVE? && Justified(c, tx, e)
            && (e.RECEIPT? <==> Mined(c, tx)) && (e.PENDING? <==> tx in c.pool)
  {
  }

  // ---- later chains ----

  /** `d` continues `c`: what is mined stays mined. */
  predicate Extends(c: Chain, d: Chain) {
    ChainOk(d) && c.mined <= d.mined
  }

  predicate NeverMined(c: Chain, tx: Tx) {
    forall i :: 0 <= i < |c.mined| ==> c.mined[i].tx != tx
  }

  /** The failure the journal reconciler records is final: a transaction that is absent while
      the latest count is past its nonce is mined on no continuation of the chain. */
  lemma ConsumedNonceIsFinal(c: Chain, tx: Tx, latest: nat, pending: nat, d: Chain)
    requires Justified(c, tx, ABSENT(latest, pending)) && latest > tx.nonce && Extends(c, d)
    ensures !Mined(d, tx) && NeverMined(d, tx)
  {
    forall i | 0 <= i < |d.mined| ensures d.mined[i].tx != tx {
      if i == tx.nonce {
        assert c.mined[i] == d.mined[i];
      }
    }
  }

  function Filler(from: nat, to: nat): (r: seq<Receipt>)
    requires from <= to
    ensures |r| == to - from && forall i :: 0 <= i < |r| ==> r[i].tx.nonce == from + i && ValidReceipt(r[i], r[i].tx)
  {
    seq(to - from, i requires 0 <= i => Receipt(Tx(from + i, 0), true, 0, 0, 0))
  }

  /** The other direction: absent with a latest count that has not passed the nonce never
      justifies a failure, whatever the pending count says: some continuation mines the
      transaction, successfully. */
  lemma OpenNonceIsNotFinal(c: Chain, tx: Tx, latest: nat, pending: nat) returns (d: Chain)
    requires ChainOk(c) && Justified(c, tx, ABSENT(latest, pending)) && latest <= tx.nonce
    ensures Extends(c, d) && Succeeded(d, tx)
  {
    d := Chain(c.mined + Filler(|c.mined|, tx.nonce) + [Receipt(tx, true, 0, 0, 0)], {});
  }

  /** The three reads taken from different snapshots justify nothing: a transaction that was
      not found in one and whose nonce is consumed in a later one may be exactly the one
      that consumed it. */
  lemma NonAtomicReadsMislead(tx: Tx) returns (c: Chain, d: Chain)
    ensures ChainOk(c) && Extends(c, d)
    ensures !Mined(c, tx) && tx !in c.pool && |d.mined| > tx.nonce && Succeeded(d, tx)
  {
    c := Chain(Filler(0, tx.nonce), {});
    d := Chain(c.mined + [Receipt(tx, true, 0, 0, 0)], {});
  }

  // ---- evidence that is acted on later ----

  /** Evidence that some earlier snapshot of the chain justified: more may have been mined
      since it was read. */
  ghost predicate JustifiedEarlier(d: Chain, tx: Tx, e: Evidence) {
    exists c: Chain :: c.mined <= d.mined && Justified(c, tx, e)
  }

  /** The transaction can no longer succeed: its nonce is consumed, not by a success of it. */
  predicate Dead(c: Chain, tx: Tx) {
    tx.nonce < |c.mined| && !Succeeded(c, tx)
  }

  lemma DeadStays(c: Chain, d: Chain, tx: Tx)
    requires c.mined <= d.mined
    ensures Dead(c, tx) ==> Dead(d, tx)
    ensures Succeeded(c, tx) ==> Succeeded(d, tx)
  {
    if tx.nonce < |c.mined| {
      assert d.mined[tx.nonce] == c.mined[tx.nonce];
    }
  }

  /** What old evidence still says: a receipt stays one, and a consumed nonce stays consumed. */
  lemma EarlierEvidenceHolds(d: Chain, tx: Tx, e: Evidence)
    requires JustifiedEarlier(d, tx, e)
    ensures e.RECEIPT? && e.receipt.success ==> Succeeded(d, tx)
    ensures e.RECEIPT? && !e.receipt.success ==> Dead(d, tx)
    ensures e.ABSENT? && e.latest > tx.nonce ==> Dead(d, tx)
  {
    var c: Chain :| c.mined <= d.mined && Justified(c, tx, e);
    if tx.nonce < |c.mined| {
      assert d.mined[tx.nonce] == c.mined[tx.nonce];
    }
  }

  /** Evidence that fails a row: a reverted receipt, or a count past the nonce. */
  predicate Fails(e: Evidence, tx: Tx) {
    (e.RECEIPT? && !e.receipt.success) || (e.ABSENT? && (e.latest > tx.nonce || e.pending > tx.nonce))
  }

  /** Only the pending count has passed the nonce. */
  predicate PendingOnly(e: Evidence, tx: Tx) {
    e.ABSENT? && e.latest <= tx.nonce && e.pending > tx.nonce
  }

  /** A failure that is right whenever it is recorded: after every snapshot that shows this
      evidence, the transaction succeeds on no chain. */
  ghost predicate Final(e: Evidence, tx: Tx) {
    forall c: Chain, d: Chain :: ChainOk(c) && Justified(c, tx, e) && Extends(c, d) ==> Dead(d, tx)
  }

  /** Exactly the failures that were not read off the pending count alone are final. */
  lemma FinalIff(e: Evidence, tx: Tx)
    requires Fails(e, tx)
    ensures Final(e, tx) <==> !PendingOnly(e, tx)
  {
    if PendingOnly(e, tx) {
      var c := Chain(Filler(0, e.latest), {});
      assert ChainOk(c) && Justified(c, tx, e);
      var d := OpenNonceIsNotFinal(c, tx, e.latest, e.pending);
      assert !Dead(d, tx);
    } else {
      forall c: Chain, d: Chain | ChainOk(c) && Justified(c, tx, e) && Extends(c, d) ensures Dead(d, tx) {
        assert JustifiedEarlier(d, tx, e);
        EarlierEvidenceHolds(d, tx, e);
      }
    }
  }
}
