/** The close reconciliation is exactly-once: when it commits, what it leaves, and that
    doing it again writes nothing. */
module LadderClose {
  import opened Prelude
  import opened LadderModel
  import opened LadderInvariant

  // ---- the mirror rows after the convergence loop ----

  predicate MirrorRowClosed(s: State, token: Token) {
    (token in s.positions ==> s.positions[token].PClosed?)
    && (token in s.v4 ==> s.v4[token].status.PClosed? && s.v4[token].liquidity == 0)
  }

  predicate TruthSettled(s: State, token: Token) {
    token in s.truth ==>
      var t := s.truth[token];
      t.owner.VERIFIED_OWNED? && t.liquidity == Some(0) && t.claimable0 == Some(0) && t.claimable1 == Some(0)
      && t.terminal == Some(CLOSED_EMPTY) && !t.confirmedActive && !t.contributesEquity && !t.failed
  }

  predicate SameIdentity(a: V4Row, b: V4Row) {
    a.intent == b.intent && a.pool == b.pool && a.tickLower == b.tickLower && a.tickUpper == b.tickUpper
  }

  /** No row appears or vanishes, no row changes whose it is, and closed rows stay closed. */
  ghost predicate RowsKept(s: State, t: State) {
    && t.positions.Keys == s.positions.Keys && t.v4.Keys == s.v4.Keys && t.truth.Keys == s.truth.Keys
    && (forall token <- s.v4 :: SameIdentity(s.v4[token], t.v4[token]))
    && (forall token: Token :: MirrorRowClosed(s, token) ==> MirrorRowClosed(t, token))
    && (forall token: Token :: TruthSettled(s, token) ==> TruthSettled(t, token))
  }

  lemma CloseTokenSettles(s: State, token: Token, funi: bool, now: int)
    ensures var t := CloseToken(s, token, funi, now).0; RowsKept(s, t) && MirrorRowClosed(t, token) && (funi ==> TruthSettled(t, token))
  {
  }

  lemma RowsKeptTransitive(s: State, t: State, u: State)
    requires RowsKept(s, t) && RowsKept(t, u)
    ensures RowsKept(s, u)
  {
    forall token <- s.v4 ensures SameIdentity(s.v4[token], u.v4[token]) {
      assert SameIdentity(s.v4[token], t.v4[token]);
    }
  }

  lemma {:induction false} CloseTokensSettles(s: State, tokens: seq<Token>, funi: bool, now: int)
    ensures var t := CloseTokens(s, tokens, funi, now).0;
            RowsKept(s, t)
            && (forall i :: 0 <= i < |tokens| ==> MirrorRowClosed(t, tokens[i]) && (funi ==> TruthSettled(t, tokens[i])))
  {
    if tokens != [] {
      var n := |tokens| - 1;
      CloseTokensSettles(s, tokens[..n], funi, now);
      var s1 := CloseTokens(s, tokens[..n], funi, now).0;
      CloseTokenSettles(s1, tokens[n], funi, now);
      var t := CloseToken(s1, tokens[n], funi, now).0;
      RowsKeptTransitive(s, s1, t);
      forall i | 0 <= i < |tokens| ensures MirrorRowClosed(t, tokens[i]) && (funi ==> TruthSettled(t, tokens[i])) {
        if i < n {
          assert tokens[..n][i] == tokens[i];
        }
      }
    }
  }

  lemma {:induction false} CloseTokensIdle(s: State, tokens: seq<Token>, funi: bool, now: int)
    requires forall i :: 0 <= i < |tokens| ==> MirrorRowClosed(s, tokens[i]) && (funi ==> TruthSettled(s, tokens[i]))
    ensures CloseTokens(s, tokens, funi, now) == (s, 0)
  {
    if tokens != [] {
      var n := |tokens| - 1;
      assert forall i :: 0 <= i < n ==> tokens[..n][i] == tokens[i];
      CloseTokensIdle(s, tokens[..n], funi, now);
      assert tokens[n] == tokens[|tokens| - 1];
      assert CloseToken(s, tokens[n], funi, now) == (s, 0);
    }
  }

  lemma {:induction false} NoneOpen(legs: seq<Leg>)
    ensures OpenLegCount(legs) == 0 <==> forall i :: 0 <= i < |legs| ==> !legs[i].status.OPEN?
  {
    if legs != [] {
      NoneOpen(legs[..|legs| - 1]);
    }
  }

  lemma CloseLegsIdle(legs: seq<Leg>, close: Option<Slot>)
    requires forall i :: 0 <= i < |legs| ==> !legs[i].status.OPEN?
    ensures CloseLegs(legs, close) == legs
  {
  }

  /** The state a convergence leaves. */
  predicate ConvergedState(s: State, funi: bool) {
    && FullyMinted(s.legs)
    && (forall i :: 0 <= i < 5 ==> !s.legs[i].status.OPEN?)
    && !s.parent.status.OPEN?
    && (forall i :: 0 <= i < 5 ==> MirrorRowClosed(s, s.legs[i].token.value) && (funi ==> TruthSettled(s, s.legs[i].token.value)))
    && CloseReset(s, funi) == (s, 0)
  }

  lemma ConvergeWritesSettle(s: State, funi: bool, now: int)
    requires FullyMinted(s.legs)
    ensures ConvergedState(ConvergeWrites(s, funi, now).0, funi)
    ensures RowsKept(s, ConvergeWrites(s, funi, now).0)
  {
    var t := ConvergeWrites(s, funi, now).0;
    ConvergeShape(s, funi, now);
    CloseTokensSettles(s, Tokens(s.legs), funi, now);
    var c := CloseTokens(s, Tokens(s.legs), funi, now).0;
    assert t.positions == c.positions && t.v4 == c.v4 && t.truth == c.truth;
    SameRowsKept(s, c, t);
    SettledAtLegs(s, t, c, funi);
    ClosesAllLegs(s.legs, CloseSlot(s));
    ResetSettles(s, t, funi);
  }

  lemma ClosesAllLegs(legs: seq<Leg>, close: Option<Slot>)
    requires FullyMinted(legs)
    ensures FullyMinted(CloseLegs(legs, close)) && forall i :: 0 <= i < 5 ==> !CloseLegs(legs, close)[i].status.OPEN?
  {
  }

  lemma SameRowsKept(s: State, c: State, t: State)
    requires RowsKept(s, c) && t.positions == c.positions && t.v4 == c.v4 && t.truth == c.truth
    ensures RowsKept(s, t)
  {
    forall token: Token | MirrorRowClosed(s, token) ensures MirrorRowClosed(t, token) {
      assert MirrorRowClosed(c, token);
    }
    forall token: Token | TruthSettled(s, token) ensures TruthSettled(t, token) {
      assert TruthSettled(c, token);
    }
  }

  lemma SettledAtLegs(s: State, t: State, c: State, funi: bool)
    requires FullyMinted(s.legs) && t.legs == CloseLegs(s.legs, CloseSlot(s))
    requires t.positions == c.positions && t.v4 == c.v4 && t.truth == c.truth
    requires var tokens := Tokens(s.legs);
             forall i :: 0 <= i < |tokens| ==> MirrorRowClosed(c, tokens[i]) && (funi ==> TruthSettled(c, tokens[i]))
    ensures forall i :: 0 <= i < 5 ==> MirrorRowClosed(t, t.legs[i].token.value) && (funi ==> TruthSettled(t, t.legs[i].token.value))
  {
    forall i | 0 <= i < 5
      ensures MirrorRowClosed(t, t.legs[i].token.value) && (funi ==> TruthSettled(t, t.legs[i].token.value))
    {
      var token := Tokens(s.legs)[i];
      assert t.legs[i].token.value == token;
      assert MirrorRowClosed(c, token) && (funi ==> TruthSettled(c, token));
    }
  }

  lemma ResetSettles(s: State, t: State, funi: bool)
    requires t.reset == CloseReset(s, funi).0.reset
    ensures CloseReset(t, funi) == (t, 0)
  {
  }

  lemma ConvergeWritesIdle(s: State, funi: bool, now: int)
    requires ConvergedState(s, funi)
    ensures ConvergeWrites(s, funi, now) == (s, 0)
  {
    var tokens := Tokens(s.legs);
    forall i | 0 <= i < |tokens| ensures MirrorRowClosed(s, tokens[i]) && (funi ==> TruthSettled(s, tokens[i])) {
      assert tokens[i] == s.legs[i].token.value;
    }
    CloseTokensIdle(s, tokens, funi, now);
    NoneOpen(s.legs);
    CloseLegsIdle(s.legs, CloseSlot(s));
  }

  /** A convergence that committed can be repeated at the same time: nothing blocks it and
      it performs zero writes, whichever provenance it had. */
  lemma ConvergeTwice(s: State, requested: Option<Provenance>, now: int)
    requires Converge(s, requested, now).Ok?
    ensures var t := Converge(s, requested, now).value.0;
            Converge(t, requested, now) == Ok((t, 0))
  {
    var funi := ChosenProvenance(s, requested).FUNI_CLOSE_CONFIRMED?;
    var t := Converge(s, requested, now).value.0;
    ConvergeShape(s, funi, now);
    ConvergeWritesSettle(s, funi, now);
    assert Rows(t, CLOSE_BATCH) == Rows(s, CLOSE_BATCH);
    ConvergeUnblocks(s, requested, now);
    ConvergeWritesIdle(t, funi, now);
  }

  // ---- what a convergence records ----

  predicate ConfirmedByFuni(s: State) {
    ConfirmedClose(Rows(s, CLOSE_BATCH)).Some?
  }

  /** An open parent is closed one revision up, as FUNI's own close exactly when a close of
      FUNI is confirmed, and as an unknown external one otherwise. */
  predicate ParentConverged(p: Parent, q: Parent, funi: bool, now: int) {
    if !p.status.OPEN? then q == p
    else
      && q.status.CLOSED? && q.revision == p.revision + 1 && q.updatedAt == now
      && q.live == p.live && q.pool == p.pool && q.cancelReason == p.cancelReason
      && (FuniClosed(q) <==> funi) && (ExternallyClosed(q) <==> !funi)
      && (!funi ==> q.closeProvenance == Some(UNKNOWN_EXTERNAL))
  }

  /** Every leg is closed; one that was bound to no close is bound to the confirmed one. */
  predicate LegConverged(leg: Leg, now: Leg, close: Option<nat>) {
    && now.status.CLOSED? && now.token == leg.token && now.openBatch == leg.openBatch
    && now.tickLower == leg.tickLower && now.tickUpper == leg.tickUpper
    && (leg.closeBatch.Some? || !leg.status.OPEN? || close.None? ==> now.closeBatch == leg.closeBatch)
    && (leg.closeBatch.None? && leg.status.OPEN? && close.Some? ==> now.closeBatch == Some(Slot(CLOSE_BATCH, close.value)))
  }

  /** A close of FUNI ends a reset that was watching as an operator close; an external one
      blocks every reset that is not over. */
  predicate ResetConverged(r: Option<Reset>, q: Option<Reset>, funi: bool) {
    if r.None? then q.None?
    else if funi && r.value.phase.WATCHING? then
      q.Some? && q.value.phase.OPERATOR_CLOSED? && q.value.closeReason == Some(NORMAL_OPERATOR_CLOSE)
      && q.value.revision == r.value.revision + 1 && q.value.identity.Some? && (r.value.identity.Some? ==> q.value.identity == r.value.identity)
    else if !funi && !r.value.phase.BLOCKED? && !r.value.phase.COMPLETED? && !r.value.phase.OPERATOR_CLOSED? then
      q == Some(Reset(BLOCKED, r.value.revision + 1, r.value.closeReason, r.value.identity))
    else q == r
  }

  lemma ConvergeRecords(s: State, requested: Option<Provenance>, now: int)
    requires Inv(s) && Converge(s, requested, now).Ok?
    ensures var t := Converge(s, requested, now).value.0; var funi := ConfirmedByFuni(s);
            && t.id == s.id && t.journal == s.journal && |t.legs| == |s.legs|
            && ParentConverged(s.parent, t.parent, funi, now)
            && (forall i :: 0 <= i < |s.legs| ==> LegConverged(s.legs[i], t.legs[i], ConfirmedClose(Rows(s, CLOSE_BATCH))))
            && ResetConverged(s.reset, t.reset, funi)
  {
    var funi := ConfirmedByFuni(s);
    assert ChosenProvenance(s, requested).FUNI_CLOSE_CONFIRMED? == funi;
    ConvergeShape(s, funi, now);
    assert s.legs[0].token.Some?;
    ParentRecords(s.parent, funi, now);
    LegsRecord(s.legs, CloseSlot(s), ConfirmedClose(Rows(s, CLOSE_BATCH)));
    ResetRecords(s, funi);
  }

  lemma ParentRecords(p: Parent, funi: bool, now: int)
    ensures ParentConverged(p, CloseParent(p, funi, now), funi, now)
  {
  }

  lemma LegsRecord(legs: seq<Leg>, slot: Option<Slot>, close: Option<nat>)
    requires forall i :: 0 <= i < |legs| ==> legs[i].status.OPEN? || legs[i].status.CLOSED?
    requires slot == match close case Some(k) => Some(Slot(CLOSE_BATCH, k)) case None => None
    ensures |CloseLegs(legs, slot)| == |legs| && forall i :: 0 <= i < |legs| ==> LegConverged(legs[i], CloseLegs(legs, slot)[i], close)
  {
  }

  lemma ResetRecords(s: State, funi: bool)
    ensures ResetConverged(s.reset, CloseReset(s, funi).0.reset, funi)
  {
  }

  /** The position is read as owned, empty and fee-free, by a fresh reading without an error. */
  predicate KnownEmpty(s: State, leg: Leg, now: int) {
    && leg.token.Some? && leg.token.value in s.truth
    && var t := s.truth[leg.token.value];
       t.owner.VERIFIED_OWNED? && t.liquidity == Some(0) && t.claimable0 == Some(0) && t.claimable1 == Some(0)
       && t.terminal == Some(CLOSED_EMPTY) && t.freshUntil >= now && !t.failed
  }

  /** When a convergence commits: all five positions are minted and of this ladder, a requested
      provenance is the one the journal shows, nothing is in progress, and without a confirmed
      close of FUNI every position is known to be empty. */
  lemma ConvergesIff(s: State, requested: Option<Provenance>, now: int)
    ensures Converge(s, requested, now).Ok? <==>
              && Minted5(s) && NothingInProgress(s) && OfThisLadder(s)
              && (requested.Some? ==> (requested.value.FUNI_CLOSE_CONFIRMED? <==> ConfirmedByFuni(s)))
              && (ConfirmedByFuni(s) || forall i :: 0 <= i < 5 ==> KnownEmpty(s, s.legs[i], now))
  {
    ConvergenceErrors(s, requested, now);
  }

  predicate Minted5(s: State) {
    |s.legs| == 5 && forall i :: 0 <= i < 5 ==> s.legs[i].token.Some?
  }

  predicate NothingInProgress(s: State) {
    forall stage <- s.journal, i | 0 <= i < |s.journal[stage]| :: s.journal[stage][i].status.CONFIRMED? || s.journal[stage][i].status.FAILED?
  }

  predicate OfThisLadder(s: State)
    requires Minted5(s)
  {
    forall i :: 0 <= i < 5 ==> s.legs[i].token.value in s.v4 && s.v4[s.legs[i].token.value].intent == Some(s.id)
  }

  /** With which error it throws otherwise: the first of these that applies. */
  lemma ConvergenceErrors(s: State, requested: Option<Provenance>, now: int)
    ensures var e := ConvergenceBlocker(s, requested, now); var funi := ConfirmedByFuni(s);
            var fits := requested.Some? ==> (requested.value.FUNI_CLOSE_CONFIRMED? <==> funi);
            var known := funi || forall i :: 0 <= i < |s.legs| ==> KnownEmpty(s, s.legs[i], now);
            && (e == Some(IDENTITY_INCOMPLETE) <==> !Minted5(s))
            && (e == Some(FUNI_RECEIPT_REQUIRED) <==> Minted5(s) && !fits && !funi)
            && (e == Some(PROVENANCE_CONFLICT) <==> Minted5(s) && !fits && funi)
            && (e == Some(TRANSACTION_IN_PROGRESS) <==> Minted5(s) && fits && !NothingInProgress(s))
            && (e == Some(EVIDENCE_INCOMPLETE_OR_STALE) <==> Minted5(s) && fits && NothingInProgress(s) && !known)
            && (e == Some(TOKEN_LINEAGE_MISMATCH) <==> Minted5(s) && fits && NothingInProgress(s) && known && !OfThisLadder(s))
  {
    if Minted5(s) {
      var tokens := Tokens(s.legs);
      assert forall i :: 0 <= i < 5 ==> tokens[i] == s.legs[i].token.value;
      assert forall i :: 0 <= i < 5 ==> tokens[i] in tokens;
    }
  }

  /** The newest confirmed row, by a receipt that succeeded. */
  predicate IsConfirmedClose(rows: seq<JournalRow>, k: nat) {
    && k < |rows| && rows[k].status.CONFIRMED? && rows[k].receipt.Some? && rows[k].receipt.value.success
    && forall j :: k < j < |rows| ==> !rows[j].status.CONFIRMED?
  }

  lemma {:induction false} ConfirmedCloseIs(rows: seq<JournalRow>)
    ensures ConfirmedClose(rows).Some? ==> IsConfirmedClose(rows, ConfirmedClose(rows).value)
    ensures forall k: nat :: IsConfirmedClose(rows, k) ==> ConfirmedClose(rows) == Some(k)
  {
    if rows != [] {
      var n := |rows| - 1;
      ConfirmedCloseIs(rows[..n]);
      if !rows[n].status.CONFIRMED? {
        forall k: nat | IsConfirmedClose(rows, k) ensures ConfirmedClose(rows) == Some(k) {
          assert IsConfirmedClose(rows[..n], k);
        }
      }
    }
  }

  /** A settled truth row was checked, and is fresh, at least until now. */
  predicate SettledFrom(a: Truth, b: Truth, now: int) {
    b == a || (b.checkedAt == (if a.checkedAt > now then a.checkedAt else now)
               && b.freshUntil == (if a.freshUntil > now then a.freshUntil else now))
  }

  lemma {:induction false} TruthTimes(s: State, tokens: seq<Token>, funi: bool, now: int)
    ensures var t := CloseTokens(s, tokens, funi, now).0;
            forall token <- s.truth :: token in t.truth && SettledFrom(s.truth[token], t.truth[token], now)
  {
    if tokens != [] {
      TruthTimes(s, tokens[..|tokens| - 1], funi, now);
    }
  }

  /** The mirror rows of other tokens stay as they are. */
  predicate OthersKept(s: State, t: State, tokens: seq<Token>) {
    && (forall other <- s.positions :: other !in tokens ==> other in t.positions && t.positions[other] == s.positions[other])
    && (forall other <- s.v4 :: other !in tokens ==> other in t.v4 && t.v4[other] == s.v4[other])
    && (forall other <- s.truth :: other !in tokens ==> other in t.truth && t.truth[other] == s.truth[other])
  }

  lemma {:induction false} CloseTokensKeepOthers(s: State, tokens: seq<Token>, funi: bool, now: int)
    ensures OthersKept(s, CloseTokens(s, tokens, funi, now).0, tokens)
  {
    if tokens != [] {
      var n := |tokens| - 1;
      CloseTokensKeepOthers(s, tokens[..n], funi, now);
      assert forall other :: other !in tokens ==> other !in tokens[..n] && other != tokens[n];
    }
  }

  /** And what it leaves in the mirror tables: the five positions closed and empty, their truth
      settled by a close of FUNI and left alone otherwise, and nothing else touched. */
  lemma ConvergeMirrors(s: State, requested: Option<Provenance>, now: int)
    requires Inv(s) && Converge(s, requested, now).Ok?
    ensures var t := Converge(s, requested, now).value.0; var funi := ConfirmedByFuni(s);
            && FullyMinted(s.legs) && RowsKept(s, t) && OthersKept(s, t, Tokens(s.legs)) && (!funi ==> t.truth == s.truth)
            && (forall token <- s.truth :: token in t.truth && SettledFrom(s.truth[token], t.truth[token], now))
            && forall i :: 0 <= i < 5 ==> MirrorRowClosed(t, s.legs[i].token.value) && (funi ==> TruthSettled(t, s.legs[i].token.value))
  {
    var funi := ConfirmedByFuni(s);
    assert ChosenProvenance(s, requested).FUNI_CLOSE_CONFIRMED? == funi;
    MirrorsRecord(s, funi, now);
    TruthTimes(s, Tokens(s.legs), funi, now);
    ConvergeShape(s, funi, now);
  }

  lemma MirrorsRecord(s: State, funi: bool, now: int)
    requires FullyMinted(s.legs)
    ensures var t := ConvergeWrites(s, funi, now).0;
            && RowsKept(s, t) && OthersKept(s, t, Tokens(s.legs)) && (!funi ==> t.truth == s.truth)
            && forall i :: 0 <= i < 5 ==> MirrorRowClosed(t, s.legs[i].token.value) && (funi ==> TruthSettled(t, s.legs[i].token.value))
  {
    var t, c := ConvergeWrites(s, funi, now).0, CloseTokens(s, Tokens(s.legs), funi, now).0;
    ConvergeWritesSettle(s, funi, now);
    ConvergeShape(s, funi, now);
    CloseTokensKeepOthers(s, Tokens(s.legs), funi, now);
    assert t.positions == c.positions && t.v4 == c.v4 && t.truth == c.truth;
    assert forall i :: 0 <= i < 5 ==> t.legs[i].token == s.legs[i].token;
    if !funi {
      ExternalKeepsTruth(s, Tokens(s.legs), now);
    }
  }

  lemma {:induction false} NoTokenWrites(s: State, tokens: seq<Token>, funi: bool, now: int)
    requires CloseTokens(s, tokens, funi, now).1 == 0
    ensures CloseTokens(s, tokens, funi, now).0 == s
  {
    if tokens != [] {
      NoTokenWrites(s, tokens[..|tokens| - 1], funi, now);
    }
  }

  /** The convergence reports no writes exactly when it changes nothing. */
  lemma WritesAreChanges(s: State, requested: Option<Provenance>, now: int)
    requires Converge(s, requested, now).Ok?
    ensures var (t, writes) := Converge(s, requested, now).value; writes == 0 <==> t == s
  {
    var funi := ChosenProvenance(s, requested).FUNI_CLOSE_CONFIRMED?;
    var (t, writes) := ConvergeWrites(s, funi, now);
    if writes == 0 {
      NoTokenWrites(s, Tokens(s.legs), funi, now);
      NoneOpen(s.legs);
      CloseLegsIdle(s.legs, CloseSlot(s));
    } else if t == s {
      ConvergeTwice(s, requested, now);
    }
  }

  lemma ConvergeUnblocks(s: State, requested: Option<Provenance>, now: int)
    requires Converge(s, requested, now).Ok?
    ensures ConvergenceBlocker(Converge(s, requested, now).value.0, requested, now).None?
  {
    var funi := ChosenProvenance(s, requested).FUNI_CLOSE_CONFIRMED?;
    var t := Converge(s, requested, now).value.0;
    ConvergeShape(s, funi, now);
    ConvergeWritesSettle(s, funi, now);
    assert Tokens(t.legs) == Tokens(s.legs);
    LineageStays(s, t);
    if !funi {
      EvidenceStays(s, t, now);
    }
  }

  lemma LineageStays(s: State, t: State)
    requires FullyMinted(s.legs) && t.id == s.id && RowsKept(s, t)
    requires forall token <- Tokens(s.legs) :: Lineage(s, token)
    ensures forall token <- Tokens(s.legs) :: Lineage(t, token)
  {
    forall token <- Tokens(s.legs) ensures Lineage(t, token) {
      assert Lineage(s, token);
    }
  }

  lemma EvidenceStays(s: State, t: State, now: int)
    requires FullyMinted(s.legs) && t == ConvergeWrites(s, false, now).0
    requires forall token <- Tokens(s.legs) :: EmptyOwned(s.truth, token, now)
    ensures forall token <- Tokens(s.legs) :: EmptyOwned(t.truth, token, now)
  {
    ExternalKeepsTruth(s, Tokens(s.legs), now);
    assert t.truth == s.truth;
  }

  lemma {:induction false} ExternalKeepsTruth(s: State, tokens: seq<Token>, now: int)
    ensures CloseTokens(s, tokens, false, now).0.truth == s.truth
  {
    if tokens != [] {
      ExternalKeepsTruth(s, tokens[..|tokens| - 1], now);
    }
  }

  // ---- the mirrors after the convergence ----

  predicate MirrorsClosed(s: State) {
    forall i :: 0 <= i < |s.legs| ==> MirrorPresent(s, s.legs[i]) && s.legs[i].status.CLOSED?
                                      && MirrorRowClosed(s, s.legs[i].token.value)
  }

  lemma {:induction false} MirrorLegsIdle(s: State, n: nat)
    requires n <= |s.legs| && MirrorsClosed(s)
    ensures MirrorLegs(s, n) == Some((s, MirrorWrites(0, 0, 0, 0)))
  {
    if n > 0 {
      MirrorLegsIdle(s, n - 1);
    }
  }

  predicate MirrorsPresent(s: State) {
    forall i :: 0 <= i < |s.legs| ==> MirrorPresent(s, s.legs[i])
  }

  /** After a convergence of an agreeing ladder the mirror update has nothing left to do,
      and it throws exactly when a mirror row is missing or belongs elsewhere. */
  lemma MirrorsAfterConvergence(s: State, funi: bool, now: int)
    requires Agree(s) && FullyMinted(s.legs)
    ensures var c := ConvergeWrites(s, funi, now).0;
            CloseCanonicalMirrors(c, now) == if MirrorsPresent(s) then Some((c, MirrorWrites(0, 0, 0, 0))) else None
  {
    var c := ConvergeWrites(s, funi, now).0;
    ConvergeShape(s, funi, now);
    ConvergeWritesSettle(s, funi, now);
    assert s.legs[0].token.Some?;
    forall i | 0 <= i < 5 ensures MirrorPresent(c, c.legs[i]) <==> MirrorPresent(s, s.legs[i]) {
      assert c.legs[i].token == s.legs[i].token && c.legs[i].tickLower == s.legs[i].tickLower;
    }
    if MirrorsPresent(s) {
      assert MirrorsClosed(c);
      MirrorLegsIdle(c, 5);
    } else {
      var i :| 0 <= i < 5 && !MirrorPresent(s, s.legs[i]);
      if MirrorLegs(c, 5).Some? {
        MirrorLegsPresent(c, 5, i);
      }
    }
  }

  lemma {:induction false} MirrorLegsPresent(s: State, n: nat, i: nat)
    requires i < n <= |s.legs| && MirrorLegs(s, n).Some?
    ensures MirrorPresent(s, s.legs[i])
  {
    MirrorLegsFrame(s, n - 1);
    MirrorRowsFrame(s, n - 1);
    if i < n - 1 {
      MirrorLegsPresent(s, n - 1, i);
    }
  }

  lemma {:induction false} MirrorRowsFrame(s: State, n: nat)
    requires n <= |s.legs| && MirrorLegs(s, n).Some?
    ensures var t := MirrorLegs(s, n).value.0;
            t.positions.Keys == s.positions.Keys && t.v4.Keys == s.v4.Keys
            && forall token <- s.v4 :: SameIdentity(s.v4[token], t.v4[token])
  {
    if n > 0 {
      MirrorRowsFrame(s, n - 1);
    }
  }

  // ---- the close reconciliation ----

  /** The reset row lets a close with this reason through. */
  predicate ReasonAdmitted(s: State, reason: CloseReason) {
    s.reset.None?
    || match reason
       case USDG_RESET_REPOSITION =>
         CloseUnderway(s.reset.value.phase) && Manual(s.reset.value.identity)
         && (s.reset.value.closeReason.None? || s.reset.value.closeReason.value.USDG_RESET_REPOSITION?)
         && |Rows(s, CLOSE_BATCH)| == 1
       case NORMAL_OPERATOR_CLOSE =>
         s.reset.value.phase.OPEN_PENDING? || s.reset.value.phase.WATCHING? || s.reset.value.phase.OPERATOR_CLOSED?
  }

  /** Every leg is unbound, or bound to the confirmed attempt `k`. */
  predicate BoundTo(legs: seq<Leg>, k: nat) {
    forall i :: 0 <= i < |legs| ==> legs[i].closeBatch.None? || legs[i].closeBatch == Some(Slot(CLOSE_BATCH, k))
  }

  /** What must already hold in the rows for the close to be reconciled. */
  predicate Reconcilable(s: State, receipt: Receipt, reason: CloseReason) {
    var k := ConfirmedClose(Rows(s, CLOSE_BATCH));
    && k.Some? && Rows(s, CLOSE_BATCH)[k.value].hash == receipt.hash
    && !AnyUnresolved(s)
    && MirrorsPresent(s)
    && ReasonAdmitted(s, reason)
    && BoundTo(s.legs, k.value)
  }

  lemma {:induction false} ConfirmedCloseIsNewest(rows: seq<JournalRow>)
    requires RowsOk(rows)
    ensures var k := ConfirmedClose(rows);
            k.Some? ==> k.value == |rows| - 1 && SuccessRow(rows[k.value])
    ensures ConfirmedClose(rows).None? ==> forall i :: 0 <= i < |rows| ==> !SuccessRow(rows[i])
  {
    if rows != [] && !rows[|rows| - 1].status.CONFIRMED? {
      ConfirmedCloseIsNewest(rows[..|rows| - 1]);
      forall i | 0 <= i < |rows| ensures !SuccessRow(rows[i]) {
        if i < |rows| - 1 {
          assert rows[..|rows| - 1][i] == rows[i];
        }
      }
    }
  }

  /** The reset step of the reconciliation, on the converged ladder. */
  lemma ResetAfterConvergence(s: State, reason: CloseReason, now: int)
    requires Inv(s) && s.parent.status.OPEN? && ConfirmedClose(Rows(s, CLOSE_BATCH)).Some?
    ensures var c := ConvergeWrites(s, true, now).0;
            (ReconcileReset(c, reason).Some? <==> ReasonAdmitted(s, reason))
            && (ReconcileReset(c, reason).Some? ==>
                  ReconcileReset(c, reason).value == c.(reset := ReconcileReset(c, reason).value.reset))
  {
    ConvergeShape(s, true, now);
    RowsAreOk(s, CLOSE_BATCH);
    ConfirmedCloseIsNewest(Rows(s, CLOSE_BATCH));
    var c := ConvergeWrites(s, true, now).0;
    assert Rows(c, CLOSE_BATCH) == Rows(s, CLOSE_BATCH);
    assert FuniClosed(c.parent);
    if s.reset.Some? {
      assert !Converged(s.reset.value.phase);
    }
  }

  lemma ReconcileUnblocked(s: State, now: int)
    requires FullyMinted(s.legs) && MirrorsPresent(s) && !AnyUnresolved(s) && ConfirmedClose(Rows(s, CLOSE_BATCH)).Some?
    ensures ConvergenceBlocker(s, Some(FUNI_CLOSE_CONFIRMED), now).None?
  {
    forall token <- Tokens(s.legs) ensures Lineage(s, token) {
      var i :| 0 <= i < 5 && Tokens(s.legs)[i] == token;
      assert MirrorPresent(s, s.legs[i]);
    }
  }

  /** The asserted postcondition, on the state the three steps leave. */
  lemma PostconditionExactly(s: State, receipt: Receipt, t: State, now: int)
    requires Inv(s) && s.parent.status.OPEN? && MirrorsPresent(s)
    requires ConfirmedClose(Rows(s, CLOSE_BATCH)).Some?
    requires t == ConvergeWrites(s, true, now).0.(reset := t.reset)
    ensures var k := ConfirmedClose(Rows(s, CLOSE_BATCH)).value;
            ClosePostcondition(t, receipt, s.parent.revision, true, MirrorWrites(0, 0, 0, 0))
            <==> Rows(s, CLOSE_BATCH)[k].hash == receipt.hash && BoundTo(s.legs, k)
  {
    var k := ConfirmedClose(Rows(s, CLOSE_BATCH)).value;
    RowsAreOk(s, CLOSE_BATCH);
    ConfirmedCloseIsNewest(Rows(s, CLOSE_BATCH));
    ConvergeShape(s, true, now);
    ConvergeWritesSettle(s, true, now);
    assert Rows(t, CLOSE_BATCH) == Rows(s, CLOSE_BATCH);
    forall i | 0 <= i < 5
      ensures MirrorClosed(t, t.legs[i], k) <==> s.legs[i].closeBatch.None? || s.legs[i].closeBatch == Some(Slot(CLOSE_BATCH, k))
    {
      assert MirrorPresent(s, s.legs[i]);
      assert t.legs[i].token == s.legs[i].token && t.legs[i].status.CLOSED?;
    }
    assert forall j :: 0 <= j < |Rows(s, CLOSE_BATCH)| && SuccessRow(Rows(s, CLOSE_BATCH)[j]) ==> j == k;
  }

  /** From an open ladder in any reachable state the reconciliation commits exactly when
      its evidence is there: the convergence and the mirror update then always meet the
      asserted postcondition, with one revision more and no second write to any mirror. */
  lemma CloseReconciles(s: State, receipt: Receipt, reason: CloseReason, now: int)
    requires Inv(s) && s.parent.status.OPEN?
    ensures var r := ReconcileClose(s, receipt, reason, now);
            (r.Some? <==> Reconcilable(s, receipt, reason))
            && (r.Some? ==> r.value.parent.revision == s.parent.revision + 1
                            && ClosePostcondition(r.value, receipt, s.parent.revision, true, MirrorWrites(0, 0, 0, 0)))
  {
    assert FullyMinted(s.legs);
    var requested := Some(FUNI_CLOSE_CONFIRMED);
    if ConfirmedClose(Rows(s, CLOSE_BATCH)).Some? && !AnyUnresolved(s) {
      if MirrorsPresent(s) {
        ReconcileUnblocked(s, now);
      }
      MirrorsAfterConvergence(s, true, now);
      ResetAfterConvergence(s, reason, now);
      var c := ConvergeWrites(s, true, now).0;
      if MirrorsPresent(s) && ReconcileReset(c, reason).Some? {
        PostconditionExactly(s, receipt, ReconcileReset(c, reason).value, now);
      }
    }
  }

  /** A state closed by the reconciliation: nothing is left to do in it. */
  predicate Closed(s: State) {
    ConvergedState(s, true) && MirrorsClosed(s) && !AnyUnresolved(s)
    && ConfirmedClose(Rows(s, CLOSE_BATCH)).Some? && s.parent.status.CLOSED?
  }

  lemma ReconciledIsClosed(s: State, receipt: Receipt, reason: CloseReason, now: int)
    requires Inv(s) && s.parent.status.OPEN? && ReconcileClose(s, receipt, reason, now).Some?
    ensures var t := ReconcileClose(s, receipt, reason, now).value;
            Closed(t) && ReconcileReset(t, reason) == Some(t)
  {
    CloseReconciles(s, receipt, reason, now);
    MirrorsAfterConvergence(s, true, now);
    ResetAfterConvergence(s, reason, now);
    ConvergeShape(s, true, now);
    ConvergeWritesSettle(s, true, now);
    var c := ConvergeWrites(s, true, now).0;
    var t := ReconcileClose(s, receipt, reason, now).value;
    assert t == c.(reset := t.reset);
    assert Rows(t, CLOSE_BATCH) == Rows(s, CLOSE_BATCH);
    assert AnyUnresolved(t) <==> AnyUnresolved(s);
    assert s.legs[0].token.Some?;
    forall i | 0 <= i < 5
      ensures MirrorPresent(t, t.legs[i]) && t.legs[i].status.CLOSED? && MirrorRowClosed(t, t.legs[i].token.value)
              && TruthSettled(t, t.legs[i].token.value)
    {
      assert MirrorPresent(s, s.legs[i]);
      assert MirrorRowClosed(c, c.legs[i].token.value) && TruthSettled(c, c.legs[i].token.value);
    }
    ResetIsDone(c, reason);
  }

  lemma ResetIsDone(s: State, reason: CloseReason)
    requires FuniClosed(s.parent) && ReconcileReset(s, reason).Some?
    requires s.reset.Some? ==> !s.reset.value.phase.WATCHING?
    ensures var t := ReconcileReset(s, reason).value;
            ReconcileReset(t, reason) == Some(t) && CloseReset(t, true) == (t, 0)
  {
  }

  /** Repeating a committed reconciliation with the same receipt changes nothing: the
      convergence reports no writes, the mirrors are untouched, the whole state stays. */
  lemma CloseReconcilesOnce(s: State, receipt: Receipt, reason: CloseReason, now: int)
    requires Inv(s) && s.parent.status.OPEN? && ReconcileClose(s, receipt, reason, now).Some?
    ensures var t := ReconcileClose(s, receipt, reason, now).value;
            Converge(t, Some(FUNI_CLOSE_CONFIRMED), now) == Ok((t, 0))
            && CloseCanonicalMirrors(t, now) == Some((t, MirrorWrites(0, 0, 0, 0)))
            && ReconcileClose(t, receipt, reason, now) == Some(t)
  {
    var t := ReconcileClose(s, receipt, reason, now).value;
    CloseReconciles(s, receipt, reason, now);
    ReconciledIsClosed(s, receipt, reason, now);
    ReconcileUnblocked(t, now);
    ConvergeWritesIdle(t, true, now);
    MirrorLegsIdle(t, 5);
    assert ClosePostcondition(t, receipt, t.parent.revision, false, MirrorWrites(0, 0, 0, 0));
  }

  // ---- the binding of the legs to the close attempt ----

  /** An open leg is bound to the newest close attempt, if to any; a planned one to none. */
  predicate BoundToNewest(s: State) {
    && (s.parent.status.PLANNED? ==> forall i :: 0 <= i < |s.legs| ==> s.legs[i].closeBatch.None?)
    && (s.parent.status.OPEN? && Rows(s, CLOSE_BATCH) != [] ==> BoundTo(s.legs, |Rows(s, CLOSE_BATCH)| - 1))
    && (s.parent.status.OPEN? && Rows(s, CLOSE_BATCH) == [] ==> forall i :: 0 <= i < |s.legs| ==> s.legs[i].closeBatch.None?)
  }

  /** A prepare of a close attempt that has already failed and been superseded. */
  predicate Supersedes(s: State, e: Event) {
    e.EvPrepare? && e.slot.stage.CLOSE_BATCH? && e.slot.attempt < |Rows(s, CLOSE_BATCH)| - 1
  }

  /** The bindings and the number of close attempts are as before. */
  predicate SameBinding(s: State, t: State) {
    && |t.legs| == |s.legs| && (forall i :: 0 <= i < |s.legs| ==> t.legs[i].closeBatch == s.legs[i].closeBatch)
    && |Rows(t, CLOSE_BATCH)| == |Rows(s, CLOSE_BATCH)|
  }

  lemma SameBindingKeeps(s: State, t: State)
    requires BoundToNewest(s) && SameBinding(s, t) && NextStatus(s.parent.status, t.parent.status)
    ensures BoundToNewest(t)
  {
  }

  lemma BindingKept(s: State, e: Event)
    requires Inv(s) && BoundToNewest(s) && WellFormed(s, e) && !Supersedes(s, e)
    ensures BoundToNewest(Step(s, e))
  {
    if Attempted(s, e).Some? {
      if e.EvPrepare? {
        PrepareBinds(s, e.slot, e.hash, e.reason, e.auth, e.now);
      } else if e.EvReconcileClose? || e.EvCloseEmpty? || e.EvConverge? || (e.EvExternal? && e.allLegs) {
        CloserEndsClosed(s, e);
      } else if !e.EvExternal? {
        StepKeeps(s, e);
        OtherStepsKeepBinding(s, e);
        SameBindingKeeps(s, Step(s, e));
      }
    }
  }

  lemma CloserEndsClosed(s: State, e: Event)
    requires Inv(s) && WellFormed(s, e) && Attempted(s, e).Some?
    requires e.EvReconcileClose? || e.EvCloseEmpty? || e.EvConverge? || (e.EvExternal? && e.allLegs)
    ensures Step(s, e).parent.status.CLOSED?
  {
    match e
    case EvReconcileClose(receipt, reason, now) => ReconcileEndsClosed(s, receipt, reason, now);
    case EvCloseEmpty(reason, now) => EmptyEndsClosed(s, reason, now);
    case EvConverge(requested, now) => ConvergeEndsClosed(s, requested, now);
    case EvExternal(candidate, seen, _, now) => ExternalEndsClosed(s, candidate, seen, now);
  }

  lemma EmptyEndsClosed(s: State, reason: CloseReason, now: int)
    requires CloseEmpty(s, reason, now).Some?
    ensures CloseEmpty(s, reason, now).value.parent.status.CLOSED?
  {
  }

  lemma OtherStepsKeepBinding(s: State, e: Event)
    requires Inv(s) && Attempted(s, e).Some?
    requires !e.EvPrepare? && !e.EvReconcileClose? && !e.EvCloseEmpty? && !e.EvConverge? && !e.EvExternal?
    ensures SameBinding(s, Step(s, e))
  {
    match e
    case EvProject(mints, liquidity, now) => ProjectKeepsBinding(s, mints, liquidity, now);
    case EvSubmitted(slot, reason) => SubmittedKeepsBinding(s, slot, reason);
    case EvSettle(slot, evidence) => SettleKeepsBinding(s, slot, evidence);
    case EvRevert(stage, receipt) => RevertKeepsBinding(s, stage, receipt);
    case EvCancel(expectedRevision, now, elsewhere) => CancelKeepsBinding(s, expectedRevision, now, elsewhere);
    case EvCancelOrphan(now) => OrphanKeepsBinding(s, now);
    case EvRematerialize(ticks, parentRevision, resetRevision, now) => RematerializeKeepsBinding(s, ticks, parentRevision, resetRevision, now);
    case _ =>
  }

  lemma ProjectKeepsBinding(s: State, mints: seq<Token>, liquidity: seq<nat>, now: int)
    requires ProjectOpen(s, mints, liquidity, now).Some?
    ensures SameBinding(s, ProjectOpen(s, mints, liquidity, now).value)
  {
    ProjectLegsFrame(s, mints, liquidity, 5);
  }

  lemma OrphanKeepsBinding(s: State, now: int)
    requires CancelOrphan(s, now).Some?
    ensures SameBinding(s, CancelOrphan(s, now).value)
  {
  }

  lemma RematerializeKeepsBinding(s: State, ticks: seq<(int, int)>, parentRevision: nat, resetRevision: nat, now: int)
    requires Rematerialize(s, ticks, parentRevision, resetRevision, now).Some?
    ensures SameBinding(s, Rematerialize(s, ticks, parentRevision, resetRevision, now).value)
  {
  }

  lemma SettleKeepsBinding(s: State, slot: Slot, evidence: Evidence)
    requires Settle(s, slot, evidence).Some?
    ensures SameBinding(s, Settle(s, slot, evidence).value)
  {
  }

  lemma RevertKeepsBinding(s: State, stage: Stage, receipt: Receipt)
    requires RevertNewest(s, stage, receipt).Some?
    ensures SameBinding(s, RevertNewest(s, stage, receipt).value)
  {
  }

  lemma CancelKeepsBinding(s: State, expectedRevision: nat, now: int, elsewhere: seq<CancelBlocker>)
    requires Cancel(s, expectedRevision, now, elsewhere).Some?
    ensures SameBinding(s, Cancel(s, expectedRevision, now, elsewhere).value.0)
  {
  }

  lemma SubmittedKeepsBinding(s: State, slot: Slot, reason: CloseReason)
    requires MarkSubmitted(s, slot, reason).Some?
    ensures SameBinding(s, MarkSubmitted(s, slot, reason).value)
  {
  }

  lemma ConvergeEndsClosed(s: State, requested: Option<Provenance>, now: int)
    requires Inv(s) && Converge(s, requested, now).Ok?
    ensures Converge(s, requested, now).value.0.parent.status.CLOSED?
  {
    ConvergeShape(s, ChosenProvenance(s, requested).FUNI_CLOSE_CONFIRMED?, now);
    assert s.legs[0].token.Some?;
  }

  lemma ReconcileEndsClosed(s: State, receipt: Receipt, reason: CloseReason, now: int)
    requires Inv(s) && ReconcileClose(s, receipt, reason, now).Some?
    ensures ReconcileClose(s, receipt, reason, now).value.parent.status.CLOSED?
  {
  }

  lemma ExternalEndsClosed(s: State, candidate: Parent, seen: Reading, now: int)
    requires StillTrue(s, candidate, seen) && SettleExternally(s, candidate, seen, true, now).Some?
    ensures SettleExternally(s, candidate, seen, true, now).value.parent.status.CLOSED?
  {
    CloseTokensFrame(s, Tokens(seen.legs), false, now);
  }

  lemma PrepareBinds(s: State, slot: Slot, hash: Hash, reason: CloseReason, auth: Option<Identity>, now: int)
    requires Inv(s) && BoundToNewest(s)
    requires slot.stage.CLOSE_BATCH? ==> slot.attempt >= |Rows(s, CLOSE_BATCH)| - 1
    requires Prepare(s, slot, hash, reason, auth, now).Some?
    ensures BoundToNewest(Prepare(s, slot, hash, reason, auth, now).value)
  {
    PrepareRowKeeps(s, slot, hash);
    var p := PrepareRow(s, slot, hash).value;
    var t := Prepare(s, slot, hash, reason, auth, now).value;
    if slot.stage.CLOSE_BATCH? {
      ClosingBinds(s, p, slot, reason, auth);
      assert |Rows(p, CLOSE_BATCH)| - 1 == slot.attempt;
      ClosePrepareBinds(s, t, slot);
    } else if IsOpenStage(slot.stage) {
      OpeningBinds(s, p, slot, now);
    }
  }

  lemma ClosingBinds(s: State, p: State, slot: Slot, reason: CloseReason, auth: Option<Identity>)
    requires p == s.(journal := p.journal) && BindClosing(p, slot, reason, auth).Some?
    ensures var t := BindClosing(p, slot, reason, auth).value;
            t.legs == BindClose(s.legs, slot) && t.parent == s.parent && t.journal == p.journal
  {
  }

  lemma OpeningBinds(s: State, p: State, slot: Slot, now: int)
    requires BoundToNewest(s) && p == s.(journal := p.journal) && BindOpening(p, slot, now).Some?
    ensures BoundToNewest(BindOpening(p, slot, now).value)
  {
  }

  lemma ClosePrepareBinds(s: State, t: State, slot: Slot)
    requires Agree(s) && BoundToNewest(s) && t.parent == s.parent && t.legs == BindClose(s.legs, slot)
    requires Rows(t, CLOSE_BATCH) != [] && slot == Slot(CLOSE_BATCH, |Rows(t, CLOSE_BATCH)| - 1)
    ensures BoundToNewest(t)
  {
  }

  /** Along any run without a superseded prepare the binding condition of the
      reconciliation holds by itself. */
  lemma {:induction false} BindingHolds(s: State, es: seq<Event>)
    requires Initial(s) && (forall i :: 0 <= i < |s.legs| ==> s.legs[i].closeBatch.None?)
    requires forall i :: 0 <= i < |es| ==> WellFormed(Run(s, es[..i]), es[i]) && !Supersedes(Run(s, es[..i]), es[i])
    ensures Inv(Run(s, es)) && BoundToNewest(Run(s, es))
  {
    if es != [] {
      var prior := es[..|es| - 1];
      forall i | 0 <= i < |prior| ensures WellFormed(Run(s, prior[..i]), prior[i]) && !Supersedes(Run(s, prior[..i]), prior[i]) {
        assert prior[..i] == es[..i];
      }
      BindingHolds(s, prior);
      StepKeeps(Run(s, prior), es[|es| - 1]);
      BindingKept(Run(s, prior), es[|es| - 1]);
    }
  }

  /** A superseded prepare, accepted because its row holds the same hash, binds the open
      legs to the failed attempt, and a close from there is never
      reconciled. */
  lemma SupersededPrepareUnbinds(s: State, j: nat, auth: Option<Identity>, now: int, receipt: Receipt, reason: CloseReason)
    requires Inv(s) && s.parent.status.OPEN? && j < |Rows(s, CLOSE_BATCH)| - 1
    ensures var p := Prepare(s, Slot(CLOSE_BATCH, j), Rows(s, CLOSE_BATCH)[j].hash, NORMAL_OPERATOR_CLOSE, auth, now);
            p.Some? && ReconcileClose(p.value, receipt, reason, now).None?
  {
    var t := Prepare(s, Slot(CLOSE_BATCH, j), Rows(s, CLOSE_BATCH)[j].hash, NORMAL_OPERATOR_CLOSE, auth, now).value;
    PrepareKeeps(s, Slot(CLOSE_BATCH, j), Rows(s, CLOSE_BATCH)[j].hash, NORMAL_OPERATOR_CLOSE, auth, now);
    CloseReconciles(t, receipt, reason, now);
    RowsAreOk(t, CLOSE_BATCH);
    ConfirmedCloseIsNewest(Rows(t, CLOSE_BATCH));
    assert t.legs[0].closeBatch == Some(Slot(CLOSE_BATCH, j));
  }

  /** Until a re-prepare of the newest attempt, which is accepted the same way, binds them to
      it again. */
  lemma NewestPrepareRebinds(s: State, auth: Option<Identity>, now: int)
    requires Inv(s) && s.parent.status.OPEN? && Rows(s, CLOSE_BATCH) != []
    ensures var k := |Rows(s, CLOSE_BATCH)| - 1;
            var p := Prepare(s, Slot(CLOSE_BATCH, k), Rows(s, CLOSE_BATCH)[k].hash, NORMAL_OPERATOR_CLOSE, auth, now);
            p.Some? && p.value.journal == s.journal && BoundTo(p.value.legs, k) && BoundToNewest(p.value)
  {
  }
}
