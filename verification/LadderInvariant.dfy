/** What every transaction on a ladder keeps, over every interleaving of its writers:
    parent and legs agree, the journal is ordered by attempt, and a reposition is only
    ever past its close when the close is proven. */
module LadderInvariant {
  import opened Prelude
  import opened LadderModel

  // ---- the invariant ----

  predicate AllLegs(legs: seq<Leg>, status: Status) {
    forall i :: 0 <= i < |legs| ==> legs[i].status == status
  }

  predicate DistinctTokens(legs: seq<Leg>) {
    && (forall i :: 0 <= i < |legs| ==> legs[i].token.Some?)
    && (forall i, j :: 0 <= i < j < |legs| ==> legs[i].token != legs[j].token)
  }

  /** Parent and five legs agree on the status, and exactly the minted ones carry tokens. */
  predicate Agree(s: State) {
    && |s.legs| == 5
    && AllLegs(s.legs, s.parent.status)
    && (s.parent.status.PLANNED? || s.parent.status.CANCELLED? ==> LegsUnminted(s.legs))
    && (s.parent.status.OPEN? || s.parent.status.CLOSED? ==> DistinctTokens(s.legs))
  }

  /** Only the newest attempt of a stage can be anything but FAILED, and a confirmed row
      holds the successful receipt of its own hash. */
  predicate RowsOk(rows: seq<JournalRow>) {
    && (forall i :: 0 <= i < |rows| - 1 ==> rows[i].status.FAILED?)
    && (forall i :: 0 <= i < |rows| && rows[i].status.CONFIRMED? ==> SuccessRow(rows[i]))
  }

  predicate JournalOk(s: State) {
    forall stage <- s.journal :: RowsOk(s.journal[stage])
  }

  predicate ParentOk(p: Parent) {
    && (p.closeProvenance.Some? || p.terminalProvenance.Some? ==> p.status.CLOSED?)
    && (p.status.OPEN? || p.status.CLOSED? ==> p.live)
    && (p.status.CANCELLED? ==> p.cancelReason.Some?)
  }

  predicate NoOpenRows(s: State) {
    forall stage <- s.journal :: IsOpenStage(stage) ==> s.journal[stage] == []
  }

  /** How far an open has been journaled, against the status of the ladder. */
  predicate OpenRowsOk(s: State) {
    && (Rows(s, OPEN_BATCH) != [] ==>
          s.parent.live && !s.parent.status.CANCELLED?
          && (s.parent.status.PLANNED? ==> forall i :: 0 <= i < |s.legs| ==> s.legs[i].openBatch.Some?))
    && (s.parent.status.CANCELLED? && s.parent.cancelReason == Some(AUTO_EXPIRED_PLANNED_30M) ==>
          NoOpenRows(s))
  }

  predicate RepositionReason(s: State) {
    s.reset.Some? && s.reset.value.closeReason == Some(USDG_RESET_REPOSITION)
  }

  /** A confirmed reposition has a closed parent and is past its close or blocked, and its
      close is proven unless the reset loop moved it on without that. */
  predicate ResetOk(s: State) {
    && (RepositionReason(s) ==> s.parent.status.CLOSED? && (Converged(s.reset.value.phase) || s.reset.value.phase.BLOCKED?))
    && (s.reset.Some? && Converged(s.reset.value.phase) ==> RepositionReason(s))
    && (RepositionReason(s) && !s.unproven ==> ProvenClose(s))
  }

  predicate Inv(s: State) {
    Agree(s) && JournalOk(s) && ParentOk(s.parent) && OpenRowsOk(s) && ResetOk(s)
  }

  /** A ladder as it is created: planned, unminted, nothing journaled. */
  predicate Initial(s: State) {
    && s.parent.status.PLANNED? && s.parent.closeProvenance.None? && s.parent.terminalProvenance.None?
    && |s.legs| == 5 && AllLegs(s.legs, PLANNED) && LegsUnminted(s.legs)
    && (forall stage <- s.journal :: s.journal[stage] == [])
    && (s.reset.Some? ==> s.reset.value.phase.OPEN_PENDING? && s.reset.value.closeReason.None?)
    && !s.unproven
  }

  /** What an earlier reading of the ladder still says about it: an external close stays one,
      and minted tokens stay. */
  predicate StillTrue(s: State, candidate: Parent, seen: Reading) {
    && (ExternallyClosed(candidate) ==> ExternallyClosed(s.parent))
    && |seen.legs| == |s.legs|
    && forall i :: 0 <= i < |s.legs| && seen.legs[i].token.Some? ==> s.legs[i].token == seen.legs[i].token
  }

  /** ERC-721: one receipt never mints the same token twice. And a settlement and the reset
      loop act on what was read of this ladder earlier. */
  predicate WellFormed(s: State, e: Event) {
    && (e.EvProject? ==> Distinct(e.mints))
    && (e.EvExternal? ==> StillTrue(s, e.candidate, e.seen))
    && (e.EvConfirmFromReset? ==> ReadTrue(s, e.parent, e.rows))
  }

  /** What an earlier reading of the parent and of the close rows still says: a closed parent
      stays closed as it was, and rows that end in a success stay. */
  predicate ReadTrue(s: State, parent: Parent, rows: seq<JournalRow>) {
    && (parent.status.CLOSED? ==> s.parent.status.CLOSED? && (FuniClosed(parent) <==> FuniClosed(s.parent)))
    && (NewestSucceeded(rows) ==> Rows(s, CLOSE_BATCH) == rows)
  }

  // ---- one step forward ----

  predicate NextStatus(a: Status, b: Status) {
    a == b || (a.PLANNED? && (b.OPEN? || b.CANCELLED?)) || (a.OPEN? && b.CLOSED?)
  }

  /** A minted leg keeps its token for good. */
  predicate TokensKept(s: State, t: State) {
    |t.legs| == |s.legs| && forall i :: 0 <= i < |s.legs| && s.legs[i].token.Some? ==> t.legs[i].token == s.legs[i].token
  }

  /** This step confirmed the close of a reposition. */
  predicate Confirms(s: State, t: State) {
    s.reset.Some? && t.reset.Some? && CloseUnderway(s.reset.value.phase) && t.reset.value.phase.CLOSE_CONFIRMED?
  }

  /** Status moves at most one step, tokens stay, and a confirmed reposition stays one. */
  predicate Forward(s: State, t: State) {
    && NextStatus(s.parent.status, t.parent.status)
    && TokensKept(s, t)
    && (RepositionReason(s) ==> RepositionReason(t))
    && (Confirms(s, t) ==> !RepositionReason(s) && RepositionReason(t))
    && (ExternallyClosed(s.parent) ==> ExternallyClosed(t.parent))
  }

  // ---- what the loops change ----

  predicate SameFrame(s: State, t: State) {
    t.id == s.id && t.parent == s.parent && t.journal == s.journal && t.reset == s.reset && t.unproven == s.unproven
  }

  lemma {:induction false} CloseTokensFrame(s: State, tokens: seq<Token>, funi: bool, now: int)
    ensures SameFrame(s, CloseTokens(s, tokens, funi, now).0)
    ensures CloseTokens(s, tokens, funi, now).0.legs == s.legs
  {
    if tokens != [] {
      CloseTokensFrame(s, tokens[..|tokens| - 1], funi, now);
    }
  }

  /** The mirror loop closes the open legs it has passed, and fails on any leg that was
      neither open nor closed. */
  lemma {:induction false} MirrorLegsFrame(s: State, n: nat)
    requires n <= |s.legs| && MirrorLegs(s, n).Some?
    ensures var t := MirrorLegs(s, n).value.0;
            SameFrame(s, t) && t.truth == s.truth && |t.legs| == |s.legs|
            && (forall i :: n <= i < |s.legs| ==> t.legs[i] == s.legs[i])
            && (forall i :: 0 <= i < n ==> (s.legs[i].status.OPEN? || s.legs[i].status.CLOSED?)
                                           && t.legs[i] == s.legs[i].(status := CLOSED))
    ensures MirrorLegs(s, n).value.1.parent == 0
  {
    if n > 0 {
      MirrorLegsFrame(s, n - 1);
    }
  }

  function ProjectedLeg(leg: Leg, token: Token): Leg {
    if leg.status.PLANNED? || leg.status.OPEN?
    then leg.(status := OPEN, token := Some(token), openBatch := Some(Slot(OPEN_BATCH, 0)))
    else leg
  }

  lemma {:induction false} ProjectLegsFrame(s: State, mints: seq<Token>, liquidity: seq<nat>, n: nat)
    requires n <= |mints| == |liquidity| == |s.legs| && ProjectLegs(s, mints, liquidity, n).Some?
    ensures var t := ProjectLegs(s, mints, liquidity, n).value;
            SameFrame(s, t) && |t.legs| == |s.legs|
            && (forall i :: n <= i < |s.legs| ==> t.legs[i] == s.legs[i])
            && (forall i :: 0 <= i < n ==> !TokenConflict(s.legs[i], mints[i]) && t.legs[i] == ProjectedLeg(s.legs[i], mints[i]))
  {
    if n > 0 {
      ProjectLegsFrame(s, mints, liquidity, n - 1);
    }
  }

  // ---- each transaction keeps the invariant ----

  lemma RowsAreOk(s: State, stage: Stage)
    requires JournalOk(s)
    ensures RowsOk(Rows(s, stage))
  {
  }

  lemma PrepareRowKeeps(s: State, slot: Slot, hash: Hash)
    requires JournalOk(s) && PrepareRow(s, slot, hash).Some?
    ensures var t := PrepareRow(s, slot, hash).value;
            JournalOk(t) && t == s.(journal := t.journal)
            && (forall stage :: stage != slot.stage ==> Rows(t, stage) == Rows(s, stage))
            && Rows(t, slot.stage) != []
            && (Rows(s, slot.stage) != [] && !Rows(s, slot.stage)[|Rows(s, slot.stage)| - 1].status.FAILED? ==> t == s)
  {
    RowsAreOk(s, slot.stage);
  }

  /** An opening is admitted only for a planned ladder, and makes it live as it is journaled. */
  lemma BindOpeningKeeps(s: State, p: State, slot: Slot, now: int)
    requires Inv(s) && JournalOk(p) && p == s.(journal := p.journal)
    requires IsOpenStage(slot.stage) && Rows(p, slot.stage) != []
    requires forall stage :: stage != slot.stage ==> Rows(p, stage) == Rows(s, stage)
    requires BindOpening(p, slot, now).Some?
    ensures Inv(BindOpening(p, slot, now).value) && Forward(s, BindOpening(p, slot, now).value)
  {
    var t := BindOpening(p, slot, now).value;
    assert Agree(t);
    assert Rows(p, OPEN_BATCH) == Rows(t, OPEN_BATCH);
    assert ResetOk(t) by {
      assert !FuniClosed(s.parent);
    }
  }

  lemma BindClosingKeeps(s: State, p: State, slot: Slot, reason: CloseReason, auth: Option<Identity>)
    requires Inv(s) && JournalOk(p) && p == s.(journal := p.journal)
    requires slot.stage.CLOSE_BATCH?
    requires forall stage :: stage != slot.stage ==> Rows(p, stage) == Rows(s, stage)
    requires RepositionReason(s) && !s.unproven ==> p == s
    requires BindClosing(p, slot, reason, auth).Some?
    ensures Inv(BindClosing(p, slot, reason, auth).value) && Forward(s, BindClosing(p, slot, reason, auth).value)
  {
    var t := BindClosing(p, slot, reason, auth).value;
    BoundLegsKeep(s, p, slot);
    var b := p.(legs := BindClose(p.legs, slot));
    assert t == b.(reset := t.reset);
    OpenRowsKept(s, t);
  }

  lemma BoundLegsKeep(s: State, p: State, slot: Slot)
    requires Agree(s) && p == s.(journal := p.journal)
    ensures var b := p.(legs := BindClose(p.legs, slot)); Agree(b) && TokensKept(s, b) && |b.legs| == |s.legs|
    ensures forall i :: 0 <= i < |s.legs| ==> BindClose(p.legs, slot)[i].openBatch == s.legs[i].openBatch
  {
  }

  lemma OpenRowsKept(s: State, t: State)
    requires OpenRowsOk(s) && t.parent == s.parent && |t.legs| == |s.legs|
    requires forall i :: 0 <= i < |s.legs| ==> t.legs[i].openBatch == s.legs[i].openBatch
    requires forall stage: Stage :: !stage.CLOSE_BATCH? ==> Rows(t, stage) == Rows(s, stage)
    ensures OpenRowsOk(t)
  {
    forall stage <- t.journal | NoOpenRows(s) && IsOpenStage(stage) ensures t.journal[stage] == [] {
      assert Rows(t, stage) == Rows(s, stage);
    }
  }

  lemma PrepareKeeps(s: State, slot: Slot, hash: Hash, reason: CloseReason, auth: Option<Identity>, now: int)
    requires Inv(s) && Prepare(s, slot, hash, reason, auth, now).Some?
    ensures Inv(Prepare(s, slot, hash, reason, auth, now).value) && Forward(s, Prepare(s, slot, hash, reason, auth, now).value)
  {
    PrepareRowKeeps(s, slot, hash);
    var p := PrepareRow(s, slot, hash).value;
    if IsOpenStage(slot.stage) {
      BindOpeningKeeps(s, p, slot, now);
    } else if slot.stage.CLOSE_BATCH? {
      BindClosingKeeps(s, p, slot, reason, auth);
    }
  }

  /** An open row may become any row that keeps its hash and is honest about its receipt. */
  lemma ResolveRowKeeps(s: State, stage: Stage, k: nat, row: JournalRow)
    requires Inv(s) && k < |Rows(s, stage)| && Unresolved(Rows(s, stage)[k])
    requires row.status.CONFIRMED? ==> SuccessRow(row)
    ensures var t := s.(journal := s.journal[stage := Rows(s, stage)[k := row]]);
            Inv(t) && Forward(s, t)
  {
    RowsAreOk(s, stage);
    var t := s.(journal := s.journal[stage := Rows(s, stage)[k := row]]);
    assert k == |Rows(s, stage)| - 1;
    assert forall other :: other != stage ==> Rows(t, other) == Rows(s, other);
  }

  /** A change of the reset alone. */
  lemma ResetChangeKeeps(s: State, t: State)
    requires Inv(s) && t == s.(reset := t.reset, unproven := t.unproven)
    requires ResetOk(t) && (RepositionReason(s) ==> RepositionReason(t))
    requires Confirms(s, t) ==> !RepositionReason(s) && RepositionReason(t)
    ensures Inv(t) && Forward(s, t)
  {
  }

  lemma AdvanceSubmittedKeeps(s: State, slot: Slot, reason: CloseReason)
    requires Inv(s)
    ensures Inv(AdvanceSubmitted(s, slot, reason)) && Forward(s, AdvanceSubmitted(s, slot, reason))
  {
    ResetChangeKeeps(s, AdvanceSubmitted(s, slot, reason));
  }

  lemma MarkSubmittedKeeps(s: State, slot: Slot, reason: CloseReason)
    requires Inv(s) && MarkSubmitted(s, slot, reason).Some?
    ensures Inv(MarkSubmitted(s, slot, reason).value) && Forward(s, MarkSubmitted(s, slot, reason).value)
  {
    var rows := Rows(s, slot.stage);
    if rows != [] && rows[|rows| - 1].status.PREPARED? {
      var row := rows[slot.attempt].(status := SUBMITTED);
      ResolveRowKeeps(s, slot.stage, slot.attempt, row);
      AdvanceSubmittedKeeps(s.(journal := s.journal[slot.stage := rows[slot.attempt := row]]), slot, reason);
    } else {
      AdvanceSubmittedKeeps(s, slot, reason);
    }
  }

  lemma SettleKeeps(s: State, slot: Slot, evidence: Evidence)
    requires Inv(s) && Settle(s, slot, evidence).Some?
    ensures Inv(Settle(s, slot, evidence).value) && Forward(s, Settle(s, slot, evidence).value)
  {
    var rows := Rows(s, slot.stage);
    if slot.attempt < |rows| && Unresolved(rows[slot.attempt]) {
      ResolveRowKeeps(s, slot.stage, slot.attempt, SettledRow(rows[slot.attempt], evidence));
    }
  }

  lemma RevertNewestKeeps(s: State, stage: Stage, receipt: Receipt)
    requires Inv(s) && RevertNewest(s, stage, receipt).Some?
    ensures Inv(RevertNewest(s, stage, receipt).value) && Forward(s, RevertNewest(s, stage, receipt).value)
  {
    var rows := Rows(s, stage);
    if rows != [] && Unresolved(rows[|rows| - 1]) {
      ResolveRowKeeps(s, stage, |rows| - 1, JournalRow(FAILED, rows[|rows| - 1].hash, Some(receipt)));
    }
  }

  lemma ProjectOpenKeeps(s: State, mints: seq<Token>, liquidity: seq<nat>, now: int)
    requires Inv(s) && Distinct(mints) && ProjectOpen(s, mints, liquidity, now).Some?
    ensures Inv(ProjectOpen(s, mints, liquidity, now).value) && Forward(s, ProjectOpen(s, mints, liquidity, now).value)
  {
    ProjectLegsFrame(s, mints, liquidity, 5);
  }

  lemma ConvergeShape(s: State, funi: bool, now: int)
    requires FullyMinted(s.legs)
    ensures var t := ConvergeWrites(s, funi, now).0;
            t.id == s.id && t.journal == s.journal && t.legs == CloseLegs(s.legs, CloseSlot(s))
            && t.parent == CloseParent(s.parent, funi, now) && t.reset == CloseReset(s, funi).0.reset
            && t.unproven == s.unproven
  {
    CloseTokensFrame(s, Tokens(s.legs), funi, now);
  }

  lemma ConvergeKeeps(s: State, requested: Option<Provenance>, now: int)
    requires Inv(s) && Converge(s, requested, now).Ok?
    ensures Inv(Converge(s, requested, now).value.0) && Forward(s, Converge(s, requested, now).value.0)
  {
    var funi := ChosenProvenance(s, requested).FUNI_CLOSE_CONFIRMED?;
    ConvergeShape(s, funi, now);
    ConvergeClosesAll(s, funi, now, Converge(s, requested, now).value.0);
  }

  lemma ConvergeClosesAll(s: State, funi: bool, now: int, t: State)
    requires Inv(s) && FullyMinted(s.legs)
    requires !funi ==> ConfirmedClose(Rows(s, CLOSE_BATCH)).None?
    requires t.journal == s.journal && t.legs == CloseLegs(s.legs, CloseSlot(s))
    requires t.parent == CloseParent(s.parent, funi, now) && t.reset == CloseReset(s, funi).0.reset && t.unproven == s.unproven
    ensures Inv(t) && Forward(s, t)
  {
    assert s.legs[0].token.Some?;
    assert s.parent.status.OPEN? || s.parent.status.CLOSED?;
    assert Agree(t);
    assert OpenRowsOk(t);
    assert TokensKept(s, t);
    ConvergeReset(s, funi, t);
  }

  /** A proven close has a confirmed close row, so only the confirmed branch touches it, and
      that branch leaves its reset and its parent alone. */
  lemma ConvergeReset(s: State, funi: bool, t: State)
    requires Inv(s) && (!funi ==> ConfirmedClose(Rows(s, CLOSE_BATCH)).None?)
    requires t.journal == s.journal && t.reset == CloseReset(s, funi).0.reset && t.unproven == s.unproven
    requires s.parent.status.CLOSED? ==> t.parent == s.parent
    ensures ResetOk(t) && (RepositionReason(s) ==> RepositionReason(t)) && !Confirms(s, t)
  {
    CloseResetCases(s, funi);
    if RepositionReason(s) && !s.unproven {
      assert ConfirmedClose(Rows(s, CLOSE_BATCH)) == Some(0);
      assert t.reset == s.reset;
    }
  }

  /** The convergence leaves the reset alone, blocks it, or ends one that was watching. */
  lemma CloseResetCases(s: State, funi: bool)
    ensures var r := CloseReset(s, funi).0.reset;
            r == s.reset
            || (s.reset.Some? && r.Some? && !funi && r.value.phase.BLOCKED?
                && r.value.closeReason == s.reset.value.closeReason && r.value.identity == s.reset.value.identity)
            || (s.reset.Some? && r.Some? && s.reset.value.phase.WATCHING? && r.value.phase.OPERATOR_CLOSED?
                && r.value.closeReason == Some(NORMAL_OPERATOR_CLOSE))
  {
  }

  lemma MirrorsKeep(s: State, now: int)
    requires Inv(s) && CloseCanonicalMirrors(s, now).Some?
    ensures Inv(CloseCanonicalMirrors(s, now).value.0) && Forward(s, CloseCanonicalMirrors(s, now).value.0)
  {
    MirrorLegsFrame(s, |s.legs|);
  }

  lemma ConfirmKeeps(s: State)
    requires Inv(s) && ConfirmReposition(s).Some?
    ensures Inv(ConfirmReposition(s).value.0) && Forward(s, ConfirmReposition(s).value.0)
  {
    ResetChangeKeeps(s, ConfirmReposition(s).value.0);
  }

  lemma OperatorClosedKeeps(s: State, reason: CloseReason)
    requires Inv(s) && s.reset.Some? && OperatorClosed(s, reason).Some? && reason.NORMAL_OPERATOR_CLOSE?
    ensures Inv(OperatorClosed(s, reason).value) && Forward(s, OperatorClosed(s, reason).value)
  {
    ResetChangeKeeps(s, OperatorClosed(s, reason).value);
  }

  lemma ReconcileResetKeeps(s: State, reason: CloseReason)
    requires Inv(s) && ReconcileReset(s, reason).Some?
    ensures Inv(ReconcileReset(s, reason).value) && Forward(s, ReconcileReset(s, reason).value)
    ensures ReconcileReset(s, reason).value.parent == s.parent && ReconcileReset(s, reason).value.legs == s.legs
  {
    if s.reset.Some? {
      if reason.NORMAL_OPERATOR_CLOSE? {
        OperatorClosedKeeps(s, reason);
      } else if CloseUnderway(s.reset.value.phase) {
        ConfirmKeeps(s);
      }
    }
  }

  /** Two steps after the opening are one step forward. */
  lemma ForwardThrough(s: State, c: State, t: State)
    requires Inv(s) && Inv(t) && Forward(s, c) && Forward(c, t) && (s.parent.status.OPEN? || s.parent.status.CLOSED?)
    ensures Forward(s, t)
  {
  }

  lemma ReconcileCloseKeeps(s: State, receipt: Receipt, reason: CloseReason, now: int)
    requires Inv(s) && ReconcileClose(s, receipt, reason, now).Some?
    ensures Inv(ReconcileClose(s, receipt, reason, now).value) && Forward(s, ReconcileClose(s, receipt, reason, now).value)
  {
    ConvergeKeeps(s, Some(FUNI_CLOSE_CONFIRMED), now);
    var c := Converge(s, Some(FUNI_CLOSE_CONFIRMED), now).value.0;
    MirrorsKeep(c, now);
    var m := CloseCanonicalMirrors(c, now).value.0;
    ReconcileResetKeeps(m, reason);
    assert s.legs[0].token.Some?;
    ForwardThrough(s, c, m);
    ForwardThrough(s, m, ReconcileReset(m, reason).value);
  }

  lemma CloseEmptyKeeps(s: State, reason: CloseReason, now: int)
    requires Inv(s) && CloseEmpty(s, reason, now).Some?
    ensures Inv(CloseEmpty(s, reason, now).value) && Forward(s, CloseEmpty(s, reason, now).value)
  {
    MirrorsKeep(s, now);
  }

  lemma SettleExternallyKeeps(s: State, candidate: Parent, seen: Reading, allLegs: bool, now: int)
    requires Inv(s) && StillTrue(s, candidate, seen) && SettleExternally(s, candidate, seen, allLegs, now).Some?
    ensures var t := SettleExternally(s, candidate, seen, allLegs, now).value; Inv(t) && Forward(s, t)
  {
    CloseTokensFrame(s, Tokens(seen.legs), false, now);
  }

  /** Without the cycle's selection a settlement that read an open ladder would undo the proof
      of a close that was confirmed meanwhile. */
  lemma UnselectedSettlementUndoes(s: State, seen: Reading, now: int)
    requires ProvenClose(s) && FullyMinted(seen.legs)
    ensures !ProvenClose(WriteExternally(s, seen, now))
  {
    CloseTokensFrame(s, Tokens(seen.legs), false, now);
  }

  lemma ConfirmFromResetKeeps(s: State, parent: Parent, reset: Reset, before: seq<JournalRow>, rows: seq<JournalRow>)
    requires Inv(s) && ReadTrue(s, parent, rows) && ConfirmFromReset(s, parent, reset, before, rows).Some?
    ensures var t := ConfirmFromReset(s, parent, reset, before, rows).value; Inv(t) && Forward(s, t)
  {
    ResetChangeKeeps(s, ConfirmFromReset(s, parent, reset, before, rows).value);
  }

  lemma RematerializeKeeps(s: State, ticks: seq<(int, int)>, parentRevision: nat, resetRevision: nat, now: int)
    requires Inv(s) && Rematerialize(s, ticks, parentRevision, resetRevision, now).Some?
    ensures var t := Rematerialize(s, ticks, parentRevision, resetRevision, now).value; Inv(t) && Forward(s, t)
  {
  }

  lemma CancelKeeps(s: State, expectedRevision: nat, now: int, elsewhere: seq<CancelBlocker>)
    requires Inv(s) && Cancel(s, expectedRevision, now, elsewhere).Some?
    ensures Inv(Cancel(s, expectedRevision, now, elsewhere).value.0) && Forward(s, Cancel(s, expectedRevision, now, elsewhere).value.0)
  {
    if Cancel(s, expectedRevision, now, elsewhere).value.1.CANCELLED_NOW? {
      assert CancelBlockers(s, expectedRevision, now, elsewhere) == [];
      assert !HasJournal(s);
    }
  }

  lemma CancelOrphanKeeps(s: State, now: int)
    requires Inv(s) && CancelOrphan(s, now).Some?
    ensures Inv(CancelOrphan(s, now).value) && Forward(s, CancelOrphan(s, now).value)
  {
    assert s.legs[0].openBatch.None?;
  }

  lemma MovePhaseKeeps(s: State, to: Phase)
    requires Inv(s) && MovePhase(s, to).Some?
    ensures Inv(MovePhase(s, to).value) && Forward(s, MovePhase(s, to).value)
  {
    ResetChangeKeeps(s, MovePhase(s, to).value);
  }

  lemma StepKeeps(s: State, e: Event)
    requires Inv(s) && WellFormed(s, e)
    ensures Inv(Step(s, e)) && Forward(s, Step(s, e))
  {
    if Attempted(s, e).Some? {
      match e
      case EvPrepare(slot, hash, reason, auth, now) => PrepareKeeps(s, slot, hash, reason, auth, now);
      case EvSubmitted(slot, reason) => MarkSubmittedKeeps(s, slot, reason);
      case EvSettle(slot, evidence) => SettleKeeps(s, slot, evidence);
      case EvRevert(stage, receipt) => RevertNewestKeeps(s, stage, receipt);
      case EvProject(mints, liquidity, now) => ProjectOpenKeeps(s, mints, liquidity, now);
      case EvConverge(requested, now) => ConvergeKeeps(s, requested, now);
      case EvReconcileClose(receipt, reason, now) => ReconcileCloseKeeps(s, receipt, reason, now);
      case EvCloseEmpty(reason, now) => CloseEmptyKeeps(s, reason, now);
      case EvExternal(candidate, seen, allLegs, now) => SettleExternallyKeeps(s, candidate, seen, allLegs, now);
      case EvCancel(expectedRevision, now, elsewhere) => CancelKeeps(s, expectedRevision, now, elsewhere);
      case EvCancelOrphan(now) => CancelOrphanKeeps(s, now);
      case EvConfirm => ConfirmKeeps(s);
      case EvConfirmFromReset(parent, reset, before, rows) => ConfirmFromResetKeeps(s, parent, reset, before, rows);
      case EvPhase(to) => MovePhaseKeeps(s, to);
      case EvRematerialize(ticks, parentRevision, resetRevision, now) => RematerializeKeeps(s, ticks, parentRevision, resetRevision, now);
      case EvObserve(_, _, _, _) =>
    }
  }
}
