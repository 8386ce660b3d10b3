/** When each transaction of a ladder commits, and exactly which rows it then writes. */
module LadderRecords {
  import opened Prelude
  import opened LadderModel
  import opened LadderInvariant
  import opened LadderClose
  import opened LadderOpen

  // ---- the journal ----

  /** One row of one stage changes, and nothing else of the ladder. */
  predicate OneRow(s: State, t: State, slot: Slot, row: JournalRow) {
    && t == s.(journal := t.journal)
    && slot.attempt < |Rows(s, slot.stage)| && Rows(t, slot.stage) == Rows(s, slot.stage)[slot.attempt := row]
    && OtherStagesKept(s, t, slot.stage)
  }

  predicate OtherStagesKept(s: State, t: State, stage: Stage) {
    && (forall other <- s.journal :: other != stage ==> Rows(t, other) == Rows(s, other))
    && (forall other <- t.journal :: other != stage ==> Rows(t, other) == Rows(s, other))
  }

  /** A transaction is journaled again as it is, or as the next attempt after a failed one. */
  predicate Journals(s: State, slot: Slot, hash: Hash) {
    var rows := Rows(s, slot.stage);
    || (slot.attempt < |rows| && rows[slot.attempt].hash == hash)
    || (slot.attempt == |rows| && (rows == [] || rows[|rows| - 1].status.FAILED?)
        && forall stage <- s.journal, i | 0 <= i < |s.journal[stage]| :: s.journal[stage][i].hash != hash)
  }

  predicate Journaled(s: State, t: State, slot: Slot, hash: Hash) {
    && Rows(t, slot.stage) == Rows(s, slot.stage) + (if slot.attempt < |Rows(s, slot.stage)| then [] else [JournalRow(PREPARED, hash, None)])
    && OtherStagesKept(s, t, slot.stage)
  }

  /** A reposition close needs an authorization by hand: a new one while the reset is watching,
      the recorded one once it is prepared. */
  predicate Authorized(r: Option<Reset>, auth: Option<Identity>) {
    && r.Some?
    && ((r.value.phase.WATCHING? && auth.Some? && auth.value.ManualAuthorization?)
        || (r.value.phase.CLOSE_PREPARED? && r.value.identity.Some? && r.value.identity.value.ManualAuthorization?))
  }

  /** What a prepared opening, or a prepared close, binds beside its journal row. */
  predicate OpeningBound(s: State, t: State, slot: Slot, now: int) {
    && t == s.(journal := t.journal, parent := t.parent, legs := t.legs)
    && t.parent == s.parent.(live := true, revision := s.parent.revision + 1, updatedAt := now)
    && |t.legs| == |s.legs|
    && forall i :: 0 <= i < |s.legs| ==> t.legs[i] == if slot.stage.OPEN_BATCH? then s.legs[i].(openBatch := Some(slot)) else s.legs[i]
  }

  predicate ClosingBound(s: State, t: State, slot: Slot, reason: CloseReason, auth: Option<Identity>) {
    && t == s.(journal := t.journal, legs := t.legs, reset := t.reset) && |t.legs| == |s.legs|
    && (forall i :: 0 <= i < |s.legs| ==> t.legs[i] == if s.legs[i].status.OPEN? then s.legs[i].(closeBatch := Some(slot)) else s.legs[i])
    && (if reason.USDG_RESET_REPOSITION? && s.reset.Some? && s.reset.value.phase.WATCHING?
        then t.reset == Some(Reset(CLOSE_PREPARED, s.reset.value.revision + 1, s.reset.value.closeReason, auth))
        else t.reset == s.reset)
  }

  /** `submit`: the insert and its bindings commit together. */
  lemma PrepareRecords(s: State, slot: Slot, hash: Hash, reason: CloseReason, auth: Option<Identity>, now: int)
    ensures var p := Prepare(s, slot, hash, reason, auth, now);
            && (p.Some? <==>
                  && Journals(s, slot, hash)
                  && (IsOpenStage(slot.stage) ==> s.parent.status.PLANNED?)
                  && (slot.stage.CLOSE_BATCH? && reason.USDG_RESET_REPOSITION? ==> Authorized(s.reset, auth)))
            && (p.Some? ==>
                  && Journaled(s, p.value, slot, hash)
                  && (if IsOpenStage(slot.stage) then OpeningBound(s, p.value, slot, now)
                      else if slot.stage.CLOSE_BATCH? then ClosingBound(s, p.value, slot, reason, auth)
                      else p.value == s.(journal := p.value.journal)))
  {
    JournalsIff(s, slot, hash);
    if PrepareRow(s, slot, hash).Some? {
      var p := PrepareRow(s, slot, hash).value;
      if IsOpenStage(slot.stage) {
        OpeningRecords(s, p, slot, now);
      } else if slot.stage.CLOSE_BATCH? {
        ClosingRecords(s, p, slot, reason, auth);
      }
    }
  }

  lemma JournalsIff(s: State, slot: Slot, hash: Hash)
    ensures PrepareRow(s, slot, hash).Some? <==> Journals(s, slot, hash)
    ensures PrepareRow(s, slot, hash).Some? ==>
              var p := PrepareRow(s, slot, hash).value; p == s.(journal := p.journal) && Journaled(s, p, slot, hash)
  {
  }

  lemma OpeningRecords(s: State, p: State, slot: Slot, now: int)
    requires p == s.(journal := p.journal)
    ensures BindOpening(p, slot, now).Some? <==> s.parent.status.PLANNED?
    ensures BindOpening(p, slot, now).Some? ==>
              var t := BindOpening(p, slot, now).value; t.journal == p.journal && OpeningBound(s, t, slot, now)
  {
  }

  lemma ClosingRecords(s: State, p: State, slot: Slot, reason: CloseReason, auth: Option<Identity>)
    requires p == s.(journal := p.journal)
    ensures BindClosing(p, slot, reason, auth).Some? <==> (reason.USDG_RESET_REPOSITION? ==> Authorized(s.reset, auth))
    ensures BindClosing(p, slot, reason, auth).Some? ==>
              var t := BindClosing(p, slot, reason, auth).value; t.journal == p.journal && ClosingBound(s, t, slot, reason, auth)
  {
  }

  /** The submitted mark: refused exactly when the newest row is PREPARED and the caller's own
      is not; a prepared reposition close moves on with it. */
  lemma SubmittedRecords(s: State, slot: Slot, reason: CloseReason)
    ensures var rows := Rows(s, slot.stage); var m := MarkSubmitted(s, slot, reason);
            var due := rows != [] && rows[|rows| - 1].status.PREPARED?;
            && (m.None? <==> due && !(slot.attempt < |rows| && rows[slot.attempt].status.PREPARED?))
            && (m.Some? ==>
                  && m.value == s.(journal := m.value.journal, reset := m.value.reset)
                  && (if due then OneRow(s, s.(journal := m.value.journal), slot, JournalRow(SUBMITTED, rows[slot.attempt].hash, rows[slot.attempt].receipt))
                      else m.value.journal == s.journal)
                  && m.value.reset ==
                     if rows != [] && slot.stage.CLOSE_BATCH? && reason.USDG_RESET_REPOSITION? && s.reset.Some? && s.reset.value.phase.CLOSE_PREPARED?
                     then Some(s.reset.value.(phase := CLOSE_SUBMITTED, revision := s.reset.value.revision + 1)) else s.reset)
  {
  }

  /** Terminal evidence: it is refused exactly on an open row of another hash, recorded with its
      receipt on an open row, and ignored otherwise. */
  lemma SettleRecordsEvidence(s: State, slot: Slot, evidence: Evidence)
    ensures var rows := Rows(s, slot.stage); var t := Settle(s, slot, evidence);
            var open := slot.attempt < |rows| && (rows[slot.attempt].status.PREPARED? || rows[slot.attempt].status.SUBMITTED?);
            && (t.None? <==> open && evidence.Mined? && evidence.receipt.hash != rows[slot.attempt].hash)
            && (t.Some? && !open ==> t.value == s)
            && (t.Some? && open ==>
                  var row := rows[slot.attempt];
                  OneRow(s, t.value, slot,
                         match evidence
                         case Mined(r) => JournalRow(if r.success then CONFIRMED else FAILED, row.hash, Some(r))
                         case NonceUnavailable => JournalRow(FAILED, row.hash, row.receipt)))
  {
  }

  /** The reverted receipt of a caller: it fails the newest row of the stage when that is open. */
  lemma RevertRecords(s: State, stage: Stage, receipt: Receipt)
    ensures var rows := Rows(s, stage); var t := RevertNewest(s, stage, receipt);
            var open := rows != [] && (rows[|rows| - 1].status.PREPARED? || rows[|rows| - 1].status.SUBMITTED?);
            t.Some? && (!open ==> t.value == s)
            && (open ==> OneRow(s, t.value, Slot(stage, |rows| - 1), JournalRow(FAILED, rows[|rows| - 1].hash, Some(receipt))))
  {
  }

  // ---- the open projection ----

  lemma {:induction false} ProjectLegsIff(s: State, mints: seq<Token>, liquidity: seq<nat>, n: nat)
    requires n <= |mints| == |liquidity| == |s.legs|
    ensures ProjectLegs(s, mints, liquidity, n).Some? <==> forall i :: 0 <= i < n ==> s.legs[i].token.None? || s.legs[i].token.value == mints[i]
  {
    if n > 0 {
      ProjectLegsIff(s, mints, liquidity, n - 1);
      if ProjectLegs(s, mints, liquidity, n - 1).Some? {
        ProjectLegsFrame(s, mints, liquidity, n - 1);
        assert ProjectLegs(s, mints, liquidity, n - 1).value.legs[n - 1] == s.legs[n - 1];
      }
    }
  }

  /** The projection of the receipt: five mints of a confirmed opening, none of them against a
      leg that has another token, and not of a cancelled ladder. It opens every leg that is
      planned or open, and the parent when it is live. */
  lemma ProjectRecords(s: State, mints: seq<Token>, liquidity: seq<nat>, now: int)
    ensures var rows := Rows(s, OPEN_BATCH); var p := ProjectOpen(s, mints, liquidity, now);
            && (p.Some? <==>
                  && rows != [] && rows[|rows| - 1].status.CONFIRMED? && !s.parent.status.CANCELLED?
                  && |s.legs| == |mints| == |liquidity| == 5
                  && forall i :: 0 <= i < 5 ==> s.legs[i].token.None? || s.legs[i].token.value == mints[i])
            && (p.Some? ==>
                  var t := p.value;
                  && t == s.(parent := t.parent, legs := t.legs, positions := t.positions, v4 := t.v4, truth := t.truth)
                  && t.parent == (if s.parent.live && (s.parent.status.PLANNED? || s.parent.status.OPEN?)
                                  then s.parent.(status := OPEN, updatedAt := now, revision := s.parent.revision + if s.parent.status.PLANNED? then 1 else 0)
                                  else s.parent)
                  && |t.legs| == 5
                  && (forall i :: 0 <= i < 5 ==>
                        t.legs[i] == if s.legs[i].status.PLANNED? || s.legs[i].status.OPEN?
                                     then s.legs[i].(status := OPEN, token := Some(mints[i]), openBatch := Some(Slot(OPEN_BATCH, 0)))
                                     else s.legs[i])
                  && (Distinct(mints) ==> Projected(s, t, mints, liquidity, 5)))
  {
    if |s.legs| == 5 && |mints| == 5 && |liquidity| == 5 {
      ProjectLegsIff(s, mints, liquidity, 5);
      if ProjectLegs(s, mints, liquidity, 5).Some? {
        ProjectLegsFrame(s, mints, liquidity, 5);
        if Distinct(mints) && ProjectOpen(s, mints, liquidity, now).Some? {
          ProjectLegsMirrors(s, mints, liquidity, 5);
          SameTables(s, ProjectLegs(s, mints, liquidity, 5).value, ProjectOpen(s, mints, liquidity, now).value, mints, liquidity);
        }
      }
    }
  }

  lemma SameTables(s: State, p: State, t: State, mints: seq<Token>, liquidity: seq<nat>)
    requires |mints| == |liquidity| == |s.legs| && Projected(s, p, mints, liquidity, |mints|)
    requires t.positions == p.positions && t.v4 == p.v4 && t.truth == p.truth
    ensures Projected(s, t, mints, liquidity, |mints|)
  {
    forall token: Token | token !in mints[..|mints|] ensures SameMirror(s, t, token) {
      assert SameMirror(s, p, token);
    }
    forall i | 0 <= i < |mints| ensures ProjectedMirror(s, t, i, mints[i], liquidity[i]) {
      assert ProjectedMirror(s, p, i, mints[i], liquidity[i]);
    }
  }

  // ---- the canonical mirrors ----

  /** Every leg has its rows in both tables, of this ladder, pool and range, and is open or
      closed; an open parent is live. */
  predicate Closable(s: State) {
    && (forall i :: 0 <= i < |s.legs| ==> Mirrored(s, s.legs[i]) && (s.legs[i].status.OPEN? || s.legs[i].status.CLOSED?))
    && ((s.parent.status.OPEN? && s.parent.live) || s.parent.status.CLOSED?)
  }

  predicate Mirrored(s: State, leg: Leg) {
    && leg.token.Some? && leg.token.value in s.positions && leg.token.value in s.v4
    && var row := s.v4[leg.token.value];
       row.intent == Some(s.id) && row.pool == s.parent.pool && row.tickLower == leg.tickLower && row.tickUpper == leg.tickUpper
  }

  lemma {:induction false} MirrorLegsIff(s: State, n: nat)
    requires n <= |s.legs|
    ensures MirrorLegs(s, n).Some? <==>
              forall i :: 0 <= i < n ==> Mirrored(s, s.legs[i]) && (s.legs[i].status.OPEN? || s.legs[i].status.CLOSED?)
  {
    if n > 0 {
      MirrorLegsIff(s, n - 1);
      if MirrorLegs(s, n - 1).Some? {
        MirrorLegsFrame(s, n - 1);
        MirrorRowsFrame(s, n - 1);
      }
    }
  }

  lemma OneMirrorCloses(s: State, w: MirrorWrites, i: nat)
    requires i < |s.legs| && MirrorLeg(s, w, i).Some?
    ensures var (t, v) := MirrorLeg(s, w, i).value;
            && s.legs[i].token.Some? && MirrorRowClosed(t, s.legs[i].token.value)
            && (forall token: Token :: MirrorRowClosed(s, token) ==> MirrorRowClosed(t, token))
            && v.legs == w.legs + (if s.legs[i].status.OPEN? then 1 else 0)
            && (v.positions == 0 ==> w.positions == 0 && t.positions == s.positions)
            && (v.v4Positions == 0 ==> w.v4Positions == 0 && t.v4 == s.v4)
  {
  }

  lemma {:induction false} MirrorLegsClose(s: State, n: nat)
    requires n <= |s.legs| && MirrorLegs(s, n).Some?
    ensures var (t, w) := MirrorLegs(s, n).value;
            && (forall i :: 0 <= i < n ==> s.legs[i].token.Some? && MirrorRowClosed(t, s.legs[i].token.value))
            && (forall token: Token :: MirrorRowClosed(s, token) ==> MirrorRowClosed(t, token))
            && w.legs == OpenLegCount(s.legs[..n])
            && (w.positions == 0 ==> t.positions == s.positions) && (w.v4Positions == 0 ==> t.v4 == s.v4)
  {
    if n > 0 {
      MirrorLegsClose(s, n - 1);
      MirrorLegsFrame(s, n - 1);
      var (p, v) := MirrorLegs(s, n - 1).value;
      OneMirrorCloses(p, v, n - 1);
      assert s.legs[..n][..n - 1] == s.legs[..n - 1];
    } else {
      assert s.legs[..0] == [];
    }
  }

  /** The mirror update: when it commits, that it closes parent, legs and both tables as FUNI's
      own close without a terminal provenance, and what it counts. */
  lemma MirrorsRecordClose(s: State, now: int)
    ensures var m := CloseCanonicalMirrors(s, now);
            && (m.Some? <==> Closable(s))
            && (m.Some? ==>
                  var (t, w) := m.value;
                  && t == s.(parent := t.parent, legs := t.legs, positions := t.positions, v4 := t.v4)
                  && t.parent == (if s.parent.status.OPEN?
                                  then s.parent.(status := CLOSED, closeProvenance := Some(FUNI_EXECUTED), updatedAt := now, revision := s.parent.revision + 1)
                                  else s.parent)
                  && |t.legs| == |s.legs| && (forall i :: 0 <= i < |s.legs| ==> t.legs[i] == s.legs[i].(status := CLOSED))
                  && (forall i :: 0 <= i < |s.legs| ==> MirrorRowClosed(t, s.legs[i].token.value))
                  && t.positions.Keys == s.positions.Keys && t.v4.Keys == s.v4.Keys
                  && (forall token <- s.v4 :: SameIdentity(s.v4[token], t.v4[token]))
                  && w.legs == OpenLegCount(s.legs) && w.parent == (if s.parent.status.OPEN? then 1 else 0)
                  && (w.positions == 0 ==> t.positions == s.positions) && (w.v4Positions == 0 ==> t.v4 == s.v4))
  {
    var n := |s.legs|;
    MirrorLegsIff(s, n);
    if MirrorLegs(s, n).Some? {
      MirrorLegsFrame(s, n);
      MirrorRowsFrame(s, n);
      MirrorLegsClose(s, n);
      assert s.legs[..n] == s.legs;
    }
  }

  // ---- the reset row ----

  predicate ByHand(identity: Option<Identity>) {
    identity.Some? && identity.value.ManualAuthorization?
  }

  predicate ClosedByFuni(parent: Parent) {
    parent.status.CLOSED? && parent.closeProvenance == Some(FUNI_EXECUTED) && parent.terminalProvenance == Some(FUNI_AUTHORED_CLOSE_BATCH)
  }

  /** Confirmed by its own successful receipt. */
  predicate Succeeded(row: JournalRow) {
    row.status.CONFIRMED? && row.receipt == Some(Receipt(row.hash, true))
  }

  predicate Underway(phase: Phase) {
    phase in {CLOSE_PREPARED, CLOSE_SUBMITTED}
  }

  predicate Advanced(phase: Phase) {
    phase in {CLOSE_CONFIRMED, PRINCIPAL_RECONCILED, REOPEN_PLANNED, REOPEN_PREPARED, REOPEN_SUBMITTED, COMPLETED}
  }

  /** The confirmation of a reposition close: a close that is under way or confirmed, closed by
      FUNI with its terminal provenance, authorized by hand, with one successful close row. */
  lemma ConfirmRecords(s: State)
    ensures var c := ConfirmReposition(s);
            && (c.Some? <==>
                  && s.reset.Some? && ClosedByFuni(s.parent) && ByHand(s.reset.value.identity)
                  && |Rows(s, CLOSE_BATCH)| == 1 && Succeeded(Rows(s, CLOSE_BATCH)[0])
                  && (if Underway(s.reset.value.phase) then s.reset.value.closeReason != Some(NORMAL_OPERATOR_CLOSE)
                      else Advanced(s.reset.value.phase) && s.reset.value.closeReason == Some(USDG_RESET_REPOSITION)))
            && (c.Some? ==>
                  if Underway(s.reset.value.phase)
                  then c.value.1.APPLIED?
                       && c.value.0 == s.(reset := Some(Reset(CLOSE_CONFIRMED, s.reset.value.revision + 1, Some(USDG_RESET_REPOSITION), s.reset.value.identity)))
                  else c.value == (s, ALREADY_ADVANCED))
  {
  }

  /** The reset loop's own confirmation, on what it has read. */
  lemma ConfirmFromResetRecords(s: State, parent: Parent, reset: Reset, before: seq<JournalRow>, rows: seq<JournalRow>)
    ensures var c := ConfirmFromReset(s, parent, reset, before, rows);
            && (c.Some? <==>
                  && parent.status.CLOSED? && reset.phase.CLOSE_PREPARED? && ByHand(reset.identity)
                  && !(before != [] && before[|before| - 1].status.CONFIRMED?) && rows != [] && Succeeded(rows[|rows| - 1])
                  && s.reset.Some? && s.reset.value.phase.CLOSE_PREPARED?)
            && (c.Some? ==>
                  c.value == s.(reset := Some(Reset(CLOSE_CONFIRMED, s.reset.value.revision + 1, Some(USDG_RESET_REPOSITION), reset.identity)),
                                unproven := c.value.unproven))
  {
  }

  /** The reset part of the close transaction: an operator close ends a reset that has not
      begun to reposition, and a reposition close confirms one. */
  lemma ReconcileResetRecords(s: State, reason: CloseReason)
    ensures var t := ReconcileReset(s, reason);
            && (s.reset.None? ==> t == Some(s))
            && (s.reset.Some? && reason.NORMAL_OPERATOR_CLOSE? ==>
                  var r := s.reset.value;
                  && (t.Some? <==> r.phase.OPERATOR_CLOSED? || r.phase.OPEN_PENDING? || r.phase.WATCHING?)
                  && (t.Some? ==> t.value == if r.phase.OPERATOR_CLOSED? then s
                                             else s.(reset := Some(Reset(OPERATOR_CLOSED, r.revision + 1, Some(reason), Some(LadderIdentity))))))
            && (s.reset.Some? && reason.USDG_RESET_REPOSITION? ==>
                  && (t.Some? <==> Advanced(s.reset.value.phase) || (Underway(s.reset.value.phase) && ConfirmReposition(s).Some?))
                  && (t.Some? ==> t.value == if Advanced(s.reset.value.phase) then s else ConfirmReposition(s).value.0))
  {
  }

  /** The moves made elsewhere: from each phase the next one, to BLOCKED until the reset is
      over, and back from BLOCKED once the close was confirmed. */
  predicate PhaseMoves(r: Reset, to: Phase) {
    var resumed := r.phase.BLOCKED? && r.closeReason == Some(USDG_RESET_REPOSITION);
    || (to.WATCHING? && r.phase.OPEN_PENDING?)
    || (to.PRINCIPAL_RECONCILED? && (r.phase.CLOSE_CONFIRMED? || resumed))
    || (to.REOPEN_PLANNED? && (r.phase.PRINCIPAL_RECONCILED? || resumed))
    || (to.REOPEN_PREPARED? && r.phase.REOPEN_PLANNED?)
    || (to.REOPEN_SUBMITTED? && r.phase.REOPEN_PREPARED?)
    || (to.COMPLETED? && (r.phase.REOPEN_PLANNED? || r.phase.REOPEN_PREPARED? || r.phase.REOPEN_SUBMITTED?))
    || (to.BLOCKED? && !r.phase.COMPLETED? && !r.phase.OPERATOR_CLOSED?)
  }

  lemma PhaseRecords(s: State, to: Phase)
    ensures var t := MovePhase(s, to);
            && (t.Some? <==> s.reset.Some? && PhaseMoves(s.reset.value, to))
            && (t.Some? ==> t.value == s.(reset := Some(s.reset.value.(phase := to, revision := s.reset.value.revision + 1))))
  {
  }

  // ---- a close as empty, and from outside ----

  /** The close as empty is the mirror update, with an operator close of a reset that has not
      begun; every other reset is left where it is. */
  lemma EmptyRecords(s: State, reason: CloseReason, now: int)
    ensures var e := CloseEmpty(s, reason, now);
            && (e.Some? <==> Closable(s))
            && (e.Some? ==>
                  var m := CloseCanonicalMirrors(s, now).value.0;
                  e.value == m.(reset :=
                    if s.reset.Some? && reason.NORMAL_OPERATOR_CLOSE? && (s.reset.value.phase.OPEN_PENDING? || s.reset.value.phase.WATCHING?)
                    then Some(Reset(OPERATOR_CLOSED, s.reset.value.revision + 1, Some(NORMAL_OPERATOR_CLOSE), Some(LadderIdentity)))
                    else s.reset))
  {
    MirrorsRecordClose(s, now);
  }

  /** The external settlement: refused unless the ladder was picked as closed from outside and
      read as minted, not FUNI's, and without a confirmed close. */
  lemma ExternalRecords(s: State, candidate: Parent, seen: Reading, allLegs: bool, now: int)
    ensures var t := SettleExternally(s, candidate, seen, allLegs, now);
            && (t.Some? <==>
                  && candidate.status.CLOSED? && PickedFromOutside(candidate) && FullyMinted(seen.legs)
                  && seen.parent.closeProvenance != Some(FUNI_EXECUTED) && seen.parent.terminalProvenance != Some(FUNI_AUTHORED_CLOSE_BATCH)
                  && forall i :: 0 <= i < |seen.closeRows| ==> !seen.closeRows[i].status.CONFIRMED?)
            && (t.Some? && !allLegs ==> t.value == s)
            && (t.Some? && allLegs ==>
                  var u := t.value;
                  && u == s.(parent := u.parent, legs := u.legs, positions := u.positions, v4 := u.v4)
                  && RowsKept(s, u) && OthersKept(s, u, Tokens(seen.legs))
                  && (forall i :: 0 <= i < 5 ==> MirrorRowClosed(u, seen.legs[i].token.value))
                  && |u.legs| == |s.legs| && (forall i :: 0 <= i < |s.legs| ==> u.legs[i] == s.legs[i].(status := CLOSED))
                  && ClosedFromOutside(s.parent, u.parent, now))
  {
    if SettleExternally(s, candidate, seen, allLegs, now).Some? && allLegs {
      OutsideWrites(s, seen, now);
    }
  }

  predicate PickedFromOutside(candidate: Parent) {
    || candidate.terminalProvenance == Some(EXTERNAL_ONCHAIN_MUTATION)
    || (candidate.terminalProvenance.None?
        && (candidate.closeProvenance == Some(UNKNOWN_EXTERNAL) || candidate.closeProvenance == Some(EXTERNAL_OPERATOR_CLOSE)))
  }

  /** The parent is marked as closed from outside once; a close that FUNI executed stays one. */
  predicate ClosedFromOutside(p: Parent, q: Parent, now: int) {
    if p.terminalProvenance == Some(EXTERNAL_ONCHAIN_MUTATION) then q == p
    else
      && q.status.CLOSED? && q.terminalProvenance == Some(EXTERNAL_ONCHAIN_MUTATION)
      && q.closeProvenance == Some(if p.closeProvenance == Some(FUNI_EXECUTED) then FUNI_EXECUTED else UNKNOWN_EXTERNAL)
      && q.updatedAt == now && q.revision == p.revision + 1
      && q.live == p.live && q.pool == p.pool && q.cancelReason == p.cancelReason
  }

  lemma OutsideWrites(s: State, seen: Reading, now: int)
    requires FullyMinted(seen.legs)
    ensures var u := WriteExternally(s, seen, now);
            && u == s.(parent := u.parent, legs := u.legs, positions := u.positions, v4 := u.v4)
            && RowsKept(s, u) && OthersKept(s, u, Tokens(seen.legs))
            && u.legs == CloseExternalLegs(s.legs) && ClosedFromOutside(s.parent, u.parent, now)
            && forall i :: 0 <= i < 5 ==> MirrorRowClosed(u, seen.legs[i].token.value)
  {
    var tokens := Tokens(seen.legs);
    OutsideTokens(s, tokens, now);
    var c, u := CloseTokens(s, tokens, false, now).0, WriteExternally(s, seen, now);
    assert u.positions == c.positions && u.v4 == c.v4 && u.truth == c.truth;
    SameRowsKept(s, c, u);
    forall i | 0 <= i < 5 ensures MirrorRowClosed(u, seen.legs[i].token.value) {
      assert MirrorRowClosed(c, tokens[i]);
    }
  }

  lemma OutsideTokens(s: State, tokens: seq<Token>, now: int)
    ensures var c := CloseTokens(s, tokens, false, now).0;
            && c == s.(positions := c.positions, v4 := c.v4)
            && RowsKept(s, c) && OthersKept(s, c, tokens)
            && forall i :: 0 <= i < |tokens| ==> MirrorRowClosed(c, tokens[i])
  {
    CloseTokensFrame(s, tokens, false, now);
    CloseTokensSettles(s, tokens, false, now);
    CloseTokensKeepOthers(s, tokens, false, now);
    ExternalKeepsTruth(s, tokens, now);
  }

  // ---- cancellations, and a new plan ----

  /** Why a plan may not be cancelled; it expires after thirty minutes. */
  predicate Blocks(s: State, expectedRevision: nat, now: int, b: CancelBlocker) {
    match b
    case MODE_INVALID => !s.parent.live
    case STATE_NOT_PLANNED => !s.parent.status.PLANNED?
    case REVISION_CHANGED => s.parent.revision != expectedRevision
    case TTL_NOT_ELAPSED => now < s.parent.updatedAt + 1_800_000
    case LEG_SET_AMBIGUOUS => |s.legs| != 5
    case LEG_STATE_ADVANCED => exists i | 0 <= i < |s.legs| :: !s.legs[i].status.PLANNED?
    case MINTED_TOKEN_EVIDENCE => exists i | 0 <= i < |s.legs| :: s.legs[i].token.Some?
    case BATCH_EVIDENCE => exists i | 0 <= i < |s.legs| :: s.legs[i].openBatch.Some? || s.legs[i].closeBatch.Some?
    case TRANSACTION_JOURNAL_EVIDENCE => exists stage <- s.journal :: |s.journal[stage]| > 0
    case EVIDENCE_ELSEWHERE(_) => false
  }

  /** Every blocker is reported for its own reason, beside those found in other tables. */
  lemma BlockersAre(s: State, expectedRevision: nat, now: int, elsewhere: seq<CancelBlocker>)
    ensures forall b :: b in CancelBlockers(s, expectedRevision, now, elsewhere) <==> Blocks(s, expectedRevision, now, b) || b in elsewhere
  {
    forall b ensures b in CancelBlockers(s, expectedRevision, now, elsewhere) <==> Blocks(s, expectedRevision, now, b) || b in elsewhere {
      BlockerIs(s, expectedRevision, now, elsewhere, b);
      PushedBlocks(s, expectedRevision, now, b);
    }
  }

  /** The reasons as the cancellation checks them. */
  predicate Pushed(s: State, expectedRevision: nat, now: int, b: CancelBlocker) {
    || (!s.parent.live && b == MODE_INVALID)
    || (!s.parent.status.PLANNED? && b == STATE_NOT_PLANNED)
    || (s.parent.revision != expectedRevision && b == REVISION_CHANGED)
    || (now - s.parent.updatedAt < BID_LADDER_PLANNED_AUTO_EXPIRY_MS && b == TTL_NOT_ELAPSED)
    || (|s.legs| != 5 && b == LEG_SET_AMBIGUOUS)
    || (!LegsPlanned(s.legs) && b == LEG_STATE_ADVANCED)
    || (!LegsUnminted(s.legs) && b == MINTED_TOKEN_EVIDENCE)
    || (!LegsUnbound(s.legs) && b == BATCH_EVIDENCE)
    || (HasJournal(s) && b == TRANSACTION_JOURNAL_EVIDENCE)
  }

  lemma PushedBlocks(s: State, expectedRevision: nat, now: int, b: CancelBlocker)
    ensures Pushed(s, expectedRevision, now, b) <==> Blocks(s, expectedRevision, now, b)
  {
  }

  lemma BlockerIs(s: State, expectedRevision: nat, now: int, elsewhere: seq<CancelBlocker>, b: CancelBlocker)
    ensures b in CancelBlockers(s, expectedRevision, now, elsewhere) <==> Pushed(s, expectedRevision, now, b) || b in elsewhere
  {
    var r := PushedList(s, expectedRevision, now, elsewhere, b);
    InBoth(r, elsewhere, b);
  }

  lemma InBoth(r: seq<CancelBlocker>, elsewhere: seq<CancelBlocker>, b: CancelBlocker)
    ensures b in r + elsewhere <==> b in r || b in elsewhere
  {
  }

  lemma PushedList(s: State, expectedRevision: nat, now: int, elsewhere: seq<CancelBlocker>, b: CancelBlocker)
    returns (r: seq<CancelBlocker>)
    ensures CancelBlockers(s, expectedRevision, now, elsewhere) == r + elsewhere
    ensures b in r <==> Pushed(s, expectedRevision, now, b)
  {
    var p := s.parent;
    r := NineBlocks(!p.live, !p.status.PLANNED?, p.revision != expectedRevision,
                    now - p.updatedAt < BID_LADDER_PLANNED_AUTO_EXPIRY_MS, |s.legs| != 5, !LegsPlanned(s.legs),
                    !LegsUnminted(s.legs), !LegsUnbound(s.legs), HasJournal(s), b);
  }

  lemma NineBlocks(mode: bool, planned: bool, revision: bool, early: bool, five: bool, advanced: bool,
                   minted: bool, bound: bool, journaled: bool, b: CancelBlocker)
    returns (r: seq<CancelBlocker>)
    ensures r == Block(Block(Block(Block(Block(Block(Block(Block(Block([], mode, MODE_INVALID), planned, STATE_NOT_PLANNED),
                                                     revision, REVISION_CHANGED), early, TTL_NOT_ELAPSED), five, LEG_SET_AMBIGUOUS),
                                   advanced, LEG_STATE_ADVANCED), minted, MINTED_TOKEN_EVIDENCE), bound, BATCH_EVIDENCE),
                       journaled, TRANSACTION_JOURNAL_EVIDENCE)
    ensures b in r <==>
              (mode && b == MODE_INVALID) || (planned && b == STATE_NOT_PLANNED) || (revision && b == REVISION_CHANGED)
              || (early && b == TTL_NOT_ELAPSED) || (five && b == LEG_SET_AMBIGUOUS) || (advanced && b == LEG_STATE_ADVANCED)
              || (minted && b == MINTED_TOKEN_EVIDENCE) || (bound && b == BATCH_EVIDENCE) || (journaled && b == TRANSACTION_JOURNAL_EVIDENCE)
  {
    var b6 := SixBlocks(mode, planned, revision, early, five, advanced, b);
    ThreeBlocks(b6, minted, MINTED_TOKEN_EVIDENCE, bound, BATCH_EVIDENCE, journaled, TRANSACTION_JOURNAL_EVIDENCE, b);
    r := Block(Block(Block(b6, minted, MINTED_TOKEN_EVIDENCE), bound, BATCH_EVIDENCE), journaled, TRANSACTION_JOURNAL_EVIDENCE);
  }

  lemma SixBlocks(mode: bool, planned: bool, revision: bool, early: bool, five: bool, advanced: bool, b: CancelBlocker)
    returns (r: seq<CancelBlocker>)
    ensures r == Block(Block(Block(Block(Block(Block([], mode, MODE_INVALID), planned, STATE_NOT_PLANNED), revision, REVISION_CHANGED),
                                   early, TTL_NOT_ELAPSED), five, LEG_SET_AMBIGUOUS), advanced, LEG_STATE_ADVANCED)
    ensures b in r <==>
              (mode && b == MODE_INVALID) || (planned && b == STATE_NOT_PLANNED) || (revision && b == REVISION_CHANGED)
              || (early && b == TTL_NOT_ELAPSED) || (five && b == LEG_SET_AMBIGUOUS) || (advanced && b == LEG_STATE_ADVANCED)
  {
    var b3 := Block(Block(Block([], mode, MODE_INVALID), planned, STATE_NOT_PLANNED), revision, REVISION_CHANGED);
    ThreeBlocks([], mode, MODE_INVALID, planned, STATE_NOT_PLANNED, revision, REVISION_CHANGED, b);
    ThreeBlocks(b3, early, TTL_NOT_ELAPSED, five, LEG_SET_AMBIGUOUS, advanced, LEG_STATE_ADVANCED, b);
    r := Block(Block(Block(b3, early, TTL_NOT_ELAPSED), five, LEG_SET_AMBIGUOUS), advanced, LEG_STATE_ADVANCED);
  }

  lemma ThreeBlocks(blockers: seq<CancelBlocker>, x: bool, p: CancelBlocker, y: bool, q: CancelBlocker, z: bool, r: CancelBlocker, b: CancelBlocker)
    ensures b in Block(Block(Block(blockers, x, p), y, q), z, r)
            <==> b in blockers || (x && b == p) || (y && b == q) || (z && b == r)
  {
  }

  /** What a cancellation writes: parent and legs cancelled with this reason, one revision up. */
  predicate Cancels(s: State, t: State, reason: CancelReason, now: int) {
    && t.parent == s.parent.(status := CANCELLED, cancelReason := Some(reason), updatedAt := now, revision := s.parent.revision + 1)
    && |t.legs| == |s.legs| && (forall i :: 0 <= i < |s.legs| ==> t.legs[i] == s.legs[i].(status := CANCELLED))
    && t == s.(parent := t.parent, legs := t.legs, reset := t.reset)
  }

  lemma CancelRecords(s: State, expectedRevision: nat, now: int, elsewhere: seq<CancelBlocker>)
    ensures var c := Cancel(s, expectedRevision, now, elsewhere);
            c.Some?
            && (match c.value.1
                case CANCELLED_NOW => Cancels(s, c.value.0, AUTO_EXPIRED_PLANNED_30M, now) && c.value.0.reset == s.reset
                case ALREADY_CANCELLED => c.value.0 == s && s.parent.status.CANCELLED?
                case CONCURRENT_STATE_CHANGED =>
                  c.value.0 == s && !s.parent.status.CANCELLED? && (!s.parent.status.PLANNED? || s.parent.revision != expectedRevision)
                case BLOCKED_BY(blockers) =>
                  c.value.0 == s && s.parent.status.PLANNED? && s.parent.revision == expectedRevision && blockers != []
                  && forall b :: b in blockers <==> Blocks(s, expectedRevision, now, b) || b in elsewhere)
  {
    BlockersAre(s, expectedRevision, now, elsewhere);
    if CancelBlockers(s, expectedRevision, now, elsewhere) == [] {
      assert LegsPlanned(s.legs) && LegsUnminted(s.legs) && LegsUnbound(s.legs);
    }
  }

  lemma OrphanRecords(s: State, now: int)
    ensures var t := CancelOrphan(s, now);
            && (t.Some? <==>
                  && s.parent.status.PLANNED? && |s.legs| == 5 && s.reset.Some? && s.reset.value.phase.OPEN_PENDING?
                  && forall i :: 0 <= i < 5 ==> s.legs[i].status.PLANNED? && s.legs[i].token.None? && s.legs[i].openBatch.None?)
            && (t.Some? ==>
                  Cancels(s, t.value, REPOSITION_SOURCE_BLOCKED_PRE_OPEN, now)
                  && t.value.reset == Some(s.reset.value.(phase := BLOCKED, revision := s.reset.value.revision + 1)))
  {
  }

  lemma RematerializeRecords(s: State, ticks: seq<(int, int)>, parentRevision: nat, resetRevision: nat, now: int)
    ensures var t := Rematerialize(s, ticks, parentRevision, resetRevision, now);
            && (t.Some? <==>
                  && s.parent.status.PLANNED? && s.parent.revision == parentRevision && |ticks| == |s.legs|
                  && s.reset.Some? && s.reset.value.phase.OPEN_PENDING? && s.reset.value.revision == resetRevision
                  && forall i :: 0 <= i < |s.legs| ==> s.legs[i].status.PLANNED? && s.legs[i].token.None? && s.legs[i].openBatch.None?)
            && (t.Some? ==>
                  && t.value == s.(parent := t.value.parent, legs := t.value.legs, reset := t.value.reset)
                  && t.value.parent == s.parent.(revision := s.parent.revision + 1, updatedAt := now)
                  && t.value.reset == Some(s.reset.value.(revision := s.reset.value.revision + 1))
                  && |t.value.legs| == |s.legs|
                  && forall i :: 0 <= i < |s.legs| ==> t.value.legs[i] == s.legs[i].(tickLower := ticks[i].0, tickUpper := ticks[i].1))
  {
  }

  /** A reading of one position: its known rows take the status and liquidity that were read,
      its truth row the whole reading, and nothing else changes. */
  lemma ObserveRecords(s: State, token: Token, status: PositionStatus, liquidity: nat, truth: Truth)
    ensures var t := ObservePosition(s, token, status, liquidity, truth);
            && t == s.(positions := t.positions, v4 := t.v4, truth := t.truth)
            && t.positions.Keys == s.positions.Keys && t.v4.Keys == s.v4.Keys && t.truth.Keys == s.truth.Keys + {token}
            && (forall other <- s.positions :: t.positions[other] == if other == token then status else s.positions[other])
            && (forall other <- s.v4 :: t.v4[other] == if other == token then s.v4[other].(status := status, liquidity := liquidity) else s.v4[other])
            && (forall other <- t.truth :: t.truth[other] == if other == token then truth else s.truth[other])
  {
  }
}
