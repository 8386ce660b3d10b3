/** The ladder rows as the database updates them in place. Each method is one transaction:
    it commits what its specification says, or throws and leaves every row as it was. */
module LadderStore {
  import opened Prelude
  import opened LadderModel
  import opened LadderInvariant
  import opened LadderClose
  import opened LadderLifecycle

  class Store {
    const id: nat
    var parent: Parent
    var legs: seq<Leg>
    var journal: map<Stage, seq<JournalRow>>
    var positions: map<Token, PositionStatus>
    var v4: map<Token, V4Row>
    var truth: map<Token, Truth>
    var reset: Option<Reset>
    var unproven: bool

    function Rows(): State
      reads this
    {
      State(id, parent, legs, journal, positions, v4, truth, reset, unproven)
    }

    /** A planned ladder with its legs. */
    constructor (id: nat, parent: Parent, legs: seq<Leg>, reset: Option<Reset>)
      ensures Rows() == State(id, parent, legs, map[], map[], map[], map[], reset, false)
    {
      this.id, this.parent, this.legs, this.reset, unproven := id, parent, legs, reset, false;
      journal, positions, v4, truth := map[], map[], map[], map[];
    }

    method Rollback(s: State)
      requires s.id == id
      modifies this
      ensures Rows() == s
    {
      parent, legs, journal, positions, v4, truth, reset, unproven :=
        s.parent, s.legs, s.journal, s.positions, s.v4, s.truth, s.reset, s.unproven;
    }

    // ---- submit ----

    method PersistPrepared(slot: Slot, hash: Hash, reason: CloseReason, auth: Option<Identity>, now: int) returns (ok: bool)
      modifies this
      ensures var t := Prepare(old(Rows()), slot, hash, reason, auth, now);
              ok == t.Some? && Rows() == if ok then t.value else old(Rows())
    {
      var before := Rows();
      var inserted := PrepareRow(before, slot, hash);
      if inserted.None? { return false; }
      journal := inserted.value.journal;
      ok := true;
      if IsOpenStage(slot.stage) {
        ok := BindOpeningRows(slot, now);
      } else if slot.stage.CLOSE_BATCH? {
        ok := BindClosingRows(slot, reason, auth);
      }
      if !ok { Rollback(before); }
    }

    method BindOpeningRows(slot: Slot, now: int) returns (ok: bool)
      modifies this`parent, this`legs
      ensures var t := BindOpening(old(Rows()), slot, now);
              ok == t.Some? && (ok ==> Rows() == t.value)
    {
      if !parent.status.PLANNED? { return false; }
      parent := parent.(live := true, revision := parent.revision + 1, updatedAt := now);
      if slot.stage.OPEN_BATCH? { BindLegs(slot, false); }
      return true;
    }

    method BindClosingRows(slot: Slot, reason: CloseReason, auth: Option<Identity>) returns (ok: bool)
      modifies this`legs, this`reset
      ensures var t := BindClosing(old(Rows()), slot, reason, auth);
              ok == t.Some? && (ok ==> Rows() == t.value)
    {
      BindLegs(slot, true);
      if !reason.USDG_RESET_REPOSITION? { return true; }
      if reset.None? { return false; }
      if reset.value.phase.WATCHING? {
        if !Manual(auth) { return false; }
        reset := Some(reset.value.(identity := auth, phase := CLOSE_PREPARED, revision := reset.value.revision + 1));
        return true;
      }
      return reset.value.phase.CLOSE_PREPARED? && Manual(reset.value.identity);
    }

    method BindLegs(slot: Slot, closing: bool)
      modifies this`legs
      ensures legs == if closing then BindClose(old(legs), slot) else BindOpen(old(legs), slot)
    {
      ghost var bound := if closing then BindClose(legs, slot) else BindOpen(legs, slot);
      var i := 0;
      while i < |legs|
        invariant 0 <= i <= |legs| == |old(legs)|
        invariant forall k :: 0 <= k < i ==> legs[k] == bound[k]
        invariant forall k :: i <= k < |legs| ==> legs[k] == old(legs)[k]
      {
        if !closing {
          legs := legs[i := legs[i].(openBatch := Some(slot))];
        } else if legs[i].status.OPEN? {
          legs := legs[i := legs[i].(closeBatch := Some(slot))];
        }
        i := i + 1;
      }
    }

    // ---- open projection ----

    method PersistOpenProjection(mints: seq<Token>, liquidity: seq<nat>, now: int) returns (ok: bool)
      modifies this
      ensures var t := ProjectOpen(old(Rows()), mints, liquidity, now);
              ok == t.Some? && Rows() == if ok then t.value else old(Rows())
    {
      var before := Rows();
      if !ConfirmedOpen(before) || |legs| != 5 || |mints| != 5 || |liquidity| != 5 || parent.status.CANCELLED? {
        return false;
      }
      var i := 0;
      while i < 5
        invariant 0 <= i <= 5 == |legs|
        invariant ProjectLegs(before, mints, liquidity, i) == Some(Rows())
      {
        if TokenConflict(legs[i], mints[i]) {
          ProjectionStops(before, mints, liquidity, i + 1, 5);
          Rollback(before);
          return false;
        }
        ProjectOneLeg(i, mints[i], liquidity[i]);
        i := i + 1;
      }
      if parent.live && (parent.status.PLANNED? || parent.status.OPEN?) {
        parent := parent.(status := OPEN, updatedAt := now,
                          revision := parent.revision + if parent.status.PLANNED? then 1 else 0);
      }
      return true;
    }

    method ProjectOneLeg(i: nat, token: Token, liquidity: nat)
      requires i < |legs|
      modifies this`positions, this`v4, this`truth, this`legs
      ensures Rows() == ProjectLeg(old(Rows()), i, token, liquidity)
    {
      var leg := legs[i];
      if token !in positions { positions := positions[token := POpen]; }
      v4 := v4[token := if token in v4
                        then v4[token].(status := POpen, liquidity := liquidity, pool := parent.pool)
                        else V4Row(POpen, liquidity, Some(id), parent.pool, leg.tickLower, leg.tickUpper)];
      if token !in truth { truth := truth[token := Truth(UNKNOWN, None, None, None, None, false, false, 0, 0, false)]; }
      if leg.status.PLANNED? || leg.status.OPEN? {
        legs := legs[i := leg.(status := OPEN, token := Some(token), openBatch := Some(Slot(OPEN_BATCH, 0)))];
      }
    }

    // ---- terminal convergence ----

    method ConvergeTerminal(requested: Option<Provenance>, now: int) returns (r: Result<nat, ConvergenceError>)
      modifies this
      ensures match Converge(old(Rows()), requested, now)
              case Ok(done) => r == Ok(done.1) && Rows() == done.0
              case Err(error) => r == Err(error) && Rows() == old(Rows())
      ensures Inv(old(Rows())) && r.Ok? ==>
                ParentConverged(old(parent), parent, ConfirmedByFuni(old(Rows())), now) && ResetConverged(old(reset), reset, ConfirmedByFuni(old(Rows())))
    {
      ghost var before := Rows();
      r := ConvergeRows(requested, now);
      if Inv(before) && r.Ok? { ConvergeRecords(before, requested, now); }
    }

    method ConvergeRows(requested: Option<Provenance>, now: int) returns (r: Result<nat, ConvergenceError>)
      modifies this
      ensures match Converge(old(Rows()), requested, now)
              case Ok(done) => r == Ok(done.1) && Rows() == done.0
              case Err(error) => r == Err(error) && Rows() == old(Rows())
    {
      var before := Rows();
      var close := CloseSlot(before);
      var funi := ChosenProvenance(before, requested).FUNI_CLOSE_CONFIRMED?;
      var refused := EvidenceError(close, funi, now);
      if refused.Some? { return Err(refused.value); }
      var tokens := Tokens(legs);
      var mirrors := CloseMirrorRows(tokens, funi, now);
      if mirrors.None? {
        Rollback(before);
        return Err(TOKEN_LINEAGE_MISMATCH);
      }
      CloseTokensFrame(before, tokens, funi, now);
      var ladderWrites := CloseLadderRows(close, funi, now);
      var resetWrites := CloseResetRow(funi);
      return Ok(mirrors.value + ladderWrites + resetWrites);
    }

    method CloseLadderRows(close: Option<Slot>, funi: bool, now: int) returns (writes: nat)
      modifies this`legs, this`parent
      ensures legs == CloseLegs(old(legs), close) && parent == CloseParent(old(parent), funi, now)
      ensures writes == OpenLegCount(old(legs)) + if old(parent).status.OPEN? then 1 else 0
    {
      writes := CloseOpenLegs(close);
      if parent.status.OPEN? {
        parent, writes := CloseParent(parent, funi, now), writes + 1;
      }
    }

    /** The checks before the first write. */
    method EvidenceError(close: Option<Slot>, funi: bool, now: int) returns (error: Option<ConvergenceError>)
      ensures error == if !FullyMinted(legs) then Some(IDENTITY_INCOMPLETE)
                       else if funi && close.None? then Some(FUNI_RECEIPT_REQUIRED)
                       else if !funi && close.Some? then Some(PROVENANCE_CONFLICT)
                       else if AnyUnresolved(Rows()) then Some(TRANSACTION_IN_PROGRESS)
                       else if !funi && exists t <- Tokens(legs) :: !EmptyOwned(truth, t, now) then Some(EVIDENCE_INCOMPLETE_OR_STALE)
                       else None
    {
      if !FullyMinted(legs) { return Some(IDENTITY_INCOMPLETE); }
      if funi && close.None? { return Some(FUNI_RECEIPT_REQUIRED); }
      if !funi && close.Some? { return Some(PROVENANCE_CONFLICT); }
      if AnyUnresolved(Rows()) { return Some(TRANSACTION_IN_PROGRESS); }
      var tokens := Tokens(legs);
      if !funi && exists t <- tokens :: !EmptyOwned(truth, t, now) { return Some(EVIDENCE_INCOMPLETE_OR_STALE); }
      return None;
    }

    /** The loop over the legs' tokens: it throws at the first token that is not the
        ladder's own. */
    method CloseMirrorRows(tokens: seq<Token>, funi: bool, now: int) returns (writes: Option<nat>)
      modifies this`positions, this`v4, this`truth
      ensures writes.Some? <==> forall t <- tokens :: Lineage(old(Rows()), t)
      ensures writes.Some? ==> (Rows(), writes.value) == CloseTokens(old(Rows()), tokens, funi, now)
    {
      ghost var before := Rows();
      var w, i := 0, 0;
      while i < |tokens|
        invariant 0 <= i <= |tokens|
        invariant (Rows(), w) == CloseTokens(before, tokens[..i], funi, now)
        invariant forall j :: 0 <= j < i ==> Lineage(before, tokens[j])
      {
        LineageKept(before, tokens[..i], funi, now, tokens[i]);
        if !Lineage(Rows(), tokens[i]) { return None; }
        var changed := CloseMirrorRow(tokens[i], funi, now);
        assert tokens[..i + 1][..i] == tokens[..i];
        w, i := w + changed, i + 1;
      }
      assert tokens[..i] == tokens;
      return Some(w);
    }

    method CloseMirrorRow(token: Token, funi: bool, now: int) returns (writes: nat)
      modifies this`positions, this`v4, this`truth
      ensures (Rows(), writes) == CloseToken(old(Rows()), token, funi, now)
    {
      writes := 0;
      if token in positions && !positions[token].PClosed? {
        positions, writes := positions[token := PClosed], writes + 1;
      }
      if token in v4 && (!v4[token].status.PClosed? || v4[token].liquidity != 0) {
        v4, writes := v4[token := v4[token].(status := PClosed, liquidity := 0)], writes + 1;
      }
      if funi && token in truth && Unsettled(truth[token]) {
        truth, writes := truth[token := SettledTruth(truth[token], now)], writes + 1;
      }
    }

    method CloseOpenLegs(close: Option<Slot>) returns (changed: nat)
      modifies this`legs
      ensures legs == CloseLegs(old(legs), close) && changed == OpenLegCount(old(legs))
    {
      ghost var before := legs;
      ghost var after := CloseLegs(legs, close);
      changed := 0;
      var i := 0;
      while i < |legs|
        invariant 0 <= i <= |legs| == |before|
        invariant forall k :: 0 <= k < i ==> legs[k] == after[k]
        invariant forall k :: i <= k < |legs| ==> legs[k] == before[k]
        invariant changed == OpenLegCount(before[..i])
      {
        var leg := legs[i];
        assert before[..i + 1][..i] == before[..i];
        if leg.status.OPEN? {
          legs := legs[i := leg.(status := CLOSED, closeBatch := if leg.closeBatch.Some? then leg.closeBatch else close)];
          changed := changed + 1;
        }
        i := i + 1;
      }
      assert before[..i] == before;
    }

    method CloseResetRow(funi: bool) returns (writes: nat)
      modifies this`reset
      ensures (Rows(), writes) == CloseReset(old(Rows()), funi)
    {
      writes := 0;
      if reset.None? { return; }
      var row := reset.value;
      if !funi && !row.phase.BLOCKED? && !row.phase.COMPLETED? && !row.phase.OPERATOR_CLOSED? {
        reset, writes := Some(row.(phase := BLOCKED, revision := row.revision + 1)), 1;
      }
      if funi && row.phase.WATCHING? {
        var identity := if row.identity.Some? then row.identity else Some(LadderIdentity);
        reset, writes := Some(row.(phase := OPERATOR_CLOSED, closeReason := Some(NORMAL_OPERATOR_CLOSE),
                                   identity := identity, revision := row.revision + 1)), 1;
      }
    }

    // ---- close reconciliation ----

    method CloseMirrors(now: int) returns (r: Option<MirrorWrites>)
      modifies this
      ensures match CloseCanonicalMirrors(old(Rows()), now)
              case Some(done) => r == Some(done.1) && Rows() == done.0
              case None => r == None && Rows() == old(Rows())
    {
      var before := Rows();
      var writes := MirrorWrites(0, 0, 0, 0);
      var i := 0;
      while i < |legs|
        invariant 0 <= i <= |legs| == |before.legs|
        invariant MirrorLegs(before, i) == Some((Rows(), writes))
      {
        var next := CloseMirror(i, writes);
        if next.None? {
          MirrorStops(before, i + 1, |before.legs|);
          Rollback(before);
          return None;
        }
        writes, i := next.value, i + 1;
      }
      if parent.status.OPEN? && parent.live {
        parent := parent.(status := CLOSED, closeProvenance := Some(FUNI_EXECUTED), updatedAt := now,
                          revision := parent.revision + 1);
        writes := writes.(parent := 1);
      } else if !parent.status.CLOSED? {
        Rollback(before);
        return None;
      }
      return Some(writes);
    }

    method CloseMirror(i: nat, writes: MirrorWrites) returns (r: Option<MirrorWrites>)
      requires i < |legs|
      modifies this`positions, this`v4, this`legs
      ensures match MirrorLeg(old(Rows()), writes, i)
              case Some(done) => r == Some(done.1) && Rows() == done.0
              case None => r == None && Rows() == old(Rows())
    {
      var leg, w := legs[i], writes;
      if !MirrorPresent(Rows(), leg) || !(leg.status.OPEN? || leg.status.CLOSED?) { return None; }
      var token := leg.token.value;
      if !positions[token].PClosed? {
        positions, w := positions[token := PClosed], w.(positions := w.positions + 1);
      }
      if !v4[token].status.PClosed? || v4[token].liquidity != 0 {
        v4 := v4[token := v4[token].(status := PClosed, liquidity := 0)];
        w := w.(v4Positions := w.v4Positions + 1);
      }
      if leg.status.OPEN? {
        legs, w := legs[i := leg.(status := CLOSED)], w.(legs := w.legs + 1);
      }
      return Some(w);
    }

    method Reconcile(receipt: Receipt, reason: CloseReason, now: int) returns (ok: bool)
      modifies this
      ensures var t := ReconcileClose(old(Rows()), receipt, reason, now);
              ok == t.Some? && Rows() == if ok then t.value else old(Rows())
    {
      var before := Rows();
      var c := ConvergeTerminal(Some(FUNI_CLOSE_CONFIRMED), now);
      if c.Err? { return false; }
      var writes := CloseMirrors(now);
      if writes.None? { Rollback(before); return false; }
      var settled := SettleResetRow(reason);
      if !settled || !ClosePostcondition(Rows(), receipt, before.parent.revision, before.parent.status.OPEN?, writes.value) {
        Rollback(before);
        return false;
      }
      return true;
    }

    method SettleResetRow(reason: CloseReason) returns (ok: bool)
      modifies this`reset
      ensures var t := ReconcileReset(old(Rows()), reason); ok == t.Some? && (ok ==> Rows() == t.value)
    {
      var settled := ReconcileReset(Rows(), reason);
      ok := settled.Some?;
      if ok { reset := settled.value.reset; }
    }

    // ---- external settlement ----

    /** The checks are made on what was read before the transaction. */
    method SettleExternal(candidate: Parent, seen: Reading, allLegs: bool, now: int) returns (ok: bool)
      requires |seen.legs| == |legs|
      modifies this
      ensures var t := SettleExternally(old(Rows()), candidate, seen, allLegs, now);
              ok == t.Some? && Rows() == if ok then t.value else old(Rows())
    {
      var terminal := if candidate.terminalProvenance.None? && candidate.closeProvenance.Some? && candidate.closeProvenance.value != FUNI_EXECUTED
                      then Some(EXTERNAL_ONCHAIN_MUTATION) else candidate.terminalProvenance;
      if !candidate.status.CLOSED? || terminal != Some(EXTERNAL_ONCHAIN_MUTATION) { return false; }
      if !FullyMinted(seen.legs) { return false; }
      if seen.parent.closeProvenance == Some(FUNI_EXECUTED) || seen.parent.terminalProvenance == Some(FUNI_AUTHORED_CLOSE_BATCH) { return false; }
      var confirmed := AnyConfirmed(seen.closeRows);
      if confirmed { return false; }
      if !allLegs { return true; }
      CloseExternalRows(Tokens(seen.legs), now);
      if parent.terminalProvenance != Some(EXTERNAL_ONCHAIN_MUTATION) {
        parent := parent.(status := CLOSED,
                          closeProvenance := if parent.closeProvenance == Some(FUNI_EXECUTED) then Some(FUNI_EXECUTED) else Some(UNKNOWN_EXTERNAL),
                          terminalProvenance := Some(EXTERNAL_ONCHAIN_MUTATION), updatedAt := now,
                          revision := parent.revision + 1);
      }
      return true;
    }

    method AnyConfirmed(rows: seq<JournalRow>) returns (found: bool)
      ensures found <==> exists i | 0 <= i < |rows| :: rows[i].status.CONFIRMED?
    {
      for i := 0 to |rows|
        invariant forall k :: 0 <= k < i ==> !rows[k].status.CONFIRMED?
      {
        if rows[i].status.CONFIRMED? { return true; }
      }
      return false;
    }

    method CloseExternalRows(tokens: seq<Token>, now: int)
      requires |tokens| == |legs|
      modifies this`positions, this`v4, this`legs
      ensures var s := CloseTokens(old(Rows()), tokens, false, now).0;
              Rows() == s.(legs := CloseExternalLegs(s.legs))
    {
      ghost var before := Rows();
      var i := 0;
      ghost var closed := CloseExternalLegs(legs);
      while i < |tokens|
        invariant 0 <= i <= |tokens| == |legs| == |before.legs|
        invariant forall k :: 0 <= k < i ==> legs[k] == closed[k]
        invariant forall k :: i <= k < |legs| ==> legs[k] == before.legs[k]
        invariant Rows().(legs := before.legs) == CloseTokens(before, tokens[..i], false, now).0
      {
        ExternalRow(tokens[i], now, before.legs);
        legs := legs[i := legs[i].(status := CLOSED)];
        assert tokens[..i + 1][..i] == tokens[..i];
        i := i + 1;
      }
      assert tokens[..i] == tokens;
      assert legs == closed;
    }

    method ExternalRow(token: Token, now: int, ghost frame: seq<Leg>)
      modifies this`positions, this`v4
      ensures Rows().(legs := frame) == CloseToken(old(Rows().(legs := frame)), token, false, now).0
    {
      if token in positions { positions := positions[token := PClosed]; }
      if token in v4 { v4 := v4[token := v4[token].(status := PClosed, liquidity := 0)]; }
    }

    // ---- cancellation ----

    method CancellationBlockers(expectedRevision: nat, now: int, elsewhere: seq<CancelBlocker>) returns (blockers: seq<CancelBlocker>)
      ensures blockers == CancelBlockers(Rows(), expectedRevision, now, elsewhere)
      ensures blockers == [] <==> Cancel(Rows(), expectedRevision, now, elsewhere).Some?
                                  && Cancel(Rows(), expectedRevision, now, elsewhere).value.1.CANCELLED_NOW?
    {
      CancelNeverThrows(Rows(), expectedRevision, now, elsewhere);
      blockers := Block([], !parent.live, MODE_INVALID);
      blockers := Block(blockers, !parent.status.PLANNED?, STATE_NOT_PLANNED);
      blockers := Block(blockers, parent.revision != expectedRevision, REVISION_CHANGED);
      blockers := Block(blockers, now - parent.updatedAt < BID_LADDER_PLANNED_AUTO_EXPIRY_MS, TTL_NOT_ELAPSED);
      blockers := Block(blockers, |legs| != 5, LEG_SET_AMBIGUOUS);
      blockers := Block(blockers, !LegsPlanned(legs), LEG_STATE_ADVANCED);
      blockers := Block(blockers, !LegsUnminted(legs), MINTED_TOKEN_EVIDENCE);
      blockers := Block(blockers, !LegsUnbound(legs), BATCH_EVIDENCE);
      blockers := Block(blockers, HasJournal(Rows()), TRANSACTION_JOURNAL_EVIDENCE);
      blockers := blockers + elsewhere;
    }

    /** The blockers already cover what the guarded leg update needs, so it always changes
        five rows and its own conflict is never thrown. */
    method CancelPlanned(expectedRevision: nat, now: int, elsewhere: seq<CancelBlocker>) returns (r: Option<CancelOutcome>)
      modifies this
      ensures match Cancel(old(Rows()), expectedRevision, now, elsewhere)
              case Some(done) => r == Some(done.1) && Rows() == done.0
              case None => r == None && Rows() == old(Rows())
    {
      var before := Rows();
      if parent.status.CANCELLED? { return Some(ALREADY_CANCELLED); }
      if !parent.status.PLANNED? || parent.revision != expectedRevision { return Some(CONCURRENT_STATE_CHANGED); }
      var blockers := CancellationBlockers(expectedRevision, now, elsewhere);
      if blockers != [] { return Some(BLOCKED_BY(blockers)); }
      parent := CancelParent(parent, AUTO_EXPIRED_PLANNED_30M, now);
      var changed := CancelLegRows();
      AllCancellable(before.legs);
      assert changed == 5;
      return Some(CANCELLED_NOW);
    }

    /** The guarded leg update, and how many rows it changed. */
    method CancelLegRows() returns (changed: nat)
      modifies this`legs
      ensures changed == CancellableCount(old(legs)) <= |old(legs)|
      ensures (forall i :: 0 <= i < |old(legs)| ==> Cancellable(old(legs)[i])) ==> legs == CancelLegs(old(legs))
    {
      ghost var before := legs;
      changed := 0;
      var i := 0;
      while i < |legs|
        invariant 0 <= i <= |legs| == |before|
        invariant changed == CancellableCount(before[..i]) <= i
        invariant forall k :: 0 <= k < i ==> legs[k] == if Cancellable(before[k]) then before[k].(status := CANCELLED) else before[k]
        invariant forall k :: i <= k < |legs| ==> legs[k] == before[k]
      {
        assert before[..i + 1][..i] == before[..i];
        if Cancellable(legs[i]) {
          legs, changed := legs[i := legs[i].(status := CANCELLED)], changed + 1;
        }
        i := i + 1;
      }
      assert before[..i] == before;
    }
  }

  function CancellableCount(legs: seq<Leg>): nat {
    if legs == [] then 0
    else CancellableCount(legs[..|legs| - 1]) + if Cancellable(legs[|legs| - 1]) then 1 else 0
  }

  lemma LineageKept(s: State, tokens: seq<Token>, funi: bool, now: int, token: Token)
    ensures Lineage(CloseTokens(s, tokens, funi, now).0, token) <==> Lineage(s, token)
  {
    CloseTokensSettles(s, tokens, funi, now);
    CloseTokensFrame(s, tokens, funi, now);
  }

  lemma {:induction false} AllCancellable(legs: seq<Leg>)
    ensures CancellableCount(legs) <= |legs|
    ensures CancellableCount(legs) == |legs| <==> forall i :: 0 <= i < |legs| ==> Cancellable(legs[i])
  {
    if legs != [] {
      AllCancellable(legs[..|legs| - 1]);
    }
  }

  lemma {:induction false} ProjectionStops(s: State, mints: seq<Token>, liquidity: seq<nat>, k: nat, n: nat)
    requires k <= n <= |mints| == |liquidity| == |s.legs| && ProjectLegs(s, mints, liquidity, k).None?
    ensures ProjectLegs(s, mints, liquidity, n).None?
  {
    if k < n {
      ProjectionStops(s, mints, liquidity, k, n - 1);
    }
  }

  lemma {:induction false} MirrorStops(s: State, k: nat, n: nat)
    requires k <= n <= |s.legs| && MirrorLegs(s, k).None?
    ensures MirrorLegs(s, n).None?
  {
    if k < n {
      MirrorStops(s, k, n - 1);
    }
  }
}
