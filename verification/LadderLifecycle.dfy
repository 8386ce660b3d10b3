/** Results about whole runs: any number of writers, in any order, with any transaction
    throwing at any time. */
module LadderLifecycle {
  import opened Prelude
  import opened LadderModel
  import opened LadderInvariant

  predicate AllWellFormed(s: State, es: seq<Event>) {
    forall i :: 0 <= i < |es| ==> WellFormed(Run(s, es[..i]), es[i])
  }

  lemma WellFormedPrefix(s: State, es: seq<Event>)
    requires es != [] && AllWellFormed(s, es)
    ensures AllWellFormed(s, es[..|es| - 1]) && WellFormed(Run(s, es[..|es| - 1]), es[|es| - 1])
  {
    var prior := es[..|es| - 1];
    forall i | 0 <= i < |prior| ensures WellFormed(Run(s, prior[..i]), prior[i]) {
      assert prior[..i] == es[..i];
    }
  }

  lemma InitialInv(s: State)
    requires Initial(s)
    ensures Inv(s)
  {
  }

  lemma {:induction false} RunKeeps(s: State, es: seq<Event>)
    requires Inv(s) && AllWellFormed(s, es)
    ensures Inv(Run(s, es))
  {
    if es != [] {
      WellFormedPrefix(s, es);
      RunKeeps(s, es[..|es| - 1]);
      StepKeeps(Run(s, es[..|es| - 1]), es[|es| - 1]);
    }
  }

  /** In every reachable state the parent and its five legs agree. */
  lemma LegsAlwaysAgree(s: State, es: seq<Event>)
    requires Initial(s) && AllWellFormed(s, es)
    ensures Agree(Run(s, es))
  {
    InitialInv(s);
    RunKeeps(s, es);
  }

  // ---- readings of earlier states ----

  /** The readings of a settlement were taken at two earlier points of the same run, and so
      were the parent and the close rows that the reset loop acts on. */
  predicate ReadEarlier(s: State, es: seq<Event>, i: nat)
    requires i < |es|
  {
    && (es[i].EvExternal? ==>
          exists j, k | 0 <= j <= k <= i :: es[i].candidate == Run(s, es[..j]).parent && es[i].seen == ReadingOf(Run(s, es[..k])))
    && (es[i].EvConfirmFromReset? ==>
          exists j, k | 0 <= j <= k <= i :: es[i].parent == Run(s, es[..j]).parent && es[i].rows == Rows(Run(s, es[..k]), CLOSE_BATCH))
  }

  predicate Honest(s: State, es: seq<Event>) {
    forall i :: 0 <= i < |es| ==> (es[i].EvProject? ==> Distinct(es[i].mints)) && ReadEarlier(s, es, i)
  }

  /** What was read stays true in the sense a settlement needs. */
  predicate Outlives(a: State, b: State) {
    TokensKept(a, b) && (ExternallyClosed(a.parent) ==> ExternallyClosed(b.parent)) && Lasting(a, b)
  }

  /** A closed parent stays closed as it was, and close rows that end in a success stay. */
  predicate Lasting(a: State, b: State) {
    ReadTrue(b, a.parent, Rows(a, CLOSE_BATCH))
  }

  lemma StepLasts(s: State, e: Event)
    requires Inv(s) && WellFormed(s, e)
    ensures Lasting(s, Step(s, e))
  {
    if Attempted(s, e).Some? {
      if e.EvPrepare? || e.EvSubmitted? || e.EvSettle? || e.EvRevert? {
        JournalWriterLasts(s, e);
      } else if e.EvConverge? || e.EvReconcileClose? || e.EvCloseEmpty? {
        CloserLasts(s, e);
      } else if e.EvExternal? {
        ExternalLasts(s, e.candidate, e.seen, e.allLegs, e.now);
      } else if e.EvProject? {
        ProjectLasts(s, e.mints, e.liquidity, e.now);
      } else {
        OtherLasts(s, e);
      }
    }
  }

  lemma JournalWriterLasts(s: State, e: Event)
    requires Inv(s) && Attempted(s, e).Some? && (e.EvPrepare? || e.EvSubmitted? || e.EvSettle? || e.EvRevert?)
    ensures Lasting(s, Step(s, e))
  {
    match e
    case EvPrepare(slot, hash, reason, auth, now) => PrepareLasts(s, slot, hash, reason, auth, now);
    case EvSubmitted(slot, reason) => SubmitLasts(s, slot, reason);
    case EvSettle(slot, evidence) => SettleLasts(s, slot, evidence);
    case EvRevert(_, _) =>
  }

  lemma ExternalLasts(s: State, candidate: Parent, seen: Reading, allLegs: bool, now: int)
    requires StillTrue(s, candidate, seen) && SettleExternally(s, candidate, seen, allLegs, now).Some?
    ensures Lasting(s, SettleExternally(s, candidate, seen, allLegs, now).value)
  {
    CloseTokensFrame(s, Tokens(seen.legs), false, now);
  }

  lemma ProjectLasts(s: State, mints: seq<Token>, liquidity: seq<nat>, now: int)
    requires ProjectOpen(s, mints, liquidity, now).Some?
    ensures Lasting(s, ProjectOpen(s, mints, liquidity, now).value)
  {
    ProjectLegsFrame(s, mints, liquidity, 5);
  }

  /** Cancellations, phase moves and readings leave a closed parent and the journal alone. */
  lemma OtherLasts(s: State, e: Event)
    requires Attempted(s, e).Some? && !e.EvPrepare? && !e.EvSubmitted? && !e.EvSettle? && !e.EvRevert?
    requires !e.EvConverge? && !e.EvReconcileClose? && !e.EvCloseEmpty? && !e.EvExternal? && !e.EvProject?
    ensures Lasting(s, Step(s, e))
  {
    match e
    case EvCancel(expectedRevision, now, elsewhere) => CancelLasts(s, expectedRevision, now, elsewhere);
    case EvConfirm =>
    case _ =>
  }

  lemma PrepareLasts(s: State, slot: Slot, hash: Hash, reason: CloseReason, auth: Option<Identity>, now: int)
    requires JournalOk(s) && Prepare(s, slot, hash, reason, auth, now).Some?
    ensures Lasting(s, Prepare(s, slot, hash, reason, auth, now).value)
  {
    PrepareRowKeeps(s, slot, hash);
    var p := PrepareRow(s, slot, hash).value;
    if IsOpenStage(slot.stage) {
      assert !s.parent.status.CLOSED?;
      assert Rows(p, CLOSE_BATCH) == Rows(s, CLOSE_BATCH);
    }
  }

  lemma SubmitLasts(s: State, slot: Slot, reason: CloseReason)
    requires MarkSubmitted(s, slot, reason).Some?
    ensures Lasting(s, MarkSubmitted(s, slot, reason).value)
  {
  }

  lemma SettleLasts(s: State, slot: Slot, evidence: Evidence)
    requires Inv(s) && Settle(s, slot, evidence).Some?
    ensures Lasting(s, Settle(s, slot, evidence).value)
  {
    RowsAreOk(s, slot.stage);
  }

  lemma CancelLasts(s: State, expectedRevision: nat, now: int, elsewhere: seq<CancelBlocker>)
    requires Cancel(s, expectedRevision, now, elsewhere).Some?
    ensures Lasting(s, Cancel(s, expectedRevision, now, elsewhere).value.0)
  {
  }

  lemma CloserLasts(s: State, e: Event)
    requires Attempted(s, e).Some? && (e.EvConverge? || e.EvReconcileClose? || e.EvCloseEmpty?)
    ensures Lasting(s, Step(s, e))
  {
    match e
    case EvConverge(requested, now) => ConvergeLasts(s, requested, now);
    case EvReconcileClose(receipt, reason, now) => ReconcileLasts(s, receipt, reason, now);
    case EvCloseEmpty(reason, now) => EmptyLasts(s, reason, now);
  }

  lemma ConvergeLasts(s: State, requested: Option<Provenance>, now: int)
    requires Converge(s, requested, now).Ok?
    ensures Lasting(s, Converge(s, requested, now).value.0)
  {
    ConvergeShape(s, ChosenProvenance(s, requested).FUNI_CLOSE_CONFIRMED?, now);
  }

  lemma EmptyLasts(s: State, reason: CloseReason, now: int)
    requires CloseEmpty(s, reason, now).Some?
    ensures Lasting(s, CloseEmpty(s, reason, now).value)
  {
    MirrorsLast(s, now);
    var m, t := CloseCanonicalMirrors(s, now).value.0, CloseEmpty(s, reason, now).value;
    assert t == m.(reset := t.reset);
  }

  lemma MirrorsLast(s: State, now: int)
    requires CloseCanonicalMirrors(s, now).Some?
    ensures var m := CloseCanonicalMirrors(s, now).value.0;
            m.journal == s.journal && (s.parent.status.CLOSED? ==> m.parent == s.parent)
  {
    MirrorLegsFrame(s, |s.legs|);
  }

  lemma ReconcileLasts(s: State, receipt: Receipt, reason: CloseReason, now: int)
    requires ReconcileClose(s, receipt, reason, now).Some?
    ensures Lasting(s, ReconcileClose(s, receipt, reason, now).value)
  {
    ConvergeShape(s, true, now);
    MirrorsLast(Converge(s, Some(FUNI_CLOSE_CONFIRMED), now).value.0, now);
  }

  predicate AllOutlive(s: State, es: seq<Event>) {
    forall j :: 0 <= j <= |es| ==> Outlives(Run(s, es[..j]), Run(s, es))
  }

  /** So readings of any earlier states are well-formed, however stale they are. */
  lemma {:induction false} HonestIsWellFormed(s: State, es: seq<Event>)
    requires Inv(s) && Honest(s, es)
    ensures AllWellFormed(s, es) && Inv(Run(s, es)) && AllOutlive(s, es)
  {
    if es != [] {
      var n := |es| - 1;
      HonestPrefix(s, es);
      HonestIsWellFormed(s, es[..n]);
      LastIsWellFormed(s, es, es[..n]);
      StepKeeps(Run(s, es[..n]), es[n]);
      StepLasts(Run(s, es[..n]), es[n]);
      OutliveStep(s, es);
      WellFormedAppend(s, es);
    }
  }

  lemma WellFormedAppend(s: State, es: seq<Event>)
    requires es != [] && AllWellFormed(s, es[..|es| - 1]) && WellFormed(Run(s, es[..|es| - 1]), es[|es| - 1])
    ensures AllWellFormed(s, es)
  {
    var prior := es[..|es| - 1];
    forall i | 0 <= i < |es| ensures WellFormed(Run(s, es[..i]), es[i]) {
      if i < |prior| {
        assert prior[..i] == es[..i];
        assert WellFormed(Run(s, prior[..i]), prior[i]);
      }
    }
  }

  lemma OutliveStep(s: State, es: seq<Event>)
    requires es != [] && AllOutlive(s, es[..|es| - 1])
    requires Forward(Run(s, es[..|es| - 1]), Run(s, es)) && Lasting(Run(s, es[..|es| - 1]), Run(s, es))
    ensures AllOutlive(s, es)
  {
    var n := |es| - 1;
    forall j | 0 <= j <= |es| ensures Outlives(Run(s, es[..j]), Run(s, es)) {
      if j <= n {
        OutlivesAt(s, es[..n], es, j);
      } else {
        assert es[..j] == es;
      }
    }
  }

  lemma OutlivesAt(s: State, prior: seq<Event>, es: seq<Event>, j: nat)
    requires AllOutlive(s, prior) && j <= |prior| <= |es| && prior == es[..|prior|]
    ensures Outlives(Run(s, es[..j]), Run(s, prior))
  {
    assert prior[..j] == es[..j];
  }

  lemma HonestPrefix(s: State, es: seq<Event>)
    requires es != [] && Honest(s, es)
    ensures Honest(s, es[..|es| - 1])
  {
    var prior := es[..|es| - 1];
    forall i | 0 <= i < |prior| ensures (prior[i].EvProject? ==> Distinct(prior[i].mints)) && ReadEarlier(s, prior, i) {
      assert prior[i] == es[i] && ReadEarlier(s, es, i);
      if es[i].EvExternal? {
        SettlementReadInPrefix(s, es, prior, i);
      } else if es[i].EvConfirmFromReset? {
        ResetReadInPrefix(s, es, prior, i);
      }
    }
  }

  lemma SettlementReadInPrefix(s: State, es: seq<Event>, prior: seq<Event>, i: nat)
    requires i < |prior| <= |es| && prior == es[..|prior|] && es[i].EvExternal? && ReadEarlier(s, es, i)
    ensures ReadEarlier(s, prior, i)
  {
    var j, k :| 0 <= j <= k <= i && es[i].candidate == Run(s, es[..j]).parent && es[i].seen == ReadingOf(Run(s, es[..k]));
    assert prior[..j] == es[..j] && prior[..k] == es[..k];
  }

  lemma ResetReadInPrefix(s: State, es: seq<Event>, prior: seq<Event>, i: nat)
    requires i < |prior| <= |es| && prior == es[..|prior|] && es[i].EvConfirmFromReset? && ReadEarlier(s, es, i)
    ensures ReadEarlier(s, prior, i)
  {
    var j, k :| 0 <= j <= k <= i && es[i].parent == Run(s, es[..j]).parent && es[i].rows == Rows(Run(s, es[..k]), CLOSE_BATCH);
    assert prior[i] == es[i] && prior[..j] == es[..j] && prior[..k] == es[..k];
    assert prior[i].parent == Run(s, prior[..j]).parent && prior[i].rows == Rows(Run(s, prior[..k]), CLOSE_BATCH);
  }

  lemma LastIsWellFormed(s: State, es: seq<Event>, prior: seq<Event>)
    requires es != [] && prior == es[..|es| - 1] && Honest(s, es) && AllOutlive(s, prior)
    ensures WellFormed(Run(s, prior), es[|es| - 1])
  {
    var n, now := |prior|, Run(s, prior);
    assert ReadEarlier(s, es, n);
    if es[n].EvExternal? {
      var j, k :| 0 <= j <= k <= n && es[n].candidate == Run(s, es[..j]).parent && es[n].seen == ReadingOf(Run(s, es[..k]));
      OutlivesAt(s, prior, es, j);
      OutlivesAt(s, prior, es, k);
      ReadingStillTrue(Run(s, es[..j]), Run(s, es[..k]), now);
    } else if es[n].EvConfirmFromReset? {
      var j, k :| 0 <= j <= k <= n && es[n].parent == Run(s, es[..j]).parent && es[n].rows == Rows(Run(s, es[..k]), CLOSE_BATCH);
      OutlivesAt(s, prior, es, j);
      OutlivesAt(s, prior, es, k);
    }
  }

  lemma ReadingStillTrue(a: State, b: State, now: State)
    requires Outlives(a, now) && Outlives(b, now)
    ensures StillTrue(now, a.parent, ReadingOf(b))
  {
  }

  // ---- status only moves forward ----

  predicate Reaches(a: Status, b: Status) {
    NextStatus(a, b) || (a.PLANNED? && b.CLOSED?)
  }

  /** From any reachable state, status reaches only later statuses, and a minted token is
      never replaced: PLANNED to OPEN to CLOSED, or PLANNED to CANCELLED. */
  lemma {:induction false} StatusOnlyMovesForward(s: State, es: seq<Event>)
    requires Inv(s) && AllWellFormed(s, es)
    ensures Reaches(s.parent.status, Run(s, es).parent.status)
    ensures TokensKept(s, Run(s, es))
  {
    if es != [] {
      var before := Run(s, es[..|es| - 1]);
      WellFormedPrefix(s, es);
      StatusOnlyMovesForward(s, es[..|es| - 1]);
      RunKeeps(s, es[..|es| - 1]);
      StepKeeps(before, es[|es| - 1]);
    }
  }

  // ---- cancellation against opening ----

  /** Whichever of the two commits first, the other one cannot: an opening prepare after the
      cancellation throws, and a cancellation after any journal row does not cancel. */
  lemma CancelAndOpenExclude(s: State, rev: nat, cancelAt: int, elsewhere: seq<CancelBlocker>,
                             slot: Slot, hash: Hash, reason: CloseReason, auth: Option<Identity>, openAt: int)
    requires IsOpenStage(slot.stage)
    ensures var c := Cancel(s, rev, cancelAt, elsewhere);
            c.Some? && c.value.1.CANCELLED_NOW? ==> Prepare(c.value.0, slot, hash, reason, auth, openAt).None?
    ensures var p := Prepare(s, slot, hash, reason, auth, openAt);
            p.Some? ==> var c := Cancel(p.value, rev, cancelAt, elsewhere);
                        c.Some? && !c.value.1.CANCELLED_NOW? && c.value.0 == p.value
  {
    var c := Cancel(s, rev, cancelAt, elsewhere);
    if c.Some? && c.value.1.CANCELLED_NOW? {
      CancelledRefusesOpen(c.value.0, slot, hash, reason, auth, openAt);
    }
    var p := Prepare(s, slot, hash, reason, auth, openAt);
    if p.Some? {
      PreparedIsJournaled(s, slot, hash, reason, auth, openAt);
      JournaledIsNotCancelled(p.value, rev, cancelAt, elsewhere);
    }
  }

  lemma CancelledRefusesOpen(s: State, slot: Slot, hash: Hash, reason: CloseReason, auth: Option<Identity>, now: int)
    requires IsOpenStage(slot.stage) && s.parent.status.CANCELLED?
    ensures Prepare(s, slot, hash, reason, auth, now).None?
  {
  }

  lemma PreparedIsJournaled(s: State, slot: Slot, hash: Hash, reason: CloseReason, auth: Option<Identity>, now: int)
    requires IsOpenStage(slot.stage) && Prepare(s, slot, hash, reason, auth, now).Some?
    ensures HasJournal(Prepare(s, slot, hash, reason, auth, now).value)
  {
    assert Rows(Prepare(s, slot, hash, reason, auth, now).value, slot.stage) != [];
  }

  lemma JournaledIsNotCancelled(s: State, rev: nat, now: int, elsewhere: seq<CancelBlocker>)
    requires HasJournal(s)
    ensures var c := Cancel(s, rev, now, elsewhere); c.Some? && !c.value.1.CANCELLED_NOW? && c.value.0 == s
  {
    assert CancelBlockers(s, rev, now, elsewhere) != [];
  }

  /** The cancellation never throws: what blocks it also covers its guarded leg update. */
  lemma CancelNeverThrows(s: State, rev: nat, now: int, elsewhere: seq<CancelBlocker>)
    ensures Cancel(s, rev, now, elsewhere).Some?
    ensures Cancel(s, rev, now, elsewhere).value.1.CANCELLED_NOW? <==>
              s.parent.live && s.parent.status.PLANNED? && s.parent.revision == rev
              && now - s.parent.updatedAt >= BID_LADDER_PLANNED_AUTO_EXPIRY_MS
              && |s.legs| == 5 && (forall i :: 0 <= i < 5 ==> Cancellable(s.legs[i]))
              && !HasJournal(s) && elsewhere == []
  {
    if CancelBlockers(s, rev, now, elsewhere) == [] {
      assert LegsPlanned(s.legs) && LegsUnminted(s.legs) && LegsUnbound(s.legs);
    } else if |s.legs| == 5 && (forall i :: 0 <= i < 5 ==> Cancellable(s.legs[i])) {
      assert LegsPlanned(s.legs) && LegsUnminted(s.legs) && LegsUnbound(s.legs);
    }
  }

  /** In every reachable cancelled state there is no open batch row; and after the expiry
      of a planned ladder there is no opening row of any stage. */
  lemma CancelledNeverOpened(s: State, es: seq<Event>)
    requires Initial(s) && AllWellFormed(s, es)
    ensures var t := Run(s, es);
            t.parent.status.CANCELLED? ==>
              Rows(t, OPEN_BATCH) == [] && LegsUnminted(t.legs)
              && (t.parent.cancelReason == Some(AUTO_EXPIRED_PLANNED_30M) ==> NoOpenRows(t))
  {
    InitialInv(s);
    RunKeeps(s, es);
  }

  /** What the caller of the orphan cancellation reads before its transaction. */
  predicate OrphanPrecheck(s: State) {
    Rows(s, OPEN_BATCH) == [] && !AnyUnresolved(s)
  }

  /** The cancellation of an orphaned child leaves a cancelled ladder with opening rows
      exactly when an approval had been journaled before it; its own precheck does not
      exclude that. */
  lemma OrphanLeavesOpenRows(s: State, now: int)
    requires Inv(s) && CancelOrphan(s, now).Some?
    ensures var t := CancelOrphan(s, now).value;
            t.parent.status.CANCELLED?
            && (NoOpenRows(t) <==> Rows(s, OPEN_ERC20_APPROVAL) == [] && Rows(s, OPEN_PERMIT2_APPROVAL) == [])
  {
    assert s.legs[0].openBatch.None?;
    var t := CancelOrphan(s, now).value;
    assert t.journal == s.journal;
    assert Rows(s, OPEN_BATCH) == [];
    if Rows(s, OPEN_ERC20_APPROVAL) == [] && Rows(s, OPEN_PERMIT2_APPROVAL) == [] {
      forall stage <- t.journal | IsOpenStage(stage) ensures t.journal[stage] == [] {
        assert Rows(s, stage) == [];
      }
    }
  }

  // ---- reposition ----

  /** The reset loop moves the reset to CLOSE_CONFIRMED on readings that do not show a single
      close row and a parent that FUNI closed. */
  predicate Unproven(s: State, e: Event) {
    e.EvConfirmFromReset? && Attempted(s, e).Some? && !ReadProven(e.parent, e.rows)
  }

  /** The exact condition under which the second writer of CLOSE_CONFIRMED leaves a proven
      close, over every honest run: the close rows it read are one, and the parent it read was
      closed by FUNI. It checks neither. */
  lemma ConfirmFromResetIsProvenIff(s: State, es: seq<Event>)
    requires Inv(s) && es != [] && Honest(s, es)
    requires es[|es| - 1].EvConfirmFromReset? && Attempted(Run(s, es[..|es| - 1]), es[|es| - 1]).Some?
    ensures var e := es[|es| - 1]; var t := Run(s, es);
            t.reset.Some? && t.reset.value.phase.CLOSE_CONFIRMED? && (ProvenClose(t) <==> ReadProven(e.parent, e.rows))
  {
    HonestIsWellFormed(s, es);
    WellFormedPrefix(s, es);
    MoveIsProvenIff(Run(s, es[..|es| - 1]), es[|es| - 1]);
  }

  lemma MoveIsProvenIff(s: State, e: Event)
    requires e.EvConfirmFromReset? && ReadTrue(s, e.parent, e.rows) && Attempted(s, e).Some?
    ensures var t := Step(s, e);
            t.reset.Some? && t.reset.value.phase.CLOSE_CONFIRMED? && (ProvenClose(t) <==> ReadProven(e.parent, e.rows))
  {
  }

  predicate NoneUnproven(s: State, es: seq<Event>) {
    es == [] || (NoneUnproven(s, es[..|es| - 1]) && !Unproven(Run(s, es[..|es| - 1]), es[|es| - 1]))
  }

  lemma {:induction false} UnprovenExactly(s: State, es: seq<Event>)
    ensures Run(s, es).unproven <==> s.unproven || !NoneUnproven(s, es)
  {
    if es != [] {
      UnprovenExactly(s, es[..|es| - 1]);
      OnlyResetLoopUnproves(Run(s, es[..|es| - 1]), es[|es| - 1]);
    }
  }

  lemma OnlyResetLoopUnproves(s: State, e: Event)
    ensures Step(s, e).unproven <==> s.unproven || Unproven(s, e)
  {
    if e.EvConfirmFromReset? {
    } else if e.EvProject? {
      ProjectionKeepsProof(s, e.mints, e.liquidity, e.now);
    } else if e.EvConverge? || e.EvReconcileClose? || e.EvCloseEmpty? || e.EvExternal? {
      ClosersKeepProof(s, e);
    } else {
      OthersKeepProof(s, e);
    }
  }

  /** After such a move the close stays unproven for good. */
  predicate StaysUnproven(s: State) {
    s.unproven ==>
      s.parent.status.CLOSED? && NewestSucceeded(Rows(s, CLOSE_BATCH)) && !ReadProven(s.parent, Rows(s, CLOSE_BATCH))
  }

  lemma StepStaysUnproven(s: State, e: Event)
    requires Inv(s) && WellFormed(s, e) && StaysUnproven(s)
    ensures StaysUnproven(Step(s, e))
  {
    OnlyResetLoopUnproves(s, e);
    StepLasts(s, e);
  }

  lemma {:induction false} RunStaysUnproven(s: State, es: seq<Event>)
    requires Inv(s) && StaysUnproven(s) && AllWellFormed(s, es)
    ensures StaysUnproven(Run(s, es))
  {
    if es != [] {
      WellFormedPrefix(s, es);
      RunStaysUnproven(s, es[..|es| - 1]);
      RunKeeps(s, es[..|es| - 1]);
      StepStaysUnproven(Run(s, es[..|es| - 1]), es[|es| - 1]);
    }
  }

  lemma ProjectionKeepsProof(s: State, mints: seq<Token>, liquidity: seq<nat>, now: int)
    ensures ProjectOpen(s, mints, liquidity, now).Some? ==> ProjectOpen(s, mints, liquidity, now).value.unproven == s.unproven
  {
    if ConfirmedOpen(s) && |s.legs| == 5 && |mints| == 5 && |liquidity| == 5 && ProjectLegs(s, mints, liquidity, 5).Some? {
      ProjectLegsFrame(s, mints, liquidity, 5);
    }
  }

  lemma ClosersKeepProof(s: State, e: Event)
    requires e.EvConverge? || e.EvReconcileClose? || e.EvCloseEmpty? || e.EvExternal?
    ensures Step(s, e).unproven == s.unproven
  {
    if Attempted(s, e).Some? {
      match e
      case EvConverge(requested, now) => ConvergeShape(s, ChosenProvenance(s, requested).FUNI_CLOSE_CONFIRMED?, now);
      case EvReconcileClose(receipt, reason, now) => ReconcileKeepsProof(s, receipt, reason, now);
      case EvCloseEmpty(_, _) => MirrorLegsFrame(s, |s.legs|);
      case EvExternal(_, seen, _, now) => CloseTokensFrame(s, Tokens(seen.legs), false, now);
    }
  }

  lemma ReconcileKeepsProof(s: State, receipt: Receipt, reason: CloseReason, now: int)
    requires ReconcileClose(s, receipt, reason, now).Some?
    ensures ReconcileClose(s, receipt, reason, now).value.unproven == s.unproven
  {
    ConvergeShape(s, true, now);
    MirrorLegsFrame(Converge(s, Some(FUNI_CLOSE_CONFIRMED), now).value.0, |s.legs|);
  }

  lemma OthersKeepProof(s: State, e: Event)
    requires !e.EvConfirmFromReset? && !e.EvProject? && !e.EvConverge? && !e.EvReconcileClose? && !e.EvCloseEmpty? && !e.EvExternal?
    ensures Step(s, e).unproven == s.unproven
  {
    match e
    case EvPrepare(slot, hash, reason, auth, now) => PrepareKeepsProof(s, slot, hash, reason, auth, now);
    case EvSubmitted(slot, reason) => SubmitKeepsProof(s, slot, reason);
    case EvCancel(_, _, _) =>
    case EvConfirm =>
    case _ =>
  }

  lemma PrepareKeepsProof(s: State, slot: Slot, hash: Hash, reason: CloseReason, auth: Option<Identity>, now: int)
    ensures Prepare(s, slot, hash, reason, auth, now).Some? ==> Prepare(s, slot, hash, reason, auth, now).value.unproven == s.unproven
  {
  }

  lemma SubmitKeepsProof(s: State, slot: Slot, reason: CloseReason)
    ensures MarkSubmitted(s, slot, reason).Some? ==> MarkSubmitted(s, slot, reason).value.unproven == s.unproven
  {
  }

  /** At every phase at or past CLOSE_CONFIRMED the close is proven (manual authorization, one
      confirmed close row with its successful receipt, a parent closed by it) exactly in the
      runs without a move of the reset loop on readings that show anything else. */
  lemma RepositionIsSafe(s: State, es: seq<Event>)
    requires Initial(s) && AllWellFormed(s, es)
    requires var t := Run(s, es); t.reset.Some? && Converged(t.reset.value.phase)
    ensures ProvenClose(Run(s, es)) <==> NoneUnproven(s, es)
  {
    InitialInv(s);
    RunKeeps(s, es);
    UnprovenExactly(s, es);
    RunStaysUnproven(s, es);
  }

  function Confirmations(s: State, es: seq<Event>): nat {
    if es == [] then 0
    else
      var before := Run(s, es[..|es| - 1]);
      Confirmations(s, es[..|es| - 1]) + if Confirms(before, Step(before, es[|es| - 1])) then 1 else 0
  }

  /** The confirming step applies at most once in any run. */
  lemma {:induction false} ConfirmedAtMostOnce(s: State, es: seq<Event>)
    requires Inv(s) && AllWellFormed(s, es)
    ensures Confirmations(s, es) <= 1
    ensures Confirmations(s, es) == 1 || RepositionReason(s) ==> RepositionReason(Run(s, es))
    ensures RepositionReason(s) ==> Confirmations(s, es) == 0
  {
    if es != [] {
      WellFormedPrefix(s, es);
      ConfirmedAtMostOnce(s, es[..|es| - 1]);
      RunKeeps(s, es[..|es| - 1]);
      StepKeeps(Run(s, es[..|es| - 1]), es[|es| - 1]);
    }
  }

  /** Once confirmed, every later call answers that the phase already advanced, except
      while the reposition is blocked, when it throws. */
  lemma LaterConfirmsAreIdle(s: State, es: seq<Event>)
    requires Initial(s) && AllWellFormed(s, es) && Confirmations(s, es) == 1
    requires NoneUnproven(s, es)
    ensures var t := Run(s, es);
            t.reset.Some? && (Converged(t.reset.value.phase) || t.reset.value.phase.BLOCKED?)
            && ConfirmReposition(t) == if t.reset.value.phase.BLOCKED? then None else Some((t, ALREADY_ADVANCED))
  {
    InitialInv(s);
    ConfirmedAtMostOnce(s, es);
    RunKeeps(s, es);
    UnprovenExactly(s, es);
  }
}
