/** The open projection: it gives the ladder its mirror rows, which every later writer
    keeps, so that a confirmed close can always be reconciled. */
module LadderOpen {
  import opened Prelude
  import opened LadderModel
  import opened LadderInvariant
  import opened LadderClose
  import opened LadderLifecycle

  predicate SameTicks(row: V4Row, id: nat, leg: Leg) {
    row.intent == Some(id) && row.tickLower == leg.tickLower && row.tickUpper == leg.tickUpper
  }

  /** What the first `n` projected legs leave in the mirror tables. */
  ghost predicate Projected(s: State, t: State, mints: seq<Token>, liquidity: seq<nat>, n: nat)
    requires n <= |mints| == |liquidity| == |s.legs|
  {
    && (forall i :: 0 <= i < n ==> ProjectedMirror(s, t, i, mints[i], liquidity[i]))
    && (forall token: Token :: token !in mints[..n] ==> SameMirror(s, t, token))
  }

  /** The rows of this token are as they were in all three tables. */
  predicate SameMirror(s: State, t: State, token: Token) {
    && (token in t.v4 <==> token in s.v4) && (token in s.v4 ==> t.v4[token] == s.v4[token])
    && (token in t.positions <==> token in s.positions) && (token in s.positions ==> t.positions[token] == s.positions[token])
    && (token in t.truth <==> token in s.truth) && (token in s.truth ==> t.truth[token] == s.truth[token])
  }

  lemma {:induction false} ProjectLegsMirrors(s: State, mints: seq<Token>, liquidity: seq<nat>, n: nat)
    requires n <= |mints| == |liquidity| == |s.legs| && Distinct(mints) && ProjectLegs(s, mints, liquidity, n).Some?
    ensures Projected(s, ProjectLegs(s, mints, liquidity, n).value, mints, liquidity, n)
  {
    if n > 0 {
      ProjectLegsMirrors(s, mints, liquidity, n - 1);
      ProjectLegsFrame(s, mints, liquidity, n - 1);
      var p := ProjectLegs(s, mints, liquidity, n - 1).value;
      assert ProjectLegs(s, mints, liquidity, n).value == ProjectLeg(p, n - 1, mints[n - 1], liquidity[n - 1]);
      ProjectsOneMore(s, p, mints, liquidity, n - 1);
    }
  }

  lemma ProjectsOneMore(s: State, p: State, mints: seq<Token>, liquidity: seq<nat>, n: nat)
    requires n < |mints| == |liquidity| == |s.legs| == |p.legs| && Distinct(mints)
    requires Projected(s, p, mints, liquidity, n) && SameFrame(s, p) && p.legs[n] == s.legs[n]
    ensures Projected(s, ProjectLeg(p, n, mints[n], liquidity[n]), mints, liquidity, n + 1)
  {
    var t := ProjectLeg(p, n, mints[n], liquidity[n]);
    forall i | 0 <= i < n + 1 ensures ProjectedMirror(s, t, i, mints[i], liquidity[i]) {
      if i < n {
        OtherLegKept(s, p, i, mints[i], liquidity[i], n, mints[n], liquidity[n]);
      } else {
        LegProjected(s, p, n, mints[n], liquidity[n]);
      }
    }
    forall token: Token | token !in mints[..n + 1] ensures SameMirror(s, t, token) {
      assert mints[..n + 1] == mints[..n] + [mints[n]];
      assert SameMirror(s, p, token);
      OtherRowKept(p, n, mints[n], liquidity[n], token);
    }
  }

  lemma OtherRowKept(p: State, i: nat, token: Token, liquidity: nat, other: Token)
    requires i < |p.legs| && token != other
    ensures SameMirror(p, ProjectLeg(p, i, token, liquidity), other)
  {
  }

  lemma LegProjected(s: State, p: State, i: nat, token: Token, liquidity: nat)
    requires i < |s.legs| == |p.legs| && SameFrame(s, p) && p.legs[i] == s.legs[i]
    requires SameMirror(s, p, token)
    ensures ProjectedMirror(s, ProjectLeg(p, i, token, liquidity), i, token, liquidity)
  {
  }

  lemma OtherLegKept(s: State, p: State, i: nat, token: Token, liquidity: nat, j: nat, other: Token, more: nat)
    requires i < |s.legs| && j < |p.legs| && token != other && ProjectedMirror(s, p, i, token, liquidity)
    ensures ProjectedMirror(s, ProjectLeg(p, j, other, more), i, token, liquidity)
  {
  }

  /** The mirror rows of one minted token: open, with its liquidity, on the pool of the ladder;
      an existing row keeps its intent and range, and existing positions and truths stay. */
  predicate ProjectedMirror(s: State, t: State, i: nat, token: Token, liquidity: nat)
    requires i < |s.legs|
  {
    && token in t.positions && token in t.v4 && token in t.truth
    && t.v4[token].status.POpen? && t.v4[token].liquidity == liquidity && t.v4[token].pool == s.parent.pool
    && (token in s.v4 ==> t.v4[token].intent == s.v4[token].intent
                          && t.v4[token].tickLower == s.v4[token].tickLower && t.v4[token].tickUpper == s.v4[token].tickUpper)
    && (token !in s.v4 ==> SameTicks(t.v4[token], s.id, s.legs[i]))
    && t.positions[token] == (if token in s.positions then s.positions[token] else POpen)
    && t.truth[token] == (if token in s.truth then s.truth[token] else Truth(UNKNOWN, None, None, None, None, false, false, 0, 0, false))
  }

  /** Projecting the confirmed receipt opens the ladder with exactly the minted tokens and
      liquidity, one revision up; all its mirrors are then in place exactly when no row of
      another intent or range stood there for a minted token. */
  lemma ProjectionOpens(s: State, mints: seq<Token>, liquidity: seq<nat>, now: int)
    requires Inv(s) && s.parent.status.PLANNED? && Distinct(mints) && ProjectOpen(s, mints, liquidity, now).Some?
    ensures var t := ProjectOpen(s, mints, liquidity, now).value;
            t.parent.status.OPEN? && t.parent.revision == s.parent.revision + 1
            && |t.legs| == 5 && |mints| == 5 && |liquidity| == 5
            && (forall i :: 0 <= i < 5 ==> t.legs[i].status.OPEN? && t.legs[i].token == Some(mints[i])
                                           && mints[i] in t.v4 && t.v4[mints[i]].liquidity == liquidity[i])
            && (MirrorsPresent(t) <==> forall i :: 0 <= i < 5 && mints[i] in s.v4 ==> SameTicks(s.v4[mints[i]], s.id, s.legs[i]))
  {
    ProjectLegsMirrors(s, mints, liquidity, 5);
    ProjectLegsFrame(s, mints, liquidity, 5);
    var p := ProjectLegs(s, mints, liquidity, 5).value;
    var t := ProjectOpen(s, mints, liquidity, now).value;
    assert t == p.(parent := t.parent) && t.parent.pool == s.parent.pool;
    forall i | 0 <= i < 5
      ensures MirrorPresent(t, t.legs[i]) <==> (mints[i] in s.v4 ==> SameTicks(s.v4[mints[i]], s.id, s.legs[i]))
    {
      assert t.legs[i] == ProjectedLeg(s.legs[i], mints[i]) && s.legs[i].status.PLANNED?;
    }
  }

  // ---- later writers keep the mirrors ----

  /** Nobody removes a mirror row, or changes whose it is. */
  predicate MirrorsKept(s: State, t: State) {
    && t.id == s.id && t.parent.pool == s.parent.pool && |t.legs| == |s.legs|
    && (forall i :: 0 <= i < |s.legs| ==> t.legs[i].token == s.legs[i].token
                                          && t.legs[i].tickLower == s.legs[i].tickLower && t.legs[i].tickUpper == s.legs[i].tickUpper)
    && s.positions.Keys <= t.positions.Keys
    && (forall i :: 0 <= i < |s.legs| && MirrorPresent(s, s.legs[i]) ==>
          s.legs[i].token.value in t.v4 && SameIdentity(s.v4[s.legs[i].token.value], t.v4[s.legs[i].token.value]))
  }

  lemma MirrorsKeptPresent(s: State, t: State)
    requires MirrorsPresent(s) && MirrorsKept(s, t)
    ensures MirrorsPresent(t)
  {
    forall i | 0 <= i < |t.legs| ensures MirrorPresent(t, t.legs[i]) {
      assert MirrorPresent(s, s.legs[i]);
    }
  }

  predicate Minted(s: State) {
    s.parent.status.OPEN? || s.parent.status.CLOSED?
  }

  /** No mirror table is touched, and no leg changes its token or its range. */
  predicate MirrorsUntouched(s: State, t: State) {
    && t.id == s.id && t.parent.pool == s.parent.pool && |t.legs| == |s.legs|
    && t.positions == s.positions && t.v4 == s.v4
    && (forall i :: 0 <= i < |s.legs| ==> t.legs[i].token == s.legs[i].token
                                          && t.legs[i].tickLower == s.legs[i].tickLower && t.legs[i].tickUpper == s.legs[i].tickUpper)
  }

  lemma PrepareKeepsMirrors(s: State, slot: Slot, hash: Hash, reason: CloseReason, auth: Option<Identity>, now: int)
    requires JournalOk(s) && Prepare(s, slot, hash, reason, auth, now).Some?
    ensures MirrorsUntouched(s, Prepare(s, slot, hash, reason, auth, now).value)
  {
    PrepareRowKeeps(s, slot, hash);
    var p := PrepareRow(s, slot, hash).value;
    assert p.legs == s.legs && p.positions == s.positions && p.v4 == s.v4 && p.parent == s.parent && p.id == s.id;
    if IsOpenStage(slot.stage) {
      OpeningKeepsMirrors(p, slot, now);
    } else if slot.stage.CLOSE_BATCH? {
      ClosingKeepsMirrors(p, slot, reason, auth);
    }
  }

  lemma OpeningKeepsMirrors(p: State, slot: Slot, now: int)
    requires BindOpening(p, slot, now).Some?
    ensures MirrorsUntouched(p, BindOpening(p, slot, now).value)
  {
  }

  lemma ClosingKeepsMirrors(p: State, slot: Slot, reason: CloseReason, auth: Option<Identity>)
    requires BindClosing(p, slot, reason, auth).Some?
    ensures MirrorsUntouched(p, BindClosing(p, slot, reason, auth).value)
  {
  }

  lemma OthersKeepMirrors(s: State, e: Event)
    requires Attempted(s, e).Some?
    requires e.EvSubmitted? || e.EvSettle? || e.EvRevert? || e.EvCancel? || e.EvCancelOrphan? || e.EvConfirm? || e.EvConfirmFromReset? || e.EvPhase?
    ensures MirrorsUntouched(s, Step(s, e))
  {
    match e
    case EvSubmitted(slot, reason) => SubmitKeepsMirrors(s, slot, reason);
    case EvCancel(expectedRevision, now, elsewhere) => CancelKeepsMirrors(s, expectedRevision, now, elsewhere);
    case EvConfirm =>
    case EvConfirmFromReset(_, _, _, _) =>
    case _ =>
  }

  lemma CancelKeepsMirrors(s: State, expectedRevision: nat, now: int, elsewhere: seq<CancelBlocker>)
    requires Cancel(s, expectedRevision, now, elsewhere).Some?
    ensures MirrorsUntouched(s, Cancel(s, expectedRevision, now, elsewhere).value.0)
  {
  }

  lemma SubmitKeepsMirrors(s: State, slot: Slot, reason: CloseReason)
    requires MarkSubmitted(s, slot, reason).Some?
    ensures MirrorsUntouched(s, MarkSubmitted(s, slot, reason).value)
  {
  }

  lemma ObserveKeepsMirrors(s: State, e: Event)
    requires e.EvObserve?
    ensures MirrorsKept(s, Step(s, e))
  {
  }

  lemma ProjectKeepsMirrors(s: State, mints: seq<Token>, liquidity: seq<nat>, now: int)
    requires Inv(s) && Minted(s) && Distinct(mints) && MirrorsPresent(s) && ProjectOpen(s, mints, liquidity, now).Some?
    ensures MirrorsKept(s, ProjectOpen(s, mints, liquidity, now).value)
  {
    ProjectLegsMirrors(s, mints, liquidity, 5);
    ProjectLegsFrame(s, mints, liquidity, 5);
    ProjectKeepsPositions(s, mints, liquidity, 5);
    forall i | 0 <= i < 5 ensures s.legs[i].token == Some(mints[i]) {
      assert !TokenConflict(s.legs[i], mints[i]) && s.legs[i].token.Some?;
    }
  }

  lemma {:induction false} ProjectKeepsPositions(s: State, mints: seq<Token>, liquidity: seq<nat>, n: nat)
    requires n <= |mints| == |liquidity| == |s.legs| && ProjectLegs(s, mints, liquidity, n).Some?
    ensures s.positions.Keys <= ProjectLegs(s, mints, liquidity, n).value.positions.Keys
  {
    if n > 0 {
      ProjectKeepsPositions(s, mints, liquidity, n - 1);
    }
  }

  lemma ConvergeKeepsMirrors(s: State, funi: bool, now: int)
    requires FullyMinted(s.legs)
    ensures MirrorsKept(s, ConvergeWrites(s, funi, now).0)
  {
    ConvergeShape(s, funi, now);
    ConvergeWritesSettle(s, funi, now);
  }

  lemma MirrorUpdateKeepsMirrors(s: State, now: int)
    requires CloseCanonicalMirrors(s, now).Some?
    ensures MirrorsKept(s, CloseCanonicalMirrors(s, now).value.0)
  {
    MirrorLegsFrame(s, |s.legs|);
    MirrorRowsFrame(s, |s.legs|);
  }

  lemma EmptyKeepsMirrors(s: State, reason: CloseReason, now: int)
    requires CloseEmpty(s, reason, now).Some?
    ensures MirrorsKept(s, CloseEmpty(s, reason, now).value)
  {
    MirrorUpdateKeepsMirrors(s, now);
    var m := CloseCanonicalMirrors(s, now).value.0;
    assert CloseEmpty(s, reason, now).value == m.(reset := CloseEmpty(s, reason, now).value.reset);
  }

  lemma ReconcileKeepsMirrors(s: State, receipt: Receipt, reason: CloseReason, now: int)
    requires Inv(s) && ReconcileClose(s, receipt, reason, now).Some?
    ensures MirrorsKept(s, ReconcileClose(s, receipt, reason, now).value)
  {
    var c := ConvergeWrites(s, true, now).0;
    ConvergeKeepsMirrors(s, true, now);
    MirrorUpdateKeepsMirrors(c, now);
    assert s.positions.Keys <= c.positions.Keys;
    var m := CloseCanonicalMirrors(c, now).value.0;
    forall i | 0 <= i < |s.legs| && MirrorPresent(s, s.legs[i])
      ensures s.legs[i].token.value in m.v4 && SameIdentity(s.v4[s.legs[i].token.value], m.v4[s.legs[i].token.value])
    {
      assert MirrorPresent(c, c.legs[i]);
    }
  }

  lemma ExternalKeepsMirrors(s: State, candidate: Parent, seen: Reading, allLegs: bool, now: int)
    requires SettleExternally(s, candidate, seen, allLegs, now).Some?
    ensures MirrorsKept(s, SettleExternally(s, candidate, seen, allLegs, now).value)
  {
    CloseTokensFrame(s, Tokens(seen.legs), false, now);
    CloseTokensSettles(s, Tokens(seen.legs), false, now);
  }

  lemma StepMirrors(s: State, e: Event)
    requires Inv(s) && Minted(s) && MirrorsPresent(s) && WellFormed(s, e) && Attempted(s, e).Some?
    ensures MirrorsKept(s, Step(s, e))
  {
    match e
    case EvPrepare(slot, hash, reason, auth, now) => PrepareKeepsMirrors(s, slot, hash, reason, auth, now);
    case EvProject(mints, liquidity, now) => ProjectKeepsMirrors(s, mints, liquidity, now);
    case EvConverge(_, _) => ClosersKeepMirrors(s, e);
    case EvReconcileClose(_, _, _) => ClosersKeepMirrors(s, e);
    case EvCloseEmpty(_, _) => ClosersKeepMirrors(s, e);
    case EvExternal(_, _, _, _) => ClosersKeepMirrors(s, e);
    case EvObserve(_, _, _, _) => ObserveKeepsMirrors(s, e);
    case EvRematerialize(_, _, _, _) => UnmintedIsNoMirror(s, e);
    case _ => OthersKeepMirrors(s, e);
  }

  lemma UnmintedIsNoMirror(s: State, e: Event)
    requires Inv(s) && e.EvRematerialize? && Attempted(s, e).Some?
    ensures !Minted(s)
  {
    assert s.legs[0].token.None?;
  }

  lemma ClosersKeepMirrors(s: State, e: Event)
    requires Inv(s) && Attempted(s, e).Some? && (e.EvConverge? || e.EvReconcileClose? || e.EvCloseEmpty? || e.EvExternal?)
    ensures MirrorsKept(s, Step(s, e))
  {
    match e
    case EvConverge(requested, now) => ConvergeKeepsMirrors(s, ChosenProvenance(s, requested).FUNI_CLOSE_CONFIRMED?, now);
    case EvReconcileClose(receipt, reason, now) => ReconcileKeepsMirrors(s, receipt, reason, now);
    case EvCloseEmpty(reason, now) => EmptyKeepsMirrors(s, reason, now);
    case EvExternal(candidate, seen, allLegs, now) => ExternalKeepsMirrors(s, candidate, seen, allLegs, now);
  }

  lemma StepKeepsMirrors(s: State, e: Event)
    requires Inv(s) && Minted(s) && MirrorsPresent(s) && WellFormed(s, e)
    ensures MirrorsPresent(Step(s, e))
  {
    if Attempted(s, e).None? {
      return;
    }
    StepMirrors(s, e);
    MirrorsKeptPresent(s, Step(s, e));
  }

  lemma {:induction false} RunKeepsMirrors(s: State, es: seq<Event>)
    requires Inv(s) && Minted(s) && MirrorsPresent(s) && BoundToNewest(s)
    requires forall i :: 0 <= i < |es| ==> WellFormed(Run(s, es[..i]), es[i]) && !Supersedes(Run(s, es[..i]), es[i])
    ensures var t := Run(s, es); Inv(t) && Minted(t) && MirrorsPresent(t) && BoundToNewest(t)
  {
    if es != [] {
      var prior := es[..|es| - 1];
      forall i | 0 <= i < |prior| ensures WellFormed(Run(s, prior[..i]), prior[i]) && !Supersedes(Run(s, prior[..i]), prior[i]) {
        assert prior[..i] == es[..i];
      }
      RunKeepsMirrors(s, prior);
      StepKeeps(Run(s, prior), es[|es| - 1]);
      StepKeepsMirrors(Run(s, prior), es[|es| - 1]);
      BindingKept(Run(s, prior), es[|es| - 1]);
    }
  }

  lemma ReconcilesNow(t: State, k: nat, reason: CloseReason, now: int)
    requires Inv(t) && t.parent.status.OPEN? && MirrorsPresent(t) && BoundToNewest(t)
    requires ConfirmedClose(Rows(t, CLOSE_BATCH)) == Some(k) && k < |Rows(t, CLOSE_BATCH)|
    requires !AnyUnresolved(t) && ReasonAdmitted(t, reason)
    ensures ReconcileClose(t, Receipt(Rows(t, CLOSE_BATCH)[k].hash, true), reason, now).Some?
  {
    RowsAreOk(t, CLOSE_BATCH);
    ConfirmedCloseIsNewest(Rows(t, CLOSE_BATCH));
    CloseReconciles(t, Receipt(Rows(t, CLOSE_BATCH)[k].hash, true), reason, now);
  }

  /** From an open ladder with its mirrors in place, after any run of writers that leaves it
      open: a confirmed successful close row without an unresolved one, on a reset that
      admits the reason, is always reconciled. */
  lemma ReconciliationIsGuaranteed(s: State, es: seq<Event>, reason: CloseReason, now: int)
    requires Inv(s) && s.parent.status.OPEN? && MirrorsPresent(s) && BoundToNewest(s)
    requires forall i :: 0 <= i < |es| ==> WellFormed(Run(s, es[..i]), es[i]) && !Supersedes(Run(s, es[..i]), es[i])
    ensures var t := Run(s, es); var k := ConfirmedClose(Rows(t, CLOSE_BATCH));
            t.parent.status.OPEN? && k.Some? && !AnyUnresolved(t) && ReasonAdmitted(t, reason) ==>
              ReconcileClose(t, Receipt(Rows(t, CLOSE_BATCH)[k.value].hash, true), reason, now).Some?
  {
    RunKeepsMirrors(s, es);
    var t := Run(s, es);
    var k := ConfirmedClose(Rows(t, CLOSE_BATCH));
    if t.parent.status.OPEN? && k.Some? && !AnyUnresolved(t) && ReasonAdmitted(t, reason) {
      ReconcilesNow(t, k.value, reason, now);
    }
  }
}
