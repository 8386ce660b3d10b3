/** Reachable runs in which a guarantee of the ladder fails. */
module LadderMisleads {
  import opened Prelude
  import opened LadderModel
  import opened LadderInvariant
  import opened LadderLifecycle
  import opened LadderClose
  import opened LadderOpen

  const PLANNED_LEG := Leg(PLANNED, None, None, None, 0, 60)

  /** A reposition child as it is created. */
  function NewLadder(): State {
    State(0, Parent(PLANNED, true, 0, 0, 0, None, None, None), seq(5, i => PLANNED_LEG), map[],
          map[], map[], map[], Some(Reset(OPEN_PENDING, 0, None, None)), false)
  }

  lemma {:induction false} RunConcat(s: State, a: seq<Event>, b: seq<Event>)
    ensures Run(s, a + b) == Run(Run(s, a), b)
  {
    if b == [] {
      assert a + b == a;
    } else {
      assert (a + b)[..|a + b| - 1] == a + b[..|b| - 1];
      RunConcat(s, a, b[..|b| - 1]);
    }
  }

  lemma RunOne(s: State, e: Event)
    ensures Run(s, [e]) == Step(s, e)
  {
    assert [e][..0] == [];
  }

  lemma RunThree(s: State, a: Event, b: Event, c: Event)
    ensures Run(s, [a, b, c]) == Step(Step(Step(s, a), b), c)
  {
    assert [a, b, c] == [a] + [b] + [c];
    RunConcat(s, [a] + [b], [c]);
    RunConcat(s, [a], [b]);
    RunOne(s, a);
    RunOne(Step(s, a), b);
    RunOne(Step(Step(s, a), b), c);
  }

  // ---- a cancelled ladder with opening rows ----

  /** An approval is journaled and confirmed. */
  lemma Approved(s: State, slot: Slot) returns (t: State)
    requires s == NewLadder() && slot == Slot(OPEN_ERC20_APPROVAL, 0)
    ensures t == Step(Step(s, EvPrepare(slot, 7, NORMAL_OPERATOR_CLOSE, None, 0)), EvSettle(slot, Mined(Receipt(7, true))))
    ensures t.legs == s.legs && t.reset == s.reset && t.parent.status.PLANNED?
    ensures t.journal == map[OPEN_ERC20_APPROVAL := [JournalRow(CONFIRMED, 7, Some(Receipt(7, true)))]]
  {
    assert Rows(s, OPEN_ERC20_APPROVAL) == [] && !HashUsed(s, 7);
    var s1 := Step(s, EvPrepare(slot, 7, NORMAL_OPERATOR_CLOSE, None, 0));
    assert s1.journal == map[OPEN_ERC20_APPROVAL := [] + [JournalRow(PREPARED, 7, None)]];
    t := Step(s1, EvSettle(slot, Mined(Receipt(7, true))));
    assert ([] + [JournalRow(PREPARED, 7, None)])[0 := JournalRow(CONFIRMED, 7, Some(Receipt(7, true)))] == [JournalRow(CONFIRMED, 7, Some(Receipt(7, true)))];
  }

  /** A reachable run through the precheck that ends cancelled with a confirmed approval row. */
  lemma OrphanCounterexample() returns (s: State, es: seq<Event>)
    ensures Initial(s) && Honest(s, es) && |es| == 3
    ensures OrphanPrecheck(Run(s, es[..2]))
    ensures Run(s, es).parent.status.CANCELLED? && Rows(Run(s, es), OPEN_ERC20_APPROVAL) != []
  {
    s := NewLadder();
    var slot := Slot(OPEN_ERC20_APPROVAL, 0);
    es := [EvPrepare(slot, 7, NORMAL_OPERATOR_CLOSE, None, 0), EvSettle(slot, Mined(Receipt(7, true))), EvCancelOrphan(0)];
    var s2 := Approved(s, slot);
    RunThree(s, es[0], es[1], es[2]);
    assert es[..2] == [es[0]] + [es[1]];
    RunConcat(s, [es[0]], [es[1]]);
    RunOne(s, es[0]);
    RunOne(Step(s, es[0]), es[1]);
    CancelsApproved(s2);
  }

  lemma CancelsApproved(s: State)
    requires s.parent.status.PLANNED? && s.legs == NewLadder().legs && s.reset == NewLadder().reset
    requires s.journal == map[OPEN_ERC20_APPROVAL := [JournalRow(CONFIRMED, 7, Some(Receipt(7, true)))]]
    ensures var t := Step(s, EvCancelOrphan(0)); OrphanPrecheck(s) && t.parent.status.CANCELLED? && t.journal == s.journal
  {
  }

  // ---- a reposition past a close that is not proven ----

  const MINTS: seq<Token> := [1, 2, 3, 4, 5]
  const LIQUIDITY: seq<nat> := [1, 1, 1, 1, 1]
  const CLOSE_RECEIPT := Receipt(2, true)

  /** The ladder is opened by its receipt. */
  function Opening(): seq<Event> {
    [EvPrepare(Slot(OPEN_BATCH, 0), 1, NORMAL_OPERATOR_CLOSE, None, 0),
     EvSettle(Slot(OPEN_BATCH, 0), Mined(Receipt(1, true))),
     EvProject(MINTS, LIQUIDITY, 0)]
  }

  /** An authorized close is journaled; before it is marked submitted another writer closes the
      ladder as empty, and then the reconciler records the receipt of the close. */
  function Closing(): seq<Event> {
    [EvPhase(WATCHING), EvPrepare(Slot(CLOSE_BATCH, 0), 2, USDG_RESET_REPOSITION, Some(ManualAuthorization(0)), 0),
     EvCloseEmpty(USDG_RESET_REPOSITION, 0)]
  }

  lemma JournaledOpen() returns (t: State)
    ensures t == Step(Step(NewLadder(), Opening()[0]), Opening()[1])
    ensures Inv(t) && t == NewLadder().(parent := t.parent, legs := t.legs, journal := t.journal)
    ensures t.parent.status.PLANNED? && t.parent.live && LegsUnminted(t.legs) && ConfirmedOpen(t)
    ensures Rows(t, CLOSE_BATCH) == [] && !HashUsed(t, 2)
  {
    var s := NewLadder();
    InitialInv(s);
    var s1 := PreparesOpen(s);
    StepKeeps(s, Opening()[0]);
    t := Step(s1, Opening()[1]);
    assert [JournalRow(PREPARED, 1, None)][0 := JournalRow(CONFIRMED, 1, Some(Receipt(1, true)))] == [JournalRow(CONFIRMED, 1, Some(Receipt(1, true)))];
    assert t.journal == map[OPEN_BATCH := [JournalRow(CONFIRMED, 1, Some(Receipt(1, true)))]];
    StepKeeps(s1, Opening()[1]);
  }

  lemma PreparesOpen(s: State) returns (t: State)
    requires s == NewLadder()
    ensures t == Step(s, Opening()[0]) && t == s.(parent := t.parent, legs := t.legs, journal := t.journal)
    ensures t.parent.status.PLANNED? && t.parent.live && LegsUnminted(t.legs)
    ensures t.journal == map[OPEN_BATCH := [JournalRow(PREPARED, 1, None)]]
  {
    assert Rows(s, OPEN_BATCH) == [] && !HashUsed(s, 1);
    assert [] + [JournalRow(PREPARED, 1, None)] == [JournalRow(PREPARED, 1, None)];
    var p := PrepareRow(s, Slot(OPEN_BATCH, 0), 1);
    assert p == Some(s.(journal := map[OPEN_BATCH := [JournalRow(PREPARED, 1, None)]]));
    t := Step(s, EvPrepare(Slot(OPEN_BATCH, 0), 1, NORMAL_OPERATOR_CLOSE, None, 0));
  }

  lemma {:induction false} UnmintedProjects(s: State, mints: seq<Token>, liquidity: seq<nat>, n: nat)
    requires n <= |mints| == |liquidity| == |s.legs| && LegsUnminted(s.legs)
    ensures ProjectLegs(s, mints, liquidity, n).Some?
  {
    if n > 0 {
      UnmintedProjects(s, mints, liquidity, n - 1);
      ProjectLegsFrame(s, mints, liquidity, n - 1);
    }
  }

  lemma Opens(s: State) returns (t: State)
    requires Inv(s) && s == NewLadder().(parent := s.parent, legs := s.legs, journal := s.journal)
    requires s.parent.status.PLANNED? && s.parent.live && LegsUnminted(s.legs) && ConfirmedOpen(s)
    ensures t == Step(s, Opening()[2]) && Inv(t) && t.parent.status.OPEN? && MirrorsPresent(t)
    ensures t.journal == s.journal && t.reset == s.reset && t.unproven == s.unproven
  {
    UnmintedProjects(s, MINTS, LIQUIDITY, 5);
    ProjectLegsFrame(s, MINTS, LIQUIDITY, 5);
    t := Step(s, Opening()[2]);
    assert Distinct(MINTS);
    StepKeeps(s, Opening()[2]);
    ProjectionOpens(s, MINTS, LIQUIDITY, 0);
  }

  lemma ClosePrepared(s: State) returns (t: State)
    requires Inv(s) && s.parent.status.OPEN? && MirrorsPresent(s) && !s.unproven && s.reset == Some(Reset(OPEN_PENDING, 0, None, None))
    requires Rows(s, CLOSE_BATCH) == [] && !HashUsed(s, 2)
    ensures t == Step(Step(s, Closing()[0]), Closing()[1])
    ensures Inv(t) && t.parent == s.parent && MirrorsPresent(t) && !t.unproven
    ensures t.reset.Some? && t.reset.value.phase.CLOSE_PREPARED? && Manual(t.reset.value.identity)
    ensures Rows(t, CLOSE_BATCH) == [JournalRow(PREPARED, CLOSE_RECEIPT.hash, None)]
  {
    var s1 := Step(s, Closing()[0]);
    assert s1 == s.(reset := Some(Reset(WATCHING, 1, None, None)));
    StepKeeps(s, Closing()[0]);
    t := Step(s1, Closing()[1]);
    StepKeeps(s1, Closing()[1]);
    assert t.legs == BindClose(s.legs, Slot(CLOSE_BATCH, 0));
  }

  /** With its mirrors in place an open ladder can be closed as empty. */
  lemma {:induction false} PresentMirrorsClose(s: State, n: nat)
    requires MirrorsPresent(s) && n <= |s.legs| && forall i :: 0 <= i < |s.legs| ==> s.legs[i].status.OPEN?
    ensures MirrorLegs(s, n).Some?
  {
    if n > 0 {
      PresentMirrorsClose(s, n - 1);
      MirrorLegsFrame(s, n - 1);
      MirrorRowsFrame(s, n - 1);
      assert MirrorPresent(s, s.legs[n - 1]);
    }
  }

  lemma ClosedAsEmpty(s: State) returns (t: State)
    requires Inv(s) && s.parent.status.OPEN? && MirrorsPresent(s) && !s.unproven
    requires s.reset.Some? && s.reset.value.phase.CLOSE_PREPARED?
    ensures t == Step(s, Closing()[2])
    ensures t.parent.status.CLOSED? && t.parent.terminalProvenance.None? && t.journal == s.journal && t.reset == s.reset && !t.unproven
  {
    PresentMirrorsClose(s, |s.legs|);
    MirrorLegsFrame(s, |s.legs|);
    t := Step(s, Closing()[2]);
  }

  lemma ReceiptRecorded(s: State, receipt: Receipt) returns (t: State)
    requires Rows(s, CLOSE_BATCH) == [JournalRow(PREPARED, receipt.hash, None)] && receipt.success
    ensures t == Step(s, EvSettle(Slot(CLOSE_BATCH, 0), Mined(receipt)))
    ensures t == s.(journal := t.journal) && Rows(t, CLOSE_BATCH) == [JournalRow(CONFIRMED, receipt.hash, Some(receipt))]
  {
    t := Step(s, EvSettle(Slot(CLOSE_BATCH, 0), Mined(receipt)));
  }

  /** The states of the run up to the close as empty. */
  lemma ClosedOverPrepared() returns (t: State)
    ensures t == Run(NewLadder(), Opening() + Closing())
    ensures t.parent.status.CLOSED? && t.parent.terminalProvenance.None? && !t.unproven
    ensures t.reset.Some? && t.reset.value.phase.CLOSE_PREPARED? && Manual(t.reset.value.identity)
    ensures Rows(t, CLOSE_BATCH) == [JournalRow(PREPARED, CLOSE_RECEIPT.hash, None)]
  {
    RunThree(NewLadder(), Opening()[0], Opening()[1], Opening()[2]);
    var s2 := JournaledOpen();
    var s3 := Opens(s2);
    RunConcat(NewLadder(), Opening(), Closing());
    RunThree(s3, Closing()[0], Closing()[1], Closing()[2]);
    var s5 := ClosePrepared(s3);
    t := ClosedAsEmpty(s5);
  }

  /** The reset loop read the closed parent and the rows of the close once before and once
      after its receipt, and moves the reposition on although that close did not close the
      ladder. */
  lemma EmptyCloseIsUnproven() returns (s: State, es: seq<Event>)
    ensures Initial(s) && Honest(s, es) && es != [] && Unproven(Run(s, es[..|es| - 1]), es[|es| - 1])
    ensures var t := Run(s, es); t.reset.Some? && t.reset.value.phase.CLOSE_CONFIRMED? && !ProvenClose(t)
  {
    s := NewLadder();
    var before := Opening() + Closing();
    var settle := EvSettle(Slot(CLOSE_BATCH, 0), Mined(CLOSE_RECEIPT));
    var s6 := ClosedOverPrepared();
    var s7 := ReceiptRecorded(s6, CLOSE_RECEIPT);
    RunConcat(s, before, [settle]);
    RunOne(s6, settle);
    var confirm := EvConfirmFromReset(s6.parent, s6.reset.value, Rows(s6, CLOSE_BATCH), Rows(s7, CLOSE_BATCH));
    MovesAnyway(s6, s7, confirm);
    es := before + [settle] + [confirm];
    assert es[..6] == before && es[..7] == before + [settle];
    OnlyLastReads(s, es, 6, 7);
    MoveIsProvenIff(s7, confirm);
  }

  lemma MovesAnyway(s: State, t: State, e: Event)
    requires s.parent.status.CLOSED? && s.parent.terminalProvenance.None? && t == s.(journal := t.journal)
    requires s.reset.Some? && s.reset.value.phase.CLOSE_PREPARED? && Manual(s.reset.value.identity)
    requires Rows(s, CLOSE_BATCH) == [JournalRow(PREPARED, CLOSE_RECEIPT.hash, None)]
    requires Rows(t, CLOSE_BATCH) == [JournalRow(CONFIRMED, CLOSE_RECEIPT.hash, Some(CLOSE_RECEIPT))]
    requires e == EvConfirmFromReset(s.parent, s.reset.value, Rows(s, CLOSE_BATCH), Rows(t, CLOSE_BATCH))
    ensures Unproven(t, e) && ReadTrue(t, e.parent, e.rows)
  {
  }

  /** A run whose last step is the only one that acts on readings. */
  lemma OnlyLastReads(s: State, es: seq<Event>, j: nat, k: nat)
    requires es != [] && j <= k < |es| && es[|es| - 1].EvConfirmFromReset?
    requires forall i :: 0 <= i < |es| - 1 ==> !es[i].EvExternal? && !es[i].EvConfirmFromReset? && (es[i].EvProject? ==> Distinct(es[i].mints))
    requires es[|es| - 1].parent == Run(s, es[..j]).parent && es[|es| - 1].rows == Rows(Run(s, es[..k]), CLOSE_BATCH)
    ensures Honest(s, es)
  {
    var n := |es| - 1;
    forall i | 0 <= i < |es| ensures (es[i].EvProject? ==> Distinct(es[i].mints)) && ReadEarlier(s, es, i) {
      if i == n {
        LastReadsEarlier(s, es, n, j, k);
      } else {
        ReadsNothing(s, es, i);
      }
    }
  }

  lemma ReadsNothing(s: State, es: seq<Event>, i: nat)
    requires i < |es| && !es[i].EvExternal? && !es[i].EvConfirmFromReset?
    ensures ReadEarlier(s, es, i)
  {
  }

  lemma LastReadsEarlier(s: State, es: seq<Event>, n: nat, j: nat, k: nat)
    requires j <= k <= n < |es| && es[n].EvConfirmFromReset?
    requires es[n].parent == Run(s, es[..j]).parent && es[n].rows == Rows(Run(s, es[..k]), CLOSE_BATCH)
    ensures ReadEarlier(s, es, n)
  {
  }
}
