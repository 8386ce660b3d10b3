/** Reachable runs in which a guarantee of the broadcast boundary fails, each with the one
    step that makes it fail. */
module Misleads {
  import opened Prelude
  import opened Evidence
  import opened Journal
  import opened Broadcast
  import opened BroadcastSafety
  import opened Recovery

  /** A call up to its send, uninterrupted. */
  function CallUpToSend(c: Caller, key: Key, tx: Tx, accepted: bool): seq<Event> {
    [EvEnter(c, key), EvStep(c), EvStep(c), EvStep(c), EvSign(c, tx), EvStep(c), EvSend(c, accepted)]
  }

  predicate ReadyFor(w: World, c: Caller, key: Key, tx: Tx) {
    var rows := Rows(w.journal, key);
    c !in w.seen && w.mutex.None? && (rows != [] ==> rows[|rows| - 1].status.FAILED?)
    && !NonceTaken(w.journal, tx.nonce) && !HashTaken(w.journal, tx)
  }

  function AfterSend(w: World, c: Caller, key: Key, tx: Tx, accepted: bool): World {
    var rows := Rows(w.journal, key);
    w.(seen := w.seen + {c}, signers := w.signers + {c}, mutex := Some(w.now + NONCE_MUTEX_TTL_MS),
       journal := w.journal[key := rows + [Row(PREPARED, tx)]],
       sends := w.sends + [Send(c, key, |rows|, tx)],
       callers := w.callers[c := Sent(key, |rows|, tx, accepted)])
  }

  lemma {:induction false} RunConcat(w: World, a: seq<Event>, b: seq<Event>)
    ensures Run(w, a + b) == Run(Run(w, a), b)
  {
    if b == [] {
      assert a + b == a;
    } else {
      assert (a + b)[..|a + b| - 1] == a + b[..|b| - 1];
      RunConcat(w, a, b[..|b| - 1]);
    }
  }

  lemma RunOne(w: World, ev: Event)
    ensures Run(w, [ev]) == Step(w, ev)
  {
    assert [ev][..0] == [];
  }

  lemma RunTwo(w: World, a: Event, b: Event)
    ensures Run(w, [a, b]) == Step(Step(w, a), b)
  {
    assert [a, b][..1] == [a];
    RunOne(w, a);
  }

  lemma RunFive(w: World, a: Event, b: Event, c: Event, d: Event, e: Event)
    ensures Run(w, [a, b, c, d, e]) == Step(Step(Step(Step(Step(w, a), b), c), d), e)
  {
    assert [a, b, c, d, e] == [a, b] + [c, d] + [e];
    RunConcat(w, [a, b] + [c, d], [e]);
    RunConcat(w, [a, b], [c, d]);
    RunTwo(w, a, b);
    RunTwo(Run(w, [a, b]), c, d);
    RunOne(Run(w, [a, b] + [c, d]), e);
  }

  lemma ReadsAttempt(w: World, c: Caller, key: Key)
    requires c in w.callers && w.callers[c] == Entered(key)
    requires Rows(w.journal, key) != [] ==> Rows(w.journal, key)[|Rows(w.journal, key)| - 1].status.FAILED?
    ensures Step(w, EvStep(c)) == Goto(w, c, AttemptRead(key, |Rows(w.journal, key)|))
  {
  }

  lemma LoadsNothing(w: World, c: Caller, key: Key, attempt: nat)
    requires c in w.callers && w.callers[c] == AttemptRead(key, attempt)
    requires Rows(w.journal, key) != [] ==> Rows(w.journal, key)[|Rows(w.journal, key)| - 1].status.FAILED?
    ensures Step(w, EvStep(c)) == Goto(w, c, JournalLoaded(key, attempt, None))
  {
  }

  lemma TakesMutex(w: World, c: Caller, key: Key, attempt: nat)
    requires c in w.callers && w.callers[c] == JournalLoaded(key, attempt, None) && w.mutex.None?
    ensures Step(w, EvStep(c)) == Goto(w.(mutex := Some(w.now + NONCE_MUTEX_TTL_MS)), c, LeaseHeld(key, attempt, None))
  {
  }

  lemma Inserts(w: World, c: Caller, key: Key, tx: Tx)
    requires c in w.callers && w.callers[c] == Signed(key, |Rows(w.journal, key)|, tx)
    requires !NonceTaken(w.journal, tx.nonce) && !HashTaken(w.journal, tx)
    ensures Step(w, EvStep(c)) == Goto(w.(journal := w.journal[key := Rows(w.journal, key) + [Row(PREPARED, tx)]]), c,
                                       Committed(key, |Rows(w.journal, key)|, tx))
  {
  }

  function AfterSign(w: World, c: Caller, key: Key, tx: Tx): World {
    w.(seen := w.seen + {c}, signers := w.signers + {c}, mutex := Some(w.now + NONCE_MUTEX_TTL_MS),
       callers := w.callers[c := Signed(key, |Rows(w.journal, key)|, tx)])
  }

  function AfterLoad(w: World, c: Caller, key: Key): World {
    Goto(w.(seen := w.seen + {c}), c, JournalLoaded(key, |Rows(w.journal, key)|, None))
  }

  lemma CallLoads(w: World, c: Caller, key: Key)
    requires c !in w.seen
    requires Rows(w.journal, key) != [] ==> Rows(w.journal, key)[|Rows(w.journal, key)| - 1].status.FAILED?
    ensures Step(Step(Step(w, EvEnter(c, key)), EvStep(c)), EvStep(c)) == AfterLoad(w, c, key)
  {
    var attempt := |Rows(w.journal, key)|;
    var w1 := Goto(w.(seen := w.seen + {c}), c, Entered(key));
    assert Step(w, EvEnter(c, key)) == w1;
    ReadsAttempt(w1, c, key);
    var w2 := Goto(w1, c, AttemptRead(key, attempt));
    LoadsNothing(w2, c, key, attempt);
    assert Goto(w2, c, JournalLoaded(key, attempt, None)).callers == AfterLoad(w, c, key).callers;
  }

  lemma CallSigns(w: World, c: Caller, key: Key, tx: Tx)
    requires ReadyFor(w, c, key, tx)
    ensures Run(w, [EvEnter(c, key), EvStep(c), EvStep(c), EvStep(c), EvSign(c, tx)]) == AfterSign(w, c, key, tx)
  {
    RunFive(w, EvEnter(c, key), EvStep(c), EvStep(c), EvStep(c), EvSign(c, tx));
    CallLoads(w, c, key);
    LeasesAndSigns(AfterLoad(w, c, key), c, key, |Rows(w.journal, key)|, tx);
    SignsAfterLoad(w, c, key, tx);
  }

  lemma SignsAfterLoad(w: World, c: Caller, key: Key, tx: Tx)
    ensures var l := AfterLoad(w, c, key);
            Goto(l.(signers := l.signers + {c}, mutex := Some(l.now + NONCE_MUTEX_TTL_MS)), c, Signed(key, |Rows(w.journal, key)|, tx))
            == AfterSign(w, c, key, tx)
  {
    var attempt := |Rows(w.journal, key)|;
    assert w.callers[c := JournalLoaded(key, attempt, None)][c := Signed(key, attempt, tx)] == w.callers[c := Signed(key, attempt, tx)];
  }

  lemma LeasesAndSigns(w: World, c: Caller, key: Key, attempt: nat, tx: Tx)
    requires c in w.callers && w.callers[c] == JournalLoaded(key, attempt, None) && w.mutex.None?
    ensures Step(Step(w, EvStep(c)), EvSign(c, tx))
            == Goto(w.(signers := w.signers + {c}, mutex := Some(w.now + NONCE_MUTEX_TTL_MS)), c, Signed(key, attempt, tx))
  {
    TakesMutex(w, c, key, attempt);
    assert w.callers[c := LeaseHeld(key, attempt, None)][c := Signed(key, attempt, tx)] == w.callers[c := Signed(key, attempt, tx)];
  }

  lemma CallSends(w: World, c: Caller, key: Key, tx: Tx, accepted: bool)
    requires ReadyFor(w, c, key, tx)
    ensures Run(w, CallUpToSend(c, key, tx, accepted)) == AfterSend(w, c, key, tx, accepted)
  {
    var signing := [EvEnter(c, key), EvStep(c), EvStep(c), EvStep(c), EvSign(c, tx)];
    assert CallUpToSend(c, key, tx, accepted) == signing + [EvStep(c), EvSend(c, accepted)];
    RunConcat(w, signing, [EvStep(c), EvSend(c, accepted)]);
    CallSigns(w, c, key, tx);
    RunTwo(AfterSign(w, c, key, tx), EvStep(c), EvSend(c, accepted));
    SendsAfterSign(w, c, key, tx, accepted);
  }

  lemma SendsAfterSign(w: World, c: Caller, key: Key, tx: Tx, accepted: bool)
    requires !NonceTaken(w.journal, tx.nonce) && !HashTaken(w.journal, tx)
    ensures Step(Step(AfterSign(w, c, key, tx), EvStep(c)), EvSend(c, accepted)) == AfterSend(w, c, key, tx, accepted)
  {
    var attempt := |Rows(w.journal, key)|;
    InsertsAndSends(AfterSign(w, c, key, tx), c, key, tx, accepted);
    assert AfterSign(w, c, key, tx).callers[c := Sent(key, attempt, tx, accepted)] == w.callers[c := Sent(key, attempt, tx, accepted)];
  }

  lemma InsertsAndSends(w: World, c: Caller, key: Key, tx: Tx, accepted: bool)
    requires c in w.callers && w.callers[c] == Signed(key, |Rows(w.journal, key)|, tx)
    requires !NonceTaken(w.journal, tx.nonce) && !HashTaken(w.journal, tx)
    ensures var attempt := |Rows(w.journal, key)|;
            Step(Step(w, EvStep(c)), EvSend(c, accepted))
            == Goto(w.(journal := w.journal[key := Rows(w.journal, key) + [Row(PREPARED, tx)]],
                       sends := w.sends + [Send(c, key, attempt, tx)]), c, Sent(key, attempt, tx, accepted))
  {
    var attempt := |Rows(w.journal, key)|;
    Inserts(w, c, key, tx);
    assert w.callers[c := Committed(key, attempt, tx)][c := Sent(key, attempt, tx, accepted)] == w.callers[c := Sent(key, attempt, tx, accepted)];
  }

  // ---- growing a run ----

  predicate Quiet(ev: Event) {
    ev.EvEnter? || ev.EvStep? || ev.EvSign? || ev.EvSend? || ev.EvThrow? || ev.EvMine?
  }

  /** A truthful run from `w` to `t`. */
  ghost predicate Leads(w: World, es: seq<Event>, t: World) {
    Run(w, es) == t && TruthfulRun(w, es)
  }

  lemma QuietIsTruthful(w: World, ev: Event)
    requires Quiet(ev)
    ensures Truthful(w, ev)
  {
  }

  lemma Then(w: World, es: seq<Event>, t: World, ev: Event)
    requires Leads(w, es, t) && Truthful(t, ev)
    ensures Leads(w, es + [ev], Step(t, ev))
  {
    var more := es + [ev];
    RunConcat(w, es, [ev]);
    RunOne(t, ev);
    forall i | 0 <= i < |more| ensures Truthful(Run(w, more[..i]), more[i]) {
      assert more[..i] == es[..i];
      assert es[..|es|] == es;
    }
  }

  lemma ThenQuiet(w: World, es: seq<Event>, t: World, more: seq<Event>)
    requires Leads(w, es, t) && forall i :: 0 <= i < |more| ==> Quiet(more[i])
    ensures Leads(w, es + more, Run(t, more))
  {
    var all := es + more;
    RunConcat(w, es, more);
    forall i | 0 <= i < |all| ensures Truthful(Run(w, all[..i]), all[i]) {
      if i < |es| {
        assert all[..i] == es[..i];
      } else {
        QuietIsTruthful(Run(w, all[..i]), more[i - |es|]);
      }
    }
  }

  lemma ThenCall(w: World, es: seq<Event>, t: World, c: Caller, key: Key, tx: Tx, accepted: bool)
    requires Leads(w, es, t) && ReadyFor(t, c, key, tx)
    ensures Leads(w, es + CallUpToSend(c, key, tx, accepted), AfterSend(t, c, key, tx, accepted))
  {
    CallSends(t, c, key, tx, accepted);
    ThenQuiet(w, es, t, CallUpToSend(c, key, tx, accepted));
  }

  function AfterAccept(w: World, c: Caller, key: Key, tx: Tx): World {
    var rows := Rows(w.journal, key);
    AfterSend(w, c, key, tx, true).(
      journal := w.journal[key := rows + [Row(SUBMITTED, tx)]], mutex := None,
      callers := w.callers[c := Waiting(key, |rows|, Prepared(|rows|, tx))])
  }

  lemma AcceptsAfterSend(w: World, c: Caller, key: Key, tx: Tx, e: Evidence)
    requires e.ABSENT?
    ensures Step(AfterSend(w, c, key, tx, true), EvClassify(c, e)) == AfterAccept(w, c, key, tx)
  {
    var n := |Rows(w.journal, key)|;
    Accepted(AfterSend(w, c, key, tx, true), w.journal, c, key, tx, e);
    assert w.callers[c := Sent(key, n, tx, true)][c := Waiting(key, n, Prepared(n, tx))] == w.callers[c := Waiting(key, n, Prepared(n, tx))];
  }

  /** A call whose transaction is accepted but not yet seen, so that it waits for a receipt. */
  lemma SentAndAccepted(w: World, es: seq<Event>, t: World, c: Caller, key: Key, tx: Tx) returns (more: seq<Event>)
    requires Leads(w, es, t) && ReadyFor(t, c, key, tx) && tx.nonce == |t.chain.mined| && t.chain.pool == {}
    ensures Leads(w, more, AfterAccept(t, c, key, tx))
  {
    ThenCall(w, es, t, c, key, tx, true);
    var e := ABSENT(|t.chain.mined|, |t.chain.mined|);
    Then(w, es + CallUpToSend(c, key, tx, true), AfterSend(t, c, key, tx, true), EvClassify(c, e));
    AcceptsAfterSend(t, c, key, tx, e);
    more := es + CallUpToSend(c, key, tx, true) + [EvClassify(c, e)];
  }

  /** An accepted transaction that is not yet seen: SUBMITTED, and its caller waits. */
  lemma Accepted(w: World, base: Journal, c: Caller, key: Key, tx: Tx, e: Evidence)
    requires w.journal == base[key := Rows(base, key) + [Row(PREPARED, tx)]] && e.ABSENT?
    requires c in w.callers && w.callers[c] == Sent(key, |Rows(base, key)|, tx, true)
    ensures Step(w, EvClassify(c, e))
            == Goto(w.(journal := base[key := Rows(base, key) + [Row(SUBMITTED, tx)]], mutex := None), c,
                    Waiting(key, |Rows(base, key)|, Prepared(|Rows(base, key)|, tx)))
  {
    var n := |Rows(base, key)|;
    NewRowTo(base, key, Row(PREPARED, tx), SUBMITTED);
    assert Step(w, EvClassify(c, e)) == Conclude(w, c, key, n, Prepared(n, tx), e, true);
    assert Rows(w.journal, key) == Rows(base, key) + [Row(PREPARED, tx)];
    assert Classify(w.journal, key, n, Prepared(n, tx), e, true) == (SetStatus(w.journal, key, n, SUBMITTED), true);
  }

  lemma NewRowTo(base: Journal, key: Key, row: Row, status: Status)
    ensures SetStatus(base[key := Rows(base, key) + [row]], key, |Rows(base, key)|, status)
            == base[key := Rows(base, key) + [Row(status, row.tx)]]
  {
    RowReplaced(Rows(base, key), row, Row(status, row.tx));
  }

  lemma RowReplaced(rows: seq<Row>, a: Row, b: Row)
    ensures (rows + [a])[|rows| := b] == rows + [b]
  {
  }

  /** Mining the next two transactions of the wallet, both successful. */
  lemma MineBoth(w: World, es: seq<Event>, t: World, a: Tx, b: Tx) returns (all: seq<Event>)
    requires Leads(w, es, t) && a.nonce == |t.chain.mined| && b.nonce == a.nonce + 1
    ensures TruthfulRun(w, all) && Run(w, all).journal == t.journal
    ensures Succeeded(Run(w, all).chain, a) && Succeeded(Run(w, all).chain, b)
  {
    var ea, eb := EvMine(Receipt(a, true, 0, 0, 0)), EvMine(Receipt(b, true, 0, 0, 0));
    all := es + [ea, eb];
    ThenQuiet(w, es, t, [ea, eb]);
    RunTwo(t, ea, eb);
  }

  // ---- a failure read off the pending count is premature ----

  /** A call whose transaction is neither accepted nor seen, while the pending count has
      passed its nonce: its row is failed. */
  lemma SentAndFailed(w: World, key: Key, tx: Tx) returns (es: seq<Event>, u: World)
    requires Initial(w) && tx.nonce == 0
    ensures Leads(w, es, u)
    ensures u.seen == {0} && u.mutex.None? && u.chain == w.chain && u.journal == map[key := [Row(FAILED, tx)]]
  {
    assert Leads(w, [], w);
    ThenCall(w, [], w, 0, key, tx, false);
    var sent := AfterSend(w, 0, key, tx, false);
    Then(w, [] + CallUpToSend(0, key, tx, false), sent, EvClassify(0, ABSENT(0, 1)));
    es, u := [] + CallUpToSend(0, key, tx, false) + [EvClassify(0, ABSENT(0, 1))], Step(sent, EvClassify(0, ABSENT(0, 1)));
    assert Rows(w.journal, key) + [Row(PREPARED, tx)] == [Row(PREPARED, tx)];
    NewRowTo(map[], key, Row(PREPARED, tx), FAILED);
    assert Rows(map[], key) + [Row(FAILED, tx)] == [Row(FAILED, tx)];
    Unseen(sent, 0, key, tx, ABSENT(0, 1));
  }

  lemma Unseen(w: World, c: Caller, key: Key, tx: Tx, e: Evidence)
    requires w.journal == map[key := [Row(PREPARED, tx)]] && e.ABSENT? && e.pending > tx.nonce
    requires c in w.callers && w.callers[c] == Sent(key, 0, tx, false)
    ensures Step(w, EvClassify(c, e)) == Leave(w.(journal := SetStatus(w.journal, key, 0, FAILED), mutex := None), c)
  {
    assert Step(w, EvClassify(c, e)) == Conclude(w, c, key, 0, Prepared(0, tx), e, false);
    assert Classify(w.journal, key, 0, Prepared(0, tx), e, false) == (SetStatus(w.journal, key, 0, FAILED), false);
  }

  /** Two attempts of one stage both succeed on chain: the first was failed because the
      pending count had passed its nonce while the latest count had not. */
  lemma PendingCountMisleads(w: World, key: Key) returns (es: seq<Event>)
    requires Initial(w)
    ensures TruthfulRun(w, es)
    ensures var t := Run(w, es); var rows := Rows(t.journal, key);
            |rows| == 2 && rows[0].status.FAILED? && Succeeded(t.chain, rows[0].tx) && Succeeded(t.chain, rows[1].tx)
  {
    var es1, w1 := SentAndFailed(w, key, Tx(0, 0));
    ThenCall(w, es1, w1, 1, key, Tx(1, 1), true);
    es := MineBoth(w, es1 + CallUpToSend(1, key, Tx(1, 1), true), AfterSend(w1, 1, key, Tx(1, 1), true), Tx(0, 0), Tx(1, 1));
  }

  // ---- a late reverted receipt fails the wrong attempt ----

  /** Attempt 0 is broadcast, mined as reverted, and failed by the reconciler while its
      caller still waits. */
  lemma FirstReverts(w: World, key: Key, tx: Tx) returns (es: seq<Event>, u: World)
    requires Initial(w) && tx.nonce == 0
    ensures Leads(w, es, u)
    ensures u.seen == {0} && u.mutex.None? && u.chain == Chain([Receipt(tx, false, 0, 0, 0)], {})
    ensures u.journal == map[key := [Row(FAILED, tx)]] && u.callers == map[0 := Waiting(key, 0, Prepared(0, tx))]
  {
    var reverted := Receipt(tx, false, 0, 0, 0);
    assert Leads(w, [], w);
    var es1 := SentAndAccepted(w, [], w, 0, key, tx);
    var w1 := AfterAccept(w, 0, key, tx);
    QuietIsTruthful(w1, EvMine(reverted));
    Then(w, es1, w1, EvMine(reverted));
    var w2 := w1.(chain := Chain([reverted], {}));
    assert Step(w1, EvMine(reverted)) == w2;
    assert w2.journal == map[key := [] + [Row(SUBMITTED, tx)]];
    var settle := EvReconcile(key, 0, tx, RECEIPT(reverted));
    Reverts(w2, key, tx);
    Then(w, es1 + [EvMine(reverted)], w2, settle);
    es, u := es1 + [EvMine(reverted)] + [settle], Step(w2, settle);
  }

  /** The reconciler records the reverted receipt of the only row. */
  lemma Reverts(w: World, key: Key, tx: Tx)
    requires tx.nonce == 0 && w.chain == Chain([Receipt(tx, false, 0, 0, 0)], {})
    requires w.journal == map[key := [] + [Row(SUBMITTED, tx)]]
    ensures var settle := EvReconcile(key, 0, tx, RECEIPT(Receipt(tx, false, 0, 0, 0)));
            Truthful(w, settle) && Step(w, settle) == w.(journal := map[key := [Row(FAILED, tx)]])
  {
    NewRowTo(map[], key, Row(SUBMITTED, tx), FAILED);
    assert Rows(map[], key) + [Row(FAILED, tx)] == [Row(FAILED, tx)];
    assert Settle(w.journal, key, 0, tx, FAILED) == Some(SetStatus(w.journal, key, 0, FAILED));
  }

  /** The late receipt of attempt 0 then fails attempt 1, which is still waiting. */
  lemma LateRevert(w: World, es: seq<Event>, t: World, key: Key, tx: Tx, next: Tx) returns (more: seq<Event>, u: World)
    requires Leads(w, es, t) && tx.nonce == 0 && next.nonce == 1
    requires t.seen == {0} && t.mutex.None? && t.chain == Chain([Receipt(tx, false, 0, 0, 0)], {})
    requires t.journal == map[key := [Row(FAILED, tx)]] && t.callers == map[0 := Waiting(key, 0, Prepared(0, tx))]
    ensures Leads(w, more, u)
    ensures u.seen == {0, 1} && u.mutex.None? && u.chain == t.chain
    ensures u.journal == map[key := [Row(FAILED, tx), Row(FAILED, next)]]
  {
    var reverted := Receipt(tx, false, 0, 0, 0);
    var es1 := SentAndAccepted(w, es, t, 1, key, next);
    var w1 := AfterAccept(t, 1, key, next);
    assert WaitsFor(w1, 0, reverted);
    Then(w, es1, w1, EvReverted(0, reverted));
    more, u := es1 + [EvReverted(0, reverted)], Step(w1, EvReverted(0, reverted));
    FailsTheNext(t.journal, key, tx, next);
  }

  lemma FailsTheNext(j: Journal, key: Key, tx: Tx, next: Tx)
    requires j == map[key := [Row(FAILED, tx)]]
    ensures FailNewest(j[key := Rows(j, key) + [Row(SUBMITTED, next)]], key) == map[key := [Row(FAILED, tx), Row(FAILED, next)]]
  {
    NewRowTo(j, key, Row(SUBMITTED, next), FAILED);
    assert Rows(j, key) + [Row(FAILED, next)] == [Row(FAILED, tx), Row(FAILED, next)];
    assert Rows(j, key) + [Row(SUBMITTED, next)] == [Row(FAILED, tx), Row(SUBMITTED, next)];
  }

  /** Attempt 0 reverts and is reconciled, attempt 1 is broadcast, and only then does the
      first caller record its reverted receipt: it fails attempt 1, attempt 2 is broadcast,
      and both succeed. */
  lemma LateRevertMisleads(w: World, key: Key) returns (es: seq<Event>)
    requires Initial(w)
    ensures TruthfulRun(w, es)
    ensures var t := Run(w, es); var rows := Rows(t.journal, key);
            |rows| == 3 && rows[1].status.FAILED? && Succeeded(t.chain, rows[1].tx) && Succeeded(t.chain, rows[2].tx)
  {
    var es1, w1 := FirstReverts(w, key, Tx(0, 0));
    var es2, w2 := LateRevert(w, es1, w1, key, Tx(0, 0), Tx(1, 1));
    ThenCall(w, es2, w2, 2, key, Tx(2, 2), true);
    es := MineBoth(w, es2 + CallUpToSend(2, key, Tx(2, 2), true), AfterSend(w2, 2, key, Tx(2, 2), true), Tx(1, 1), Tx(2, 2));
  }

  // ---- the ledger sends the same bytes twice ----

  lemma LoadsFirst(w: World, c: Caller, key: Key) returns (es: seq<Event>)
    requires Initial(w)
    ensures Leads(w, es, AfterLoad(w, c, key))
  {
    assert Leads(w, [], w);
    var step := EvStep(c);
    es := [] + [EvEnter(c, key), step] + [step];
    ThenQuiet(w, [], w, [EvEnter(c, key), step]);
    RunTwo(w, EvEnter(c, key), step);
    ThenQuiet(w, [] + [EvEnter(c, key), step], Step(Step(w, EvEnter(c, key)), step), [step]);
    RunOne(Step(Step(w, EvEnter(c, key)), step), step);
    CallLoads(w, c, key);
  }

  lemma CutOff(w: World, c: Caller, key: Key, tx: Tx)
    requires Rows(w.journal, key) == []
    ensures var u := Step(AfterSend(w, c, key, tx, false), EvThrow(c));
            u.callers == w.callers - {c} && u.mutex.None? && u.strict == w.strict
            && Rows(u.journal, key) == [Row(PREPARED, tx)] && u.sends == w.sends + [Send(c, key, 0, tx)]
  {
    var sent := AfterSend(w, c, key, tx, false);
    assert Step(sent, EvThrow(c)) == Exit(sent, c);
    assert sent.callers - {c} == w.callers - {c};
  }

  /** Beside a caller that has loaded an empty journal, another one sends and is cut off. */
  lemma FirstSends(w: World, es: seq<Event>, t: World, key: Key, tx: Tx) returns (more: seq<Event>, u: World)
    requires Leads(w, es, t) && ReadyFor(t, 0, key, tx) && Rows(t.journal, key) == []
    ensures Leads(w, more, u)
    ensures u.callers == t.callers - {0} && u.mutex.None? && u.strict == t.strict
    ensures Rows(u.journal, key) == [Row(PREPARED, tx)] && u.sends == t.sends + [Send(0, key, 0, tx)]
  {
    ThenCall(w, es, t, 0, key, tx, false);
    var sent := AfterSend(t, 0, key, tx, false);
    QuietIsTruthful(sent, EvThrow(0));
    Then(w, es + CallUpToSend(0, key, tx, false), sent, EvThrow(0));
    CutOff(t, 0, key, tx);
    more, u := es + CallUpToSend(0, key, tx, false) + [EvThrow(0)], Step(sent, EvThrow(0));
  }

  /** Behind the ledger that accepts an identical existing row, two callers that both loaded
      an empty journal and signed the same request send it one after the other. */
  lemma LedgerSendsTwice(w: World, key: Key, tx: Tx) returns (es: seq<Event>)
    requires Initial(w) && !w.strict
    ensures TruthfulRun(w, es)
    ensures Run(w, es).sends == [Send(0, key, 0, tx), Send(1, key, 0, tx)]
  {
    var loaded := LoadsFirst(w, 1, key);
    var sent, t := FirstSends(w, loaded, AfterLoad(w, 1, key), key, tx);
    var last := [EvStep(1), EvSign(1, tx), EvStep(1), EvSend(1, false)];
    SecondSend(t, 1, key, tx);
    ThenQuiet(w, sent, t, last);
    es := sent + last;
  }

  lemma SecondSend(w: World, c: Caller, key: Key, tx: Tx)
    requires c in w.callers && w.callers[c] == JournalLoaded(key, 0, None) && w.mutex.None? && !w.strict
    requires Rows(w.journal, key) == [Row(PREPARED, tx)]
    ensures Run(w, [EvStep(c), EvSign(c, tx), EvStep(c), EvSend(c, false)]).sends == w.sends + [Send(c, key, 0, tx)]
  {
    assert [EvStep(c), EvSign(c, tx), EvStep(c), EvSend(c, false)] == [EvStep(c), EvSign(c, tx)] + [EvStep(c), EvSend(c, false)];
    RunConcat(w, [EvStep(c), EvSign(c, tx)], [EvStep(c), EvSend(c, false)]);
    RunTwo(w, EvStep(c), EvSign(c, tx));
    TakesMutex(w, c, key, 0);
    var w1 := Goto(w.(mutex := Some(w.now + NONCE_MUTEX_TTL_MS)), c, LeaseHeld(key, 0, None));
    var w2 := Sign(w1, c, key, 0, tx);
    assert Step(w1, EvSign(c, tx)) == w2;
    RunTwo(w2, EvStep(c), EvSend(c, false));
    assert PersistPrepared(false, w2.journal, key, 0, tx) == Some(w2.journal);
    assert Step(w2, EvStep(c)) == Goto(w2, c, Committed(key, 0, tx));
  }
}
