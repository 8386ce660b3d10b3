/** The guarded V3 executor: another client of the chain journal. Its caller names the attempt,
    it holds the nonce mutex until the receipt, and a recovery joins it without ever sending. */
module GuardedExecutor {
  import opened Prelude
  import opened Evidence
  import opened Journal

  type Caller = nat

  /** The identity of one row; its journal id stands for the same triple. */
  datatype Id = Id(key: Key, attempt: nat)

  type Book = map<Id, Row>

  datatype Pc =
    | Leased(id: Id)
    | Signed(id: Id, tx: Tx)
    | Committed(id: Id, tx: Tx)
    | Unanswered(id: Id, tx: Tx)
    | Accepted(id: Id, tx: Tx)
    | Awaiting(id: Id, tx: Tx, holding: bool)
    | Observing(id: Id, tx: Tx, status: Status)

  datatype Send = Send(caller: Caller, id: Id, tx: Tx)

  datatype World = World(book: Book, mutex: Option<int>, now: int, callers: map<Caller, Pc>, sends: seq<Send>, chain: Chain)

  const NONCE_MUTEX_TTL_MS := 300 * 1000

  function Goto(w: World, c: Caller, pc: Pc): World {
    w.(callers := w.callers[c := pc])
  }

  function Leave(w: World, c: Caller): World {
    w.(callers := w.callers - {c})
  }

  predicate Holding(pc: Pc) {
    match pc
    case Awaiting(_, _, holding) => holding
    case Observing(_, _, _) => false
    case _ => true
  }

  /** Every way out of an execution passes the `finally` that releases the mutex. */
  function Finish(w: World, c: Caller): World
    requires c in w.callers
  {
    Leave(if Holding(w.callers[c]) then w.(mutex := None) else w, c)
  }

  // ---- the journal ----

  predicate Taken(book: Book, tx: Tx) {
    exists id <- book :: book[id].tx == tx || (Live(book[id]) && book[id].tx.nonce == tx.nonce)
  }

  /** The insert of the ledger and the status check behind it: an existing row is accepted
      while it is PREPARED with the same transaction. */
  function Persist(book: Book, id: Id, tx: Tx): Option<Book> {
    if id in book then
      if book[id].tx == tx && book[id].status.PREPARED? then Some(book) else None
    else if Taken(book, tx) then None
    else Some(book[id := Row(PREPARED, tx)])
  }

  /** `transitionChainTransaction`: guarded by the status it leaves. */
  function Transition(book: Book, id: Id, from: Status, to: Status): Option<Book> {
    if id in book && book[id].status == from then Some(book[id := Row(to, book[id].tx)]) else None
  }

  // ---- the steps ----

  datatype Event =
    | EvExecute(c: Caller, id: Id)
    | EvSign(c: Caller, tx: Tx)
    | EvCommit(c: Caller)
    | EvSend(c: Caller, accepted: bool)
    | EvObserve(c: Caller, found: bool)
    | EvSubmit(c: Caller)
    | EvReceipt(c: Caller, receipt: Receipt)
    | EvRecover(c: Caller, id: Id)
    | EvThrow(c: Caller)
    | EvCrash(c: Caller)
    | EvTick(ms: nat)
    | EvMine(receipt: Receipt)

  function Execute(w: World, c: Caller, id: Id): World {
    if c in w.callers || (w.mutex.Some? && w.mutex.value >= w.now) then w
    else Goto(w.(mutex := Some(w.now + NONCE_MUTEX_TTL_MS)), c, Leased(id))
  }

  /** The row is loaded once; a terminal one is only reported. */
  function Recover(w: World, c: Caller, id: Id): World {
    if c in w.callers || id !in w.book || !Unresolved(w.book[id]) then w
    else Goto(w, c, Observing(id, w.book[id].tx, w.book[id].status))
  }

  /** One step of a call whose program point is `pc`. */
  function Proceed(w: World, c: Caller, pc: Pc, ev: Event): World
    requires c in w.callers && w.callers[c] == pc
  {
    match (ev, pc)
    case (EvSign(_, tx), Leased(id)) => Goto(w, c, Signed(id, tx))
    case (EvCommit(_), Signed(id, tx)) =>
      (match Persist(w.book, id, tx)
       case Some(book) => Goto(w.(book := book), c, Committed(id, tx))
       case None => Finish(w, c))
    case (EvSend(_, accepted), Committed(id, tx)) =>
      Goto(w.(sends := w.sends + [Send(c, id, tx)]), c, if accepted then Accepted(id, tx) else Unanswered(id, tx))
    case (EvObserve(_, found), Unanswered(id, tx)) => if found then Goto(w, c, Accepted(id, tx)) else Finish(w, c)
    case (EvObserve(_, found), Observing(id, tx, status)) =>
      if !found then Finish(w, c)
      else if status.PREPARED? then Submit(w, c, id, tx, false)
      else Goto(w, c, Awaiting(id, tx, false))
    case (EvSubmit(_), Accepted(id, tx)) => Submit(w, c, id, tx, true)
    case (EvReceipt(_, receipt), Awaiting(id, tx, _)) =>
      if receipt.tx != tx then w
      else (match Transition(w.book, id, SUBMITTED, if receipt.success then CONFIRMED else FAILED)
            case Some(book) => Finish(w.(book := book), c)
            case None => Finish(w, c))
    case (EvThrow(_), _) => Finish(w, c)
    case _ => w
  }

  function Submit(w: World, c: Caller, id: Id, tx: Tx, holding: bool): World
    requires c in w.callers
  {
    match Transition(w.book, id, PREPARED, SUBMITTED)
    case Some(book) => Goto(w.(book := book), c, Awaiting(id, tx, holding))
    case None => Finish(w, c)
  }

  function Step(w: World, ev: Event): World {
    match ev
    case EvExecute(c, id) => Execute(w, c, id)
    case EvRecover(c, id) => Recover(w, c, id)
    case EvCrash(c) => Leave(w, c)
    case EvTick(ms) => w.(now := w.now + ms)
    case EvMine(receipt) =>
      if receipt.tx.nonce == |w.chain.mined| && ValidReceipt(receipt, receipt.tx)
      then w.(chain := Chain(w.chain.mined + [receipt], {})) else w
    case _ => if ev.c in w.callers then Proceed(w, ev.c, w.callers[ev.c], ev) else w
  }

  function Run(w: World, es: seq<Event>): World {
    if es == [] then w else Step(Run(w, es[..|es| - 1]), es[|es| - 1])
  }

  predicate Initial(w: World) {
    w.book == map[] && w.callers == map[] && w.sends == [] && w.mutex.None? && w.chain == Chain([], {})
  }

  // ---- what every step keeps ----

  predicate HasRow(book: Book, id: Id, tx: Tx) {
    id in book && book[id].tx == tx
  }

  predicate CallOk(book: Book, pc: Pc) {
    match pc
    case Leased(_) => true
    case Signed(_, _) => true
    case _ => HasRow(book, pc.id, pc.tx)
  }

  /** No two live rows share a nonce. */
  predicate NoncesDistinct(book: Book) {
    forall a <- book, b <- book :: Live(book[a]) && Live(book[b]) && book[a].tx.nonce == book[b].tx.nonce ==> a == b
  }

  predicate Inv(w: World) {
    && (forall c <- w.callers :: CallOk(w.book, w.callers[c]))
    && (forall i :: 0 <= i < |w.sends| ==> HasRow(w.book, w.sends[i].id, w.sends[i].tx))
    && NoncesDistinct(w.book) && ChainOk(w.chain)
  }

  /** Rows keep their transaction, statuses only move forward, terminal rows never change. */
  predicate Grows(a: Book, b: Book) {
    forall id <- a :: id in b && b[id].tx == a[id].tx && Forward(a[id].status, b[id].status)
  }

  lemma BookGrows(w: World, book: Book)
    requires Inv(w) && Grows(w.book, book) && NoncesDistinct(book)
    ensures Inv(w.(book := book))
  {
    forall c <- w.callers ensures CallOk(book, w.callers[c]) {
      assert CallOk(w.book, w.callers[c]);
    }
    forall i | 0 <= i < |w.sends| ensures HasRow(book, w.sends[i].id, w.sends[i].tx) {
      assert HasRow(w.book, w.sends[i].id, w.sends[i].tx);
    }
  }

  lemma FinishKeeps(w: World, c: Caller)
    requires Inv(w) && c in w.callers
    ensures Inv(Finish(w, c)) && Inv(Leave(w, c))
  {
  }

  lemma GotoKeeps(w: World, c: Caller, pc: Pc)
    requires Inv(w) && CallOk(w.book, pc)
    ensures Inv(Goto(w, c, pc))
  {
  }

  lemma PersistKeeps(w: World, c: Caller, id: Id, tx: Tx)
    requires Inv(w) && Persist(w.book, id, tx).Some?
    ensures var book := Persist(w.book, id, tx).value;
            Grows(w.book, book) && HasRow(book, id, tx) && Inv(w.(book := book))
  {
    BookGrows(w, Persist(w.book, id, tx).value);
  }

  lemma TransitionKeeps(w: World, id: Id, from: Status, to: Status)
    requires Inv(w) && Transition(w.book, id, from, to).Some?
    requires from.PREPARED? || from.SUBMITTED?
    requires Forward(from, to)
    ensures var book := Transition(w.book, id, from, to).value; Grows(w.book, book) && Inv(w.(book := book))
  {
    BookGrows(w, Transition(w.book, id, from, to).value);
  }

  lemma SubmitKeeps(w: World, c: Caller, id: Id, tx: Tx, holding: bool)
    requires Inv(w) && c in w.callers && HasRow(w.book, id, tx)
    ensures Inv(Submit(w, c, id, tx, holding)) && Grows(w.book, Submit(w, c, id, tx, holding).book)
  {
    FinishKeeps(w, c);
    if Transition(w.book, id, PREPARED, SUBMITTED).Some? {
      TransitionKeeps(w, id, PREPARED, SUBMITTED);
      GotoKeeps(w.(book := Transition(w.book, id, PREPARED, SUBMITTED).value), c, Awaiting(id, tx, holding));
    }
  }

  lemma SettleKeeps(w: World, c: Caller, id: Id, to: Status)
    requires Inv(w) && c in w.callers && (to.CONFIRMED? || to.FAILED?)
    ensures Inv(Finish(w, c)) && Grows(w.book, w.book)
    ensures var moved := Transition(w.book, id, SUBMITTED, to);
            moved.Some? ==> Inv(Finish(w.(book := moved.value), c)) && Grows(w.book, moved.value)
  {
    FinishKeeps(w, c);
    var moved := Transition(w.book, id, SUBMITTED, to);
    if moved.Some? {
      TransitionKeeps(w, id, SUBMITTED, to);
      FinishKeeps(w.(book := moved.value), c);
    }
  }

  lemma ReceiptKeeps(w: World, c: Caller, receipt: Receipt)
    requires Inv(w) && c in w.callers && w.callers[c].Awaiting?
    ensures var t := Proceed(w, c, w.callers[c], EvReceipt(c, receipt)); Inv(t) && Grows(w.book, t.book)
  {
    SettleKeeps(w, c, w.callers[c].id, if receipt.success then CONFIRMED else FAILED);
  }

  lemma CommitKeeps(w: World, c: Caller, id: Id, tx: Tx)
    requires Inv(w) && c in w.callers && w.callers[c] == Signed(id, tx)
    ensures var t := Proceed(w, c, w.callers[c], EvCommit(c)); Inv(t) && Grows(w.book, t.book)
  {
    FinishKeeps(w, c);
    if Persist(w.book, id, tx).Some? {
      PersistKeeps(w, c, id, tx);
      GotoKeeps(w.(book := Persist(w.book, id, tx).value), c, Committed(id, tx));
    }
  }

  /** A send, an answer or a throw leaves the rows alone. */
  lemma AnswerKeeps(w: World, c: Caller, ev: Event)
    requires Inv(w) && c in w.callers && !ev.EvCommit? && !ev.EvSubmit? && !ev.EvReceipt?
    requires ev.EvObserve? ==> !w.callers[c].Observing?
    ensures Inv(Proceed(w, c, w.callers[c], ev)) && Proceed(w, c, w.callers[c], ev).book == w.book
  {
    assert CallOk(w.book, w.callers[c]);
    FinishKeeps(w, c);
  }

  lemma SubmitStepKeeps(w: World, c: Caller, ev: Event)
    requires Inv(w) && c in w.callers && (ev.EvSubmit? || (ev.EvObserve? && w.callers[c].Observing?))
    ensures var t := Proceed(w, c, w.callers[c], ev); Inv(t) && Grows(w.book, t.book)
  {
    var pc := w.callers[c];
    assert CallOk(w.book, pc);
    FinishKeeps(w, c);
    if pc.Accepted? || pc.Observing? {
      SubmitKeeps(w, c, pc.id, pc.tx, pc.Accepted?);
    }
  }

  lemma ProceedKeeps(w: World, c: Caller, ev: Event)
    requires Inv(w) && c in w.callers
    ensures var t := Proceed(w, c, w.callers[c], ev); Inv(t) && Grows(w.book, t.book)
  {
    var pc := w.callers[c];
    if ev.EvCommit? {
      if pc.Signed? { CommitKeeps(w, c, pc.id, pc.tx); }
    } else if ev.EvReceipt? {
      if pc.Awaiting? { ReceiptKeeps(w, c, ev.receipt); }
    } else if ev.EvSubmit? || (ev.EvObserve? && pc.Observing?) {
      SubmitStepKeeps(w, c, ev);
    } else {
      AnswerKeeps(w, c, ev);
    }
  }

  lemma StepKeeps(w: World, ev: Event)
    requires Inv(w)
    ensures Inv(Step(w, ev)) && Grows(w.book, Step(w, ev).book)
  {
    match ev
    case EvExecute(c, id) =>
    case EvRecover(c, id) =>
    case EvCrash(_) =>
    case EvTick(_) =>
    case EvMine(_) =>
    case _ => if ev.c in w.callers { ProceedKeeps(w, ev.c, ev); }
  }

  lemma {:induction false} RunKeeps(w: World, es: seq<Event>)
    requires Inv(w)
    ensures Inv(Run(w, es))
  {
    if es != [] {
      RunKeeps(w, es[..|es| - 1]);
      StepKeeps(Run(w, es[..|es| - 1]), es[|es| - 1]);
    }
  }

  // ---- results about all runs ----

  /** Every transaction ever sent is the one of its row, so two sends of one attempt are the
      same bytes, and no other live row uses its nonce. */
  lemma SendsAreJournaled(w: World, es: seq<Event>, i: nat)
    requires Initial(w) && i < |Run(w, es).sends|
    ensures var t := Run(w, es); HasRow(t.book, t.sends[i].id, t.sends[i].tx) && NoncesDistinct(t.book)
  {
    RunKeeps(w, es);
  }

  /** Only an execution that has just committed its row sends; a recovery never does. */
  lemma CommittedBeforeSend(w: World, ev: Event)
    requires Inv(w) && Step(w, ev).sends != w.sends
    ensures ev.EvSend? && ev.c in w.callers && w.callers[ev.c].Committed?
    ensures var pc := w.callers[ev.c];
            Step(w, ev).sends == w.sends + [Send(ev.c, pc.id, pc.tx)] && HasRow(w.book, pc.id, pc.tx)
  {
    if ev.EvSend? && ev.c in w.callers {
      assert CallOk(w.book, w.callers[ev.c]);
    }
  }

  /** Along any continuation no row is lost, and statuses only move forward. */
  lemma {:induction false} RowsOnlyMoveForward(w: World, es: seq<Event>)
    requires Inv(w)
    ensures Grows(w.book, Run(w, es).book)
  {
    if es != [] {
      var prior := Run(w, es[..|es| - 1]);
      RowsOnlyMoveForward(w, es[..|es| - 1]);
      RunKeeps(w, es[..|es| - 1]);
      StepKeeps(prior, es[|es| - 1]);
      forall id <- w.book ensures Forward(w.book[id].status, Run(w, es).book[id].status) {
        assert Forward(w.book[id].status, prior.book[id].status);
      }
    }
  }

  /** The mutex is released on every exit after it was taken, also by a throw; a crash leaves
      it to expire. */
  lemma ExitReleases(w: World, ev: Event, c: Caller)
    requires c in w.callers && Holding(w.callers[c]) && ev != EvCrash(c)
    requires c !in Step(w, ev).callers || !Holding(Step(w, ev).callers[c])
    ensures Step(w, ev).mutex.None?
  {
    match ev
    case EvCommit(_) =>
    case EvObserve(_, _) =>
    case EvSubmit(_) =>
    case EvReceipt(_, _) =>
    case EvThrow(_) =>
    case _ =>
  }

  // ---- when an attempt is sent at most once ----

  /** A commit finds its attempt already in the journal. */
  predicate Recommits(w: World, ev: Event) {
    ev.EvCommit? && ev.c in w.callers && w.callers[ev.c].Signed? && w.callers[ev.c].id in w.book
  }

  predicate WasSent(sends: seq<Send>, id: Id) {
    exists i | 0 <= i < |sends| :: sends[i].id == id
  }

  predicate DistinctSends(sends: seq<Send>) {
    forall i, k :: 0 <= i < k < |sends| ==> sends[i].id != sends[k].id
  }

  /** No attempt was sent twice, and nobody is about to send one that was. */
  predicate Once(w: World) {
    && DistinctSends(w.sends)
    && (forall c <- w.callers :: w.callers[c].Committed? ==> !WasSent(w.sends, w.callers[c].id))
    && (forall c <- w.callers, d <- w.callers ::
          c != d && w.callers[c].Committed? && w.callers[d].Committed? ==> w.callers[c].id != w.callers[d].id)
  }

  lemma SendOnce(w: World, c: Caller, accepted: bool)
    requires Once(w) && c in w.callers && w.callers[c].Committed?
    ensures Once(Step(w, EvSend(c, accepted)))
  {
    var pc, t := w.callers[c], Step(w, EvSend(c, accepted));
    forall i, k | 0 <= i < k < |t.sends| ensures t.sends[i].id != t.sends[k].id {
      if k == |w.sends| {
        assert w.sends[i].id != pc.id;
      }
    }
    forall d <- t.callers | t.callers[d].Committed? ensures !WasSent(t.sends, t.callers[d].id) {
      assert d != c && w.callers[d].Committed?;
      assert !WasSent(w.sends, w.callers[d].id);
      forall i | 0 <= i < |t.sends| ensures t.sends[i].id != t.callers[d].id {
        if i < |w.sends| {
          assert t.sends[i] == w.sends[i];
        }
      }
    }
  }

  lemma CommitOnce(w: World, c: Caller)
    requires Inv(w) && Once(w) && !Recommits(w, EvCommit(c))
    ensures Once(Step(w, EvCommit(c)))
  {
    if c in w.callers && w.callers[c].Signed? {
      var id := w.callers[c].id;
      forall i | 0 <= i < |w.sends| ensures w.sends[i].id != id {
        assert HasRow(w.book, w.sends[i].id, w.sends[i].tx);
      }
      forall d <- w.callers | w.callers[d].Committed? ensures w.callers[d].id != id {
        assert CallOk(w.book, w.callers[d]);
      }
    }
  }

  /** No other event sends, or brings a call to the point before its send. */
  lemma OthersCommitNothing(w: World, ev: Event)
    requires !ev.EvSend? && !ev.EvCommit?
    ensures var t := Step(w, ev);
            t.sends == w.sends && forall c <- t.callers :: t.callers[c].Committed? ==> c in w.callers && w.callers[c] == t.callers[c]
  {
    match ev
    case EvObserve(_, _) =>
    case EvSubmit(_) =>
    case EvReceipt(_, _) =>
    case _ =>
  }

  lemma OnceStays(w: World, t: World)
    requires Once(w) && t.sends == w.sends
    requires forall c <- t.callers :: t.callers[c].Committed? ==> c in w.callers && w.callers[c] == t.callers[c]
    ensures Once(t)
  {
  }

  lemma StepOnce(w: World, ev: Event)
    requires Inv(w) && Once(w) && !Recommits(w, ev)
    ensures Once(Step(w, ev))
  {
    if ev.EvSend? {
      if ev.c in w.callers && w.callers[ev.c].Committed? { SendOnce(w, ev.c, ev.accepted); }
    } else if ev.EvCommit? {
      CommitOnce(w, ev.c);
    } else {
      OthersCommitNothing(w, ev);
      OnceStays(w, Step(w, ev));
    }
  }

  /** In every run in which no commit finds its attempt already in the journal, each attempt
      is sent at most once. */
  lemma {:induction false} SentAtMostOnce(w: World, es: seq<Event>)
    requires Initial(w) && forall i :: 0 <= i < |es| ==> !Recommits(Run(w, es[..i]), es[i])
    ensures Inv(Run(w, es)) && Once(Run(w, es)) && DistinctSends(Run(w, es).sends)
  {
    if es != [] {
      var prior := es[..|es| - 1];
      forall i | 0 <= i < |prior| ensures !Recommits(Run(w, prior[..i]), prior[i]) {
        assert prior[..i] == es[..i];
      }
      SentAtMostOnce(w, prior);
      assert !Recommits(Run(w, prior), es[|es| - 1]);
      StepKeeps(Run(w, prior), es[|es| - 1]);
      StepOnce(Run(w, prior), es[|es| - 1]);
    }
  }

  // ---- an execution up to its send ----

  function UpToSend(c: Caller, id: Id, tx: Tx, accepted: bool): seq<Event> {
    [EvExecute(c, id)] + [EvSign(c, tx)] + [EvCommit(c)] + [EvSend(c, accepted)]
  }

  function AfterSend(w: World, c: Caller, id: Id, tx: Tx, accepted: bool): World {
    w.(mutex := Some(w.now + NONCE_MUTEX_TTL_MS), book := w.book[id := Row(PREPARED, tx)], sends := w.sends + [Send(c, id, tx)],
       callers := w.callers[c := if accepted then Accepted(id, tx) else Unanswered(id, tx)])
  }

  function AfterSign(w: World, c: Caller, id: Id, tx: Tx): World {
    w.(mutex := Some(w.now + NONCE_MUTEX_TTL_MS), callers := w.callers[c := Signed(id, tx)])
  }

  lemma Signs(w: World, c: Caller, id: Id, tx: Tx)
    requires c !in w.callers && (w.mutex.None? || w.mutex.value < w.now)
    ensures Step(Step(w, EvExecute(c, id)), EvSign(c, tx)) == AfterSign(w, c, id, tx)
  {
    var w1 := Goto(w.(mutex := Some(w.now + NONCE_MUTEX_TTL_MS)), c, Leased(id));
    assert Step(w, EvExecute(c, id)) == w1;
    assert w1.callers[c := Signed(id, tx)] == w.callers[c := Signed(id, tx)];
  }

  lemma Commits(w: World, c: Caller, id: Id, tx: Tx)
    requires c in w.callers && w.callers[c] == Signed(id, tx)
    requires Persist(w.book, id, tx) == Some(w.book[id := Row(PREPARED, tx)])
    ensures Step(w, EvCommit(c)) == Goto(w.(book := w.book[id := Row(PREPARED, tx)]), c, Committed(id, tx))
  {
  }

  lemma Sends(w: World, c: Caller, id: Id, tx: Tx, accepted: bool)
    requires c in w.callers && w.callers[c] == Committed(id, tx)
    ensures Step(w, EvSend(c, accepted))
            == Goto(w.(sends := w.sends + [Send(c, id, tx)]), c, if accepted then Accepted(id, tx) else Unanswered(id, tx))
  {
  }

  lemma CommitsAndSends(w: World, c: Caller, id: Id, tx: Tx, accepted: bool)
    requires Persist(w.book, id, tx) == Some(w.book[id := Row(PREPARED, tx)])
    ensures Step(Step(AfterSign(w, c, id, tx), EvCommit(c)), EvSend(c, accepted)) == AfterSend(w, c, id, tx, accepted)
  {
    var w2 := AfterSign(w, c, id, tx);
    Commits(w2, c, id, tx);
    var w3 := Goto(w2.(book := w.book[id := Row(PREPARED, tx)]), c, Committed(id, tx));
    Sends(w3, c, id, tx, accepted);
    var last := if accepted then Accepted(id, tx) else Unanswered(id, tx);
    assert w3.callers[c := last] == w.callers[c := last];
  }

  lemma SendRuns(w: World, c: Caller, id: Id, tx: Tx, accepted: bool)
    requires c !in w.callers && (w.mutex.None? || w.mutex.value < w.now)
    requires Persist(w.book, id, tx) == Some(w.book[id := Row(PREPARED, tx)])
    ensures Run(w, UpToSend(c, id, tx, accepted)) == AfterSend(w, c, id, tx, accepted)
  {
    RunFour(w, EvExecute(c, id), EvSign(c, tx), EvCommit(c), EvSend(c, accepted));
    Signs(w, c, id, tx);
    CommitsAndSends(w, c, id, tx, accepted);
  }

  lemma RunFour(w: World, a: Event, b: Event, c: Event, d: Event)
    ensures Run(w, [a] + [b] + [c] + [d]) == Step(Step(Step(Step(w, a), b), c), d)
  {
    RunConcat(w, [a] + [b] + [c], [d]);
    RunConcat(w, [a] + [b], [c]);
    RunConcat(w, [a], [b]);
    RunOne(w, a);
    RunOne(Run(w, [a]), b);
    RunOne(Run(w, [a] + [b]), c);
    RunOne(Run(w, [a] + [b] + [c]), d);
  }

  /** The other direction, from every state a run can reach: a row that is still PREPARED lets
      a further execution that signs the same bytes send them once more. */
  lemma PreparedRowSendsAgain(w: World, c: Caller, id: Id, tx: Tx, accepted: bool)
    requires Inv(w) && c !in w.callers && id in w.book && w.book[id] == Row(PREPARED, tx)
    requires w.mutex.None? || w.mutex.value < w.now
    ensures var t := Run(w, UpToSend(c, id, tx, accepted));
            t.sends == w.sends + [Send(c, id, tx)] && t.book == w.book
            && (WasSent(w.sends, id) ==> !DistinctSends(t.sends))
  {
    assert w.book[id := Row(PREPARED, tx)] == w.book;
    SendRuns(w, c, id, tx, accepted);
    if i :| 0 <= i < |w.sends| && w.sends[i].id == id {
      assert (w.sends + [Send(c, id, tx)])[i].id == (w.sends + [Send(c, id, tx)])[|w.sends|].id;
    }
  }

  /** And in no other state: a commit whose send would be a repeat succeeds exactly while the
      row is still PREPARED with the same bytes. */
  lemma RepeatIsAcceptedIff(w: World, c: Caller)
    requires Inv(w) && c in w.callers && w.callers[c].Signed? && WasSent(w.sends, w.callers[c].id)
    ensures var pc := w.callers[c]; var t := Step(w, EvCommit(c));
            pc.id in w.book && Recommits(w, EvCommit(c))
            && ((c in t.callers && t.callers[c].Committed?) <==> w.book[pc.id] == Row(PREPARED, pc.tx))
  {
    var id := w.callers[c].id;
    var i :| 0 <= i < |w.sends| && w.sends[i].id == id;
    assert HasRow(w.book, w.sends[i].id, w.sends[i].tx);
  }

  // ---- terminal rows tell the truth ----

  /** A receipt that a call acts on is the one on chain. */
  predicate Truthful(w: World, ev: Event) {
    ev.EvReceipt? ==> Mined(w.chain, ev.receipt.tx) && w.chain.mined[ev.receipt.tx.nonce].success == ev.receipt.success
  }

  predicate TruthfulRun(w: World, es: seq<Event>) {
    forall i :: 0 <= i < |es| ==> Truthful(Run(w, es[..i]), es[i])
  }

  predicate RowTrue(chain: Chain, row: Row) {
    (row.status.CONFIRMED? ==> Succeeded(chain, row.tx))
    && (row.status.FAILED? ==> Mined(chain, row.tx) && !chain.mined[row.tx.nonce].success)
  }

  predicate TerminalsTrue(w: World) {
    forall id <- w.book :: RowTrue(w.chain, w.book[id])
  }

  lemma ReceiptTrue(w: World, c: Caller, receipt: Receipt)
    requires Inv(w) && TerminalsTrue(w) && c in w.callers && w.callers[c].Awaiting? && Truthful(w, EvReceipt(c, receipt))
    ensures TerminalsTrue(Proceed(w, c, w.callers[c], EvReceipt(c, receipt)))
  {
    assert CallOk(w.book, w.callers[c]);
  }

  lemma StepTrue(w: World, ev: Event)
    requires Inv(w) && TerminalsTrue(w) && Truthful(w, ev)
    ensures TerminalsTrue(Step(w, ev))
  {
    match ev
    case EvReceipt(c, receipt) => if c in w.callers && w.callers[c].Awaiting? { ReceiptTrue(w, c, receipt); }
    case EvMine(receipt) => MineTrue(w, receipt);
    case EvCommit(_) =>
    case EvSubmit(_) =>
    case EvObserve(_, _) =>
    case _ =>
  }

  lemma MineTrue(w: World, receipt: Receipt)
    requires TerminalsTrue(w)
    ensures TerminalsTrue(Step(w, EvMine(receipt)))
  {
    forall id <- w.book ensures RowTrue(Step(w, EvMine(receipt)).chain, w.book[id]) {
      assert RowTrue(w.chain, w.book[id]);
    }
  }

  /** With receipts read from the chain, every terminal row is final in every reachable
      state: a confirmed transaction succeeded, and a failed one reverted, which consumed its
      nonce. */
  lemma {:induction false} TerminalRowsAreTrue(w: World, es: seq<Event>)
    requires Initial(w) && TruthfulRun(w, es)
    ensures Inv(Run(w, es)) && TerminalsTrue(Run(w, es))
  {
    RunKeeps(w, es);
    if es != [] {
      TruthfulPrefix(w, es);
      TerminalRowsAreTrue(w, es[..|es| - 1]);
      StepTrue(Run(w, es[..|es| - 1]), es[|es| - 1]);
    }
  }

  lemma TruthfulPrefix(w: World, es: seq<Event>)
    requires es != [] && TruthfulRun(w, es)
    ensures TruthfulRun(w, es[..|es| - 1]) && Truthful(Run(w, es[..|es| - 1]), es[|es| - 1])
  {
    var prior := es[..|es| - 1];
    forall i | 0 <= i < |prior| ensures Truthful(Run(w, prior[..i]), prior[i]) {
      assert prior[..i] == es[..i];
    }
  }

  // ---- one success per stage ----

  /** A new attempt is journaled while another one of its stage has not failed. */
  predicate Overlaps(w: World, ev: Event) {
    ev.EvCommit? && ev.c in w.callers && w.callers[ev.c].Signed? && w.callers[ev.c].id !in w.book
    && Persist(w.book, w.callers[ev.c].id, w.callers[ev.c].tx).Some?
    && exists id <- w.book :: id.key == w.callers[ev.c].id.key && Live(w.book[id])
  }

  predicate OneLive(book: Book) {
    forall a <- book, b <- book :: a.key == b.key && Live(book[a]) && Live(book[b]) ==> a == b
  }

  lemma {:induction false} OneLiveAttempt(w: World, es: seq<Event>)
    requires Initial(w) && forall i :: 0 <= i < |es| ==> !Overlaps(Run(w, es[..i]), es[i])
    ensures OneLive(Run(w, es).book)
  {
    if es != [] {
      var prior := es[..|es| - 1];
      forall i | 0 <= i < |prior| ensures !Overlaps(Run(w, prior[..i]), prior[i]) {
        assert prior[..i] == es[..i];
      }
      OneLiveAttempt(w, prior);
      RunKeeps(w, prior);
      assert !Overlaps(Run(w, prior), es[|es| - 1]);
      StepOneLive(Run(w, prior), es[|es| - 1]);
    }
  }

  /** Exactly an overlapping commit gives a stage two live attempts. */
  lemma StepOneLiveIff(w: World, ev: Event)
    requires Inv(w) && OneLive(w.book)
    ensures OneLive(Step(w, ev).book) <==> !Overlaps(w, ev)
  {
    if Overlaps(w, ev) {
      OverlapBreaks(w, ev);
    } else {
      StepOneLive(w, ev);
    }
  }

  lemma OverlapBreaks(w: World, ev: Event)
    requires Overlaps(w, ev)
    ensures !OneLive(Step(w, ev).book)
  {
    var pc := w.callers[ev.c];
    var id :| id in w.book && id.key == pc.id.key && Live(w.book[id]);
    var book := Step(w, ev).book;
    assert book == w.book[pc.id := Row(PREPARED, pc.tx)];
    assert id in book && pc.id in book && Live(book[id]) && Live(book[pc.id]);
  }

  lemma StepOneLive(w: World, ev: Event)
    requires Inv(w) && OneLive(w.book) && !Overlaps(w, ev)
    ensures OneLive(Step(w, ev).book)
  {
    StepKeeps(w, ev);
    OnlyCommitInserts(w, ev);
    var t := Step(w, ev);
    forall a <- t.book, b <- t.book | a.key == b.key && Live(t.book[a]) && Live(t.book[b]) ensures a == b {
      if a in w.book && b in w.book {
        assert Live(w.book[a]) && Live(w.book[b]);
      }
    }
  }

  lemma OnlyCommitInserts(w: World, ev: Event)
    ensures var t := Step(w, ev);
            t.book.Keys <= w.book.Keys
            || (ev.EvCommit? && ev.c in w.callers && w.callers[ev.c].Signed?
                && w.callers[ev.c].id !in w.book && t.book.Keys == w.book.Keys + {w.callers[ev.c].id})
  {
    match ev
    case EvCommit(_) =>
    case EvObserve(_, _) =>
    case EvSubmit(_) =>
    case EvReceipt(_, _) =>
    case _ =>
  }

  /** The executor does not order attempts itself. When its callers open an attempt only after
      the others of the stage failed, each stage succeeds on chain at most once. */
  lemma StageSucceedsAtMostOnce(w: World, es: seq<Event>, a: Id, b: Id)
    requires Initial(w) && TruthfulRun(w, es)
    requires forall i :: 0 <= i < |es| ==> !Overlaps(Run(w, es[..i]), es[i])
    requires var t := Run(w, es);
             a in t.book && b in t.book && a.key == b.key && Succeeded(t.chain, t.book[a].tx) && Succeeded(t.chain, t.book[b].tx)
    ensures a == b
  {
    var t := Run(w, es);
    TerminalRowsAreTrue(w, es);
    OneLiveAttempt(w, es);
    assert RowTrue(t.chain, t.book[a]) && RowTrue(t.chain, t.book[b]);
  }

  // ---- runs in which the guarantees stop ----

  lemma {:induction false} RunConcat(w: World, a: seq<Event>, b: seq<Event>)
    ensures Run(w, a + b) == Run(Run(w, a), b)
  {
    if b == [] {
      assert a + b == a;
    } else {
      assert (a + b)[..|a + b| - 1] == a + b[..|b| - 1];
      RunConcat(w, a, b[..|b| - 1]);
    }
  }

  lemma RunOne(w: World, ev: Event)
    ensures Run(w, [ev]) == Step(w, ev)
  {
    assert [ev][..0] == [];
  }

  /** An execution up to its send, and the throw after it that leaves the row PREPARED. */
  function Attempted(w: World, c: Caller, id: Id, tx: Tx): World {
    w.(mutex := None, book := w.book[id := Row(PREPARED, tx)], sends := w.sends + [Send(c, id, tx)])
  }

  function Attempting(c: Caller, id: Id, tx: Tx): seq<Event> {
    UpToSend(c, id, tx, false) + [EvObserve(c, false)]
  }

  lemma AttemptRuns(w: World, c: Caller, id: Id, tx: Tx)
    requires c !in w.callers && w.mutex.None?
    requires Persist(w.book, id, tx) == Some(w.book[id := Row(PREPARED, tx)])
    ensures Run(w, Attempting(c, id, tx)) == Attempted(w, c, id, tx)
  {
    SendRuns(w, c, id, tx, false);
    RunConcat(w, UpToSend(c, id, tx, false), [EvObserve(c, false)]);
    var t := AfterSend(w, c, id, tx, false);
    RunOne(t, EvObserve(c, false));
    LooksUp(t, c, id, tx, false);
    assert t.callers - {c} == w.callers;
  }

  lemma AttemptIsTruthful(w: World, es: seq<Event>, c: Caller, id: Id, tx: Tx)
    requires TruthfulRun(w, es)
    ensures TruthfulRun(w, es + Attempting(c, id, tx))
  {
    var all, more := es + Attempting(c, id, tx), Attempting(c, id, tx);
    assert forall i :: 0 <= i < |more| ==> !more[i].EvReceipt?;
    forall i | 0 <= i < |all| ensures Truthful(Run(w, all[..i]), all[i]) {
      if i < |es| {
        assert all[..i] == es[..i];
      } else {
        assert all[i] == more[i - |es|];
      }
    }
  }

  lemma AttemptRunsTwice(w: World, id: Id, tx: Tx)
    requires Initial(w)
    ensures Run(w, Attempting(0, id, tx) + Attempting(1, id, tx)).sends == [Send(0, id, tx), Send(1, id, tx)]
  {
    var t := Attempted(w, 0, id, tx);
    RunConcat(w, Attempting(0, id, tx), Attempting(1, id, tx));
    AttemptRuns(w, 0, id, tx);
    assert t.book == t.book[id := Row(PREPARED, tx)];
    AttemptRuns(t, 1, id, tx);
  }

  /** A send that was neither answered nor observed leaves a PREPARED row, and a second
      execution that signs the same bytes sends them again. */
  lemma LostAnswerSendsTwice(w: World, id: Id, tx: Tx) returns (es: seq<Event>)
    requires Initial(w)
    ensures TruthfulRun(w, es) && Run(w, es).sends == [Send(0, id, tx), Send(1, id, tx)]
  {
    var once, twice := Attempting(0, id, tx), Attempting(1, id, tx);
    es := once + twice;
    assert TruthfulRun(w, once) by {
      AttemptIsTruthful(w, [], 0, id, tx);
      assert [] + once == once;
    }
    AttemptIsTruthful(w, once, 1, id, tx);
    AttemptRunsTwice(w, id, tx);
  }

  /** The transaction that is mined at a nonce when both are to succeed. */
  function Wanted(a: Tx, b: Tx, nonce: nat): Tx {
    if nonce == a.nonce then a else if nonce == b.nonce then b else Tx(nonce, 0)
  }

  lemma {:induction false} MineUpTo(w: World, a: Tx, b: Tx, upTo: nat) returns (es: seq<Event>)
    requires ChainOk(w.chain) && |w.chain.mined| <= upTo
    ensures TruthfulRun(w, es)
    ensures var t := Run(w, es);
            t.book == w.book && ChainOk(t.chain) && |t.chain.mined| == upTo && w.chain.mined <= t.chain.mined
            && forall n :: |w.chain.mined| <= n < upTo ==> t.chain.mined[n].tx == Wanted(a, b, n) && t.chain.mined[n].success
    decreases upTo - |w.chain.mined|
  {
    if |w.chain.mined| == upTo {
      es := [];
    } else {
      var receipt := Receipt(Wanted(a, b, |w.chain.mined|), true, 0, 0, 0);
      var w1 := Step(w, EvMine(receipt));
      assert w1.chain.mined == w.chain.mined + [receipt];
      var rest := MineUpTo(w1, a, b, upTo);
      es := [EvMine(receipt)] + rest;
      RunConcat(w, [EvMine(receipt)], rest);
      RunOne(w, EvMine(receipt));
      MinesFirst(w, receipt, rest);
    }
  }

  lemma MinesFirst(w: World, receipt: Receipt, rest: seq<Event>)
    requires TruthfulRun(Step(w, EvMine(receipt)), rest)
    ensures TruthfulRun(w, [EvMine(receipt)] + rest)
  {
    var es, w1 := [EvMine(receipt)] + rest, Step(w, EvMine(receipt));
    forall i | 0 <= i < |es| ensures Truthful(Run(w, es[..i]), es[i]) {
      if i > 0 {
        assert es[..i] == [EvMine(receipt)] + rest[..i - 1];
        RunConcat(w, [EvMine(receipt)], rest[..i - 1]);
        RunOne(w, EvMine(receipt));
        assert Truthful(Run(w1, rest[..i - 1]), rest[i - 1]);
      }
    }
  }

  /** From every reachable state with two open attempts of one stage that are not mined yet,
      both can still succeed. */
  lemma OpenAttemptsCanBothSucceed(w: World, a: Id, b: Id) returns (es: seq<Event>)
    requires Inv(w) && a in w.book && b in w.book && a != b && Live(w.book[a]) && Live(w.book[b])
    requires w.book[a].tx.nonce >= |w.chain.mined| && w.book[b].tx.nonce >= |w.chain.mined|
    ensures TruthfulRun(w, es)
    ensures var t := Run(w, es); t.book == w.book && Succeeded(t.chain, w.book[a].tx) && Succeeded(t.chain, w.book[b].tx)
  {
    es := MineUpTo(w, w.book[a].tx, w.book[b].tx, Max(w.book[a].tx.nonce, w.book[b].tx.nonce) + 1);
  }

  function BothAttempts(key: Key): seq<Event> {
    Attempting(0, Id(key, 0), Tx(0, 0)) + Attempting(1, Id(key, 1), Tx(1, 1))
  }

  lemma BothAreSent(w: World, key: Key)
    requires Initial(w)
    ensures TruthfulRun(w, BothAttempts(key))
    ensures var t := Run(w, BothAttempts(key));
            t.book == map[Id(key, 0) := Row(PREPARED, Tx(0, 0)), Id(key, 1) := Row(PREPARED, Tx(1, 1))] && t.chain == w.chain
  {
    var first := Attempting(0, Id(key, 0), Tx(0, 0));
    AttemptIsTruthful(w, [], 0, Id(key, 0), Tx(0, 0));
    assert [] + first == first;
    AttemptIsTruthful(w, first, 1, Id(key, 1), Tx(1, 1));
    RunConcat(w, first, Attempting(1, Id(key, 1), Tx(1, 1)));
    var book := map[Id(key, 0) := Row(PREPARED, Tx(0, 0))];
    assert Persist(map[], Id(key, 0), Tx(0, 0)) == Some(map[][Id(key, 0) := Row(PREPARED, Tx(0, 0))]);
    AttemptRuns(w, 0, Id(key, 0), Tx(0, 0));
    SecondIsFree(book, key);
    assert Attempted(w, 0, Id(key, 0), Tx(0, 0)).book == book;
    AttemptRuns(Attempted(w, 0, Id(key, 0), Tx(0, 0)), 1, Id(key, 1), Tx(1, 1));
  }

  lemma SecondIsFree(book: Book, key: Key)
    requires book == map[Id(key, 0) := Row(PREPARED, Tx(0, 0))]
    ensures Persist(book, Id(key, 1), Tx(1, 1)) == Some(book[Id(key, 1) := Row(PREPARED, Tx(1, 1))])
  {
  }

  lemma BothAreMined(w: World)
    requires w.chain == Chain([], {})
    ensures var t := Step(Step(w, EvMine(Receipt(Tx(0, 0), true, 0, 0, 0))), EvMine(Receipt(Tx(1, 1), true, 0, 0, 0)));
            t.book == w.book && Succeeded(t.chain, Tx(0, 0)) && Succeeded(t.chain, Tx(1, 1))
  {
  }

  /** Two attempts of one stage that are both open are both sent, and both can succeed. */
  lemma OverlapSucceedsTwice(w: World, key: Key) returns (es: seq<Event>)
    requires Initial(w)
    ensures TruthfulRun(w, es)
    ensures var t := Run(w, es);
            Id(key, 0) in t.book && Id(key, 1) in t.book
            && Succeeded(t.chain, t.book[Id(key, 0)].tx) && Succeeded(t.chain, t.book[Id(key, 1)].tx)
  {
    var ea, eb := EvMine(Receipt(Tx(0, 0), true, 0, 0, 0)), EvMine(Receipt(Tx(1, 1), true, 0, 0, 0));
    var both := BothAttempts(key);
    es := both + [ea] + [eb];
    BothAreSent(w, key);
    forall i | 0 <= i < |es| ensures Truthful(Run(w, es[..i]), es[i]) {
      if i < |both| {
        assert es[..i] == both[..i];
      }
    }
    var t := Run(w, both);
    RunConcat(w, both + [ea], [eb]);
    RunConcat(w, both, [ea]);
    RunOne(t, ea);
    RunOne(Step(t, ea), eb);
    BothAreMined(t);
  }

  // ---- the steps of a call, one by one ----

  lemma LooksUp(w: World, c: Caller, id: Id, tx: Tx, seen: bool)
    requires c in w.callers && w.callers[c] == Unanswered(id, tx)
    ensures Step(w, EvObserve(c, seen)) == if seen then Goto(w, c, Accepted(id, tx)) else Leave(w.(mutex := None), c)
  {
  }

  lemma Submits(w: World, c: Caller, id: Id, tx: Tx)
    requires c in w.callers && w.callers[c] == Accepted(id, tx) && id in w.book && w.book[id] == Row(PREPARED, tx)
    ensures Step(w, EvSubmit(c)) == Goto(w.(book := w.book[id := Row(SUBMITTED, tx)]), c, Awaiting(id, tx, true))
  {
  }

  lemma Loads(w: World, c: Caller, id: Id)
    requires c !in w.callers && id in w.book && Unresolved(w.book[id])
    ensures Step(w, EvRecover(c, id)) == Goto(w, c, Observing(id, w.book[id].tx, w.book[id].status))
  {
  }

  lemma Observes(w: World, c: Caller, id: Id, row: Row, found: bool)
    requires c in w.callers && w.callers[c] == Observing(id, row.tx, row.status) && id in w.book && w.book[id] == row && Unresolved(row)
    ensures Step(w, EvObserve(c, found))
            == if found then Goto(w.(book := w.book[id := Row(SUBMITTED, row.tx)]), c, Awaiting(id, row.tx, false)) else Leave(w, c)
  {
    if row.status.SUBMITTED? {
      assert w.book[id := row] == w.book;
    }
  }

  // ---- one uninterrupted call ----

  datatype Outcome = MUTEX_HELD | THREW | CONFIRMED_SUCCESS | CONFIRMED_REVERT | ALREADY_CONFIRMED | ALREADY_FAILED | PREPARED_NOT_BROADCAST

  /** The request is signed, and its row can be inserted or is PREPARED with the same bytes:
      no other row holds the transaction, and no other live row its nonce. */
  predicate Inserts(book: Book, id: Id, request: Option<Tx>) {
    request.Some?
    && if id in book then book[id] == Row(PREPARED, request.value)
       else forall other <- book :: book[other].tx != request.value && (Live(book[other]) ==> book[other].tx.nonce != request.value.nonce)
  }

  lemma InsertsIff(book: Book, id: Id, tx: Tx)
    ensures Inserts(book, id, Some(tx)) <==> Persist(book, id, tx).Some?
    ensures Inserts(book, id, Some(tx)) ==> Persist(book, id, tx) == Some(book[id := Row(PREPARED, tx)])
  {
    if id in book && book[id] == Row(PREPARED, tx) {
      assert book[id := Row(PREPARED, tx)] == book;
    }
  }

  /** Where the row of a sent transaction stands when its execution ends: PREPARED when nobody
      has seen it, SUBMITTED when its receipt did not arrive, and otherwise as the receipt says. */
  function StatusAfter(tx: Tx, seen: bool, receipt: Option<Receipt>): Status {
    if !seen then PREPARED
    else if receipt.None? || receipt.value.tx != tx then SUBMITTED
    else if receipt.value.success then CONFIRMED else FAILED
  }

  /** An execution whose row was inserted: what it answers and what it leaves in its row. */
  predicate ExecutedRight(book: Book, id: Id, tx: Tx, seen: bool, receipt: Option<Receipt>, r: Outcome, after: Book) {
    var status := StatusAfter(tx, seen, receipt);
    && after == book[id := Row(status, tx)]
    && (r.CONFIRMED_SUCCESS? <==> status.CONFIRMED?) && (r.CONFIRMED_REVERT? <==> status.FAILED?)
    && (r.CONFIRMED_SUCCESS? || r.CONFIRMED_REVERT? || r.THREW?)
  }

  lemma ConcludedRight(book: Book, id: Id, tx: Tx, receipt: Option<Receipt>, r: Outcome, after: Book)
    requires r.CONFIRMED_SUCCESS? || r.CONFIRMED_REVERT? || (r.THREW? && after == book[id := Row(SUBMITTED, tx)])
    requires !r.THREW? <==> receipt.Some? && receipt.value.tx == tx
    requires !r.THREW? ==> after == book[id := Row(SUBMITTED, tx)][id := Row(if receipt.value.success then CONFIRMED else FAILED, tx)]
                           && (r.CONFIRMED_SUCCESS? <==> receipt.value.success)
    ensures ExecutedRight(book, id, tx, true, receipt, r, after)
  {
  }

  /** An execution gets the lease of the wallet exactly when none is stored that still runs, for
      five minutes; a recovery takes up exactly an open row. */
  lemma EntersIff(w: World, c: Caller, id: Id)
    requires c !in w.callers
    ensures var e := Step(w, EvExecute(c, id)); var r := Step(w, EvRecover(c, id));
            && (if w.mutex.Some? && w.mutex.value >= w.now then e == w
                else e == w.(mutex := Some(w.now + 300_000), callers := w.callers[c := Leased(id)]))
            && (if id in w.book && (w.book[id].status.PREPARED? || w.book[id].status.SUBMITTED?)
                then r == w.(callers := w.callers[c := Observing(id, w.book[id].tx, w.book[id].status)]) else r == w)
  {
  }

  class Executor {
    var book: Book
    var mutex: Option<int>
    var now: int
    var sends: seq<Send>
    ghost var world: World

    ghost predicate Valid()
      reads this
    {
      world.book == book && world.mutex == mutex && world.now == now && world.sends == sends
    }

    constructor (now: int)
      ensures Valid() && Initial(world)
    {
      this.now := now;
      book, mutex, sends := map[], None, [];
      world := World(map[], None, now, map[], [], Chain([], {}));
    }

    /** `executeGuardedV3Transaction` once its checks have passed. `request` is the signed
        transaction, None when the signer or the envelope check throws; `accepted` and
        `observed` answer the broadcast and the look-up after it; `receipt` is None when
        waiting for it throws. */
    method Execute(c: Caller, id: Id, request: Option<Tx>, accepted: bool, observed: bool, receipt: Option<Receipt>)
      returns (r: Outcome, ghost trace: seq<Event>)
      requires Valid() && c !in world.callers
      modifies this
      ensures Valid() && world == Run(old(world), trace) && world.callers == old(world.callers)
      ensures r.MUTEX_HELD? <==> old(mutex.Some? && mutex.value >= now)
      ensures mutex == if r.MUTEX_HELD? then old(mutex) else None
      ensures if r.MUTEX_HELD? || !Inserts(old(book), id, request)
              then (r.MUTEX_HELD? || r.THREW?) && sends == old(sends) && book == old(book)
              else ExecutedRight(old(book), id, request.value, accepted || observed, receipt, r, book)
                   && sends == old(sends) + [Send(c, id, request.value)]
    {
      ghost var start := world;
      trace := [];
      if mutex.Some? && mutex.value >= now { return MUTEX_HELD, trace; }
      mutex := Some(now + NONCE_MUTEX_TTL_MS);
      trace := Record(start, trace, EvExecute(c, id));
      var waiting;
      waiting, trace := Broadcast(start, trace, c, id, request, accepted, observed);
      if !waiting {
        assert world.callers == start.callers;
        return THREW, trace;
      }
      r, trace := Conclude(start, trace, c, id, request.value, true, receipt);
      ConcludedRight(start.book, id, request.value, receipt, r, book);
    }

    /** Sign, commit, send, and the SUBMITTED update; `waiting` when the call goes on to wait
        for its receipt, otherwise it threw. */
    method Broadcast(ghost start: World, ghost trace: seq<Event>, c: Caller, id: Id, request: Option<Tx>, accepted: bool, observed: bool)
      returns (waiting: bool, ghost longer: seq<Event>)
      requires Valid() && c in world.callers && world.callers[c] == Leased(id) && world == Run(start, trace)
      modifies this
      ensures Valid() && world == Run(start, longer)
      ensures !waiting ==> mutex.None? && world.callers == old(world.callers) - {c}
      ensures waiting ==> request.Some? && world.callers == old(world.callers)[c := Awaiting(id, request.value, true)]
      ensures waiting <==> Inserts(old(book), id, request) && (accepted || observed)
      ensures Inserts(old(book), id, request) ==>
                sends == old(sends) + [Send(c, id, request.value)]
                && book == old(book)[id := Row(if waiting then SUBMITTED else PREPARED, request.value)]
      ensures !Inserts(old(book), id, request) ==> sends == old(sends) && book == old(book)
    {
      waiting, longer := CommitRow(start, trace, c, id, request);
      if !waiting { return; }
      ghost var between := world.callers;
      waiting, longer := SendRow(start, longer, c, id, request.value, accepted || observed, accepted);
      assert between[c := Awaiting(id, request.value, true)] == old(world.callers)[c := Awaiting(id, request.value, true)];
    }

    method CommitRow(ghost start: World, ghost trace: seq<Event>, c: Caller, id: Id, request: Option<Tx>)
      returns (committed: bool, ghost longer: seq<Event>)
      requires Valid() && c in world.callers && world.callers[c] == Leased(id) && world == Run(start, trace)
      modifies this`book, this`mutex, this`world
      ensures Valid() && world == Run(start, longer)
      ensures committed <==> Inserts(old(book), id, request)
      ensures committed ==> book == old(book)[id := Row(PREPARED, request.value)]
                            && world.callers == old(world.callers)[c := Committed(id, request.value)]
      ensures !committed ==> mutex.None? && book == old(book) && world.callers == old(world.callers) - {c}
    {
      longer := trace;
      if request.None? {
        mutex := None;
        longer := Record(start, longer, EvThrow(c));
        return false, longer;
      }
      InsertsIff(book, id, request.value);
      longer := Record(start, longer, EvSign(c, request.value));
      var inserted := Persist(book, id, request.value);
      committed := inserted.Some?;
      if committed {
        book := inserted.value;
      } else {
        mutex := None;
      }
      longer := Record(start, longer, EvCommit(c));
    }

    /** `seen` says that the broadcast was accepted or its exact hash observed after it. */
    method SendRow(ghost start: World, ghost trace: seq<Event>, c: Caller, id: Id, tx: Tx, seen: bool, accepted: bool)
      returns (waiting: bool, ghost longer: seq<Event>)
      requires Valid() && c in world.callers && world.callers[c] == Committed(id, tx) && world == Run(start, trace)
      requires id in book && book[id] == Row(PREPARED, tx) && (accepted ==> seen)
      modifies this
      ensures Valid() && world == Run(start, longer) && sends == old(sends) + [Send(c, id, tx)]
      ensures waiting == seen
      ensures waiting ==> world.callers == old(world.callers)[c := Awaiting(id, tx, true)] && book == old(book)[id := Row(SUBMITTED, tx)]
      ensures !waiting ==> mutex.None? && book == old(book) && world.callers == old(world.callers) - {c}
    {
      longer := SendOne(start, trace, c, id, tx, accepted);
      if !accepted { longer := LookUp(start, longer, c, id, tx, seen); }
      waiting := seen;
      if seen {
        longer := SubmitRow(start, longer, c, id, tx);
        assert world.callers == old(world.callers)[c := Awaiting(id, tx, true)];
      } else {
        assert world.callers == old(world.callers) - {c};
      }
    }

    method SendOne(ghost start: World, ghost trace: seq<Event>, c: Caller, id: Id, tx: Tx, accepted: bool) returns (ghost longer: seq<Event>)
      requires Valid() && c in world.callers && world.callers[c] == Committed(id, tx) && world == Run(start, trace)
      modifies this`sends, this`world
      ensures Valid() && world == Run(start, longer) && sends == old(sends) + [Send(c, id, tx)]
      ensures world.callers == old(world.callers)[c := if accepted then Accepted(id, tx) else Unanswered(id, tx)]
    {
      Sends(world, c, id, tx, accepted);
      sends := sends + [Send(c, id, tx)];
      longer := Record(start, trace, EvSend(c, accepted));
    }

    method LookUp(ghost start: World, ghost trace: seq<Event>, c: Caller, id: Id, tx: Tx, seen: bool) returns (ghost longer: seq<Event>)
      requires Valid() && c in world.callers && world.callers[c] == Unanswered(id, tx) && world == Run(start, trace)
      modifies this`mutex, this`world
      ensures Valid() && world == Run(start, longer) && mutex == if seen then old(mutex) else None
      ensures world.callers == if seen then old(world.callers)[c := Accepted(id, tx)] else old(world.callers) - {c}
    {
      LooksUp(world, c, id, tx, seen);
      if !seen { mutex := None; }
      longer := Record(start, trace, EvObserve(c, seen));
    }

    method SubmitRow(ghost start: World, ghost trace: seq<Event>, c: Caller, id: Id, tx: Tx) returns (ghost longer: seq<Event>)
      requires Valid() && c in world.callers && world.callers[c] == Accepted(id, tx) && world == Run(start, trace)
      requires id in book && book[id] == Row(PREPARED, tx)
      modifies this`book, this`world
      ensures Valid() && world == Run(start, longer) && book == old(book)[id := Row(SUBMITTED, tx)]
      ensures world.callers == old(world.callers)[c := Awaiting(id, tx, true)]
    {
      Submits(world, c, id, tx);
      book := book[id := Row(SUBMITTED, tx)];
      longer := Record(start, trace, EvSubmit(c));
    }

    /** The receipt and the terminal update. */
    method Conclude(ghost start: World, ghost trace: seq<Event>, c: Caller, id: Id, tx: Tx, holding: bool, receipt: Option<Receipt>)
      returns (r: Outcome, ghost longer: seq<Event>)
      requires Valid() && c in world.callers && world.callers[c] == Awaiting(id, tx, holding) && world == Run(start, trace)
      modifies this`book, this`mutex, this`world
      ensures Valid() && world == Run(start, longer) && world.callers == old(world.callers) - {c}
      ensures mutex == if holding then None else old(mutex)
      ensures r.CONFIRMED_SUCCESS? || r.CONFIRMED_REVERT? || (r.THREW? && book == old(book))
      ensures !r.THREW? <==> receipt.Some? && receipt.value.tx == tx && id in old(book) && old(book)[id].status.SUBMITTED?
      ensures !r.THREW? ==> book == old(book)[id := Row(if receipt.value.success then CONFIRMED else FAILED, old(book)[id].tx)]
                            && (r.CONFIRMED_SUCCESS? <==> receipt.value.success)
    {
      longer := trace;
      if holding { mutex := None; }
      if receipt.None? || receipt.value.tx != tx {
        longer := Record(start, longer, EvThrow(c));
        return THREW, longer;
      }
      var moved := Transition(book, id, SUBMITTED, if receipt.value.success then CONFIRMED else FAILED);
      if moved.Some? { book := moved.value; }
      longer := Record(start, longer, EvReceipt(c, receipt.value));
      r := if moved.None? then THREW else if receipt.value.success then CONFIRMED_SUCCESS else CONFIRMED_REVERT;
    }

    /** `recoverGuardedV3Transaction`: it never sends and never touches the mutex. A receipt
        settles the row it was asked for; anything else leaves it unresolved. */
    method RecoverRow(c: Caller, id: Id, found: bool, receipt: Option<Receipt>) returns (r: Outcome, ghost trace: seq<Event>)
      requires Valid() && c !in world.callers
      modifies this`book, this`mutex, this`world
      ensures Valid() && world == Run(old(world), trace) && mutex == old(mutex) && sends == old(sends)
      ensures book.Keys == old(book).Keys && forall other <- book :: other != id ==> book[other] == old(book)[other]
      ensures r.ALREADY_CONFIRMED? <==> id in old(book) && old(book)[id].status.CONFIRMED?
      ensures r.ALREADY_FAILED? <==> id in old(book) && old(book)[id].status.FAILED?
      ensures r.PREPARED_NOT_BROADCAST? <==> id in old(book) && Unresolved(old(book)[id]) && !found
      ensures id in book ==>
                book[id] == if !Unresolved(old(book)[id]) || !found then old(book)[id]
                            else if receipt.None? || receipt.value.tx != old(book)[id].tx then Row(SUBMITTED, old(book)[id].tx)
                            else Row(if receipt.value.success then CONFIRMED else FAILED, old(book)[id].tx)
      ensures r.CONFIRMED_SUCCESS? || r.CONFIRMED_REVERT? <==>
                id in old(book) && Unresolved(old(book)[id]) && found && receipt.Some? && receipt.value.tx == old(book)[id].tx
      ensures r.CONFIRMED_SUCCESS? ==> receipt.value.success
      ensures r.CONFIRMED_REVERT? ==> !receipt.value.success
      ensures !r.MUTEX_HELD?
    {
      ghost var start := world;
      trace := [];
      if id !in book { return THREW, trace; }
      if book[id].status.CONFIRMED? { return ALREADY_CONFIRMED, trace; }
      if book[id].status.FAILED? { return ALREADY_FAILED, trace; }
      var tx := book[id].tx;
      trace := Observe(start, trace, c, id, found);
      if !found { return PREPARED_NOT_BROADCAST, trace; }
      r, trace := Conclude(start, trace, c, id, tx, false, receipt);
    }

    method Observe(ghost start: World, ghost trace: seq<Event>, c: Caller, id: Id, found: bool) returns (ghost longer: seq<Event>)
      requires Valid() && c !in world.callers && world == Run(start, trace) && id in book && Unresolved(book[id])
      modifies this`book, this`world
      ensures Valid() && world == Run(start, longer)
      ensures book == if found then old(book)[id := Row(SUBMITTED, old(book)[id].tx)] else old(book)
      ensures world.callers == if found then old(world.callers)[c := Awaiting(id, old(book)[id].tx, false)] else old(world.callers)
    {
      var row := book[id];
      Loads(world, c, id);
      longer := Record(start, trace, EvRecover(c, id));
      longer := ObserveRow(start, longer, c, id, row, found);
      assert world.callers == if found then old(world.callers)[c := Awaiting(id, row.tx, false)] else old(world.callers);
    }

    method ObserveRow(ghost start: World, ghost trace: seq<Event>, c: Caller, id: Id, row: Row, found: bool) returns (ghost longer: seq<Event>)
      requires Valid() && c in world.callers && world.callers[c] == Observing(id, row.tx, row.status) && world == Run(start, trace)
      requires id in book && book[id] == row && Unresolved(row)
      modifies this`book, this`world
      ensures Valid() && world == Run(start, longer)
      ensures book == if found then old(book)[id := Row(SUBMITTED, row.tx)] else old(book)
      ensures world.callers == if found then old(world.callers)[c := Awaiting(id, row.tx, false)] else old(world.callers) - {c}
    {
      Observes(world, c, id, row, found);
      if found { book := book[id := Row(SUBMITTED, row.tx)]; }
      longer := Record(start, trace, EvObserve(c, found));
    }

    /** Appends one event to the recorded run. */
    ghost method Record(start: World, trace: seq<Event>, ev: Event) returns (longer: seq<Event>)
      requires world == Run(start, trace)
      modifies this`world
      ensures world == Step(old(world), ev) && longer == trace + [ev] && world == Run(start, longer)
    {
      RunConcat(start, trace, [ev]);
      RunOne(world, ev);
      longer := trace + [ev];
      world := Step(world, ev);
    }
  }
}
