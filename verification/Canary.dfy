/** The guarded canary: an approval and a mint, driven by one persisted intent that a process
    resumes after every restart. */
module Canary {
  import opened Prelude

  type Tx = nat
  type Process = nat

  datatype Phase = APPROVAL | MINT

  datatype IntentState =
    | PREVIEWED | CLAIMED
    | APPROVAL_REQUIRED | APPROVAL_PREPARED | APPROVAL_SUBMITTED | APPROVAL_CONFIRMED
    | RANGE_REFRESHED | MINT_SIMULATION_PASSED | MINT_PREPARED | MINT_SUBMITTED
    | POSITION_RECONCILED | FAILED | CANCELLED

  /** Where a process stands; it leaves the map when it returns or crashes. Between the load
      and the end of the boundary it carries the journal entry it loaded. */
  datatype Pc =
    | Running(current: IntentState)
    | AtBoundary(phase: Phase)
    | Loaded(phase: Phase, entry: Option<Tx>)
    | Leased(phase: Phase, entry: Option<Tx>)
    | Prepared(phase: Phase, tx: Tx)
    | Sent(phase: Phase)
    | AwaitingApproval
    | AwaitingMint
    | ReadyToMint

  datatype Send = Send(phase: Phase, tx: Tx)

  /** `journal` is the payload's transaction journal, one entry per phase; `mutex` is the
      expiry of the wallet's nonce lease. */
  datatype World = World(
    state: IntentState, journal: map<Phase, Tx>, mutex: Option<int>, now: int, sends: seq<Send>, processes: map<Process, Pc>)

  const NONCE_MUTEX_TTL_MS := 300 * 1000

  /** Between acquire and release of the nonce mutex. */
  predicate Inside(pc: Pc) {
    pc.Leased? || pc.Prepared? || pc.Sent?
  }

  predicate Finished(state: IntentState) {
    state.POSITION_RECONCILED? || state.FAILED? || state.CANCELLED?
  }

  predicate Recoverable(state: IntentState) {
    state.APPROVAL_PREPARED? || state.APPROVAL_SUBMITTED? || state.MINT_PREPARED? || state.MINT_SUBMITTED?
  }

  function PreparedState(phase: Phase): IntentState {
    if phase.APPROVAL? then APPROVAL_PREPARED else MINT_PREPARED
  }

  function SubmittedState(phase: Phase): IntentState {
    if phase.APPROVAL? then APPROVAL_SUBMITTED else MINT_SUBMITTED
  }

  function Goto(w: World, p: Process, pc: Pc): World {
    w.(processes := w.processes[p := pc])
  }

  function Return(w: World, p: Process): World {
    w.(processes := w.processes - {p})
  }

  /** The `finally` of the boundary deletes the lease of the wallet, whoever took it. */
  function Release(w: World, p: Process): World
    requires p in w.processes
  {
    if Inside(w.processes[p]) then w.(mutex := None) else w
  }

  /** The catch block: a recoverable intent stays as it is, any other one fails. */
  function Fail(w: World, p: Process): World
    requires p in w.processes
  {
    Return(Release(if Recoverable(w.state) then w else w.(state := FAILED), p), p)
  }

  function AfterBoundary(w: World, p: Process, phase: Phase): World
    requires p in w.processes
  {
    Goto(Release(w, p).(state := SubmittedState(phase)), p, if phase.APPROVAL? then AwaitingApproval else AwaitingMint)
  }

  predicate Free(w: World) {
    w.mutex.None? || w.mutex.value < w.now
  }

  datatype Event =
    | EvStart(p: Process)
    | EvProceed(p: Process, allowanceLow: bool)
    | EvSign(p: Process, tx: Tx)
    | EvSend(p: Process)
    | EvThrow(p: Process)
    | EvCrash(p: Process)
    | EvTick(ms: nat)
    | EvForeign(lease: Option<int>)

  /** A preview is claimed once; otherwise only the four recoverable states are resumed. */
  function Start(w: World, p: Process): World {
    if p in w.processes then w
    else if w.state.PREVIEWED? then Goto(w.(state := CLAIMED), p, Running(CLAIMED))
    else if Recoverable(w.state) then Goto(w, p, Running(w.state))
    else w
  }

  function Acquire(w: World, p: Process, phase: Phase, entry: Option<Tx>): World
    requires p in w.processes
  {
    if Free(w) then Goto(w.(mutex := Some(w.now + NONCE_MUTEX_TTL_MS)), p, Leased(phase, entry)) else Fail(w, p)
  }

  /** The next step of a process when nothing throws. */
  function Proceed(w: World, p: Process, allowanceLow: bool): World
    requires p in w.processes
  {
    match w.processes[p]
    case Running(current) =>
      if current.APPROVAL_PREPARED? then Goto(w, p, AtBoundary(APPROVAL))
      else if current.MINT_PREPARED? then Goto(w, p, AtBoundary(MINT))
      else if current.APPROVAL_SUBMITTED? then Goto(w, p, AwaitingApproval)
      else if current.MINT_SUBMITTED? then Goto(w, p, AwaitingMint)
      else if allowanceLow then Goto(w.(state := APPROVAL_REQUIRED), p, AtBoundary(APPROVAL))
      else Goto(w, p, ReadyToMint)
    case AtBoundary(phase) => Goto(w, p, Loaded(phase, if phase in w.journal then Some(w.journal[phase]) else None))
    case Loaded(phase, entry) => Acquire(w, p, phase, entry)
    case Leased(phase, Some(_)) => AfterBoundary(w, p, phase)
    case Sent(phase) => AfterBoundary(w, p, phase)
    case AwaitingApproval => Goto(w.(state := APPROVAL_CONFIRMED), p, ReadyToMint)
    case ReadyToMint => Goto(w.(state := MINT_SIMULATION_PASSED), p, AtBoundary(MINT))
    case AwaitingMint => Return(w.(state := POSITION_RECONCILED), p)
    case _ => w
  }

  /** `persistCanaryPrepared`: it overwrites the entry of the phase, unless the intent ended. */
  function Persist(w: World, p: Process, phase: Phase, tx: Tx): World
    requires p in w.processes
  {
    if Finished(w.state) then Fail(w, p)
    else Goto(w.(state := PreparedState(phase), journal := w.journal[phase := tx]), p, Prepared(phase, tx))
  }

  predicate MaySign(w: World, p: Process) {
    p in w.processes && w.processes[p].Leased? && w.processes[p].entry.None?
  }

  /** One step. The lease belongs to the wallet: other clients take and release it as well. */
  function Step(w: World, e: Event): World {
    match e
    case EvStart(p) => Start(w, p)
    case EvProceed(p, allowanceLow) => if p in w.processes then Proceed(w, p, allowanceLow) else w
    case EvSign(p, tx) => if MaySign(w, p) then Persist(w, p, w.processes[p].phase, tx) else w
    case EvSend(p) =>
      if p in w.processes && w.processes[p].Prepared?
      then Goto(w.(sends := w.sends + [Send(w.processes[p].phase, w.processes[p].tx)]), p, Sent(w.processes[p].phase)) else w
    case EvThrow(p) => if p in w.processes then Fail(w, p) else w
    case EvCrash(p) => Return(w, p)
    case EvTick(ms) => w.(now := w.now + ms)
    case EvForeign(lease) => w.(mutex := lease)
  }

  function Run(w: World, es: seq<Event>): World {
    if es == [] then w else Step(Run(w, es[..|es| - 1]), es[|es| - 1])
  }

  predicate Initial(w: World) {
    w.journal == map[] && w.sends == [] && w.processes == map[]
  }

  // ---- when a phase is sent at most once ----

  function SendCount(sends: seq<Send>, phase: Phase): nat {
    if sends == [] then 0 else SendCount(sends[..|sends| - 1], phase) + if sends[|sends| - 1].phase == phase then 1 else 0
  }

  /** A process acquires the mutex with a load that is older than the journaled entry. */
  predicate StaleAcquire(w: World, e: Event) {
    e.EvProceed? && e.p in w.processes && w.processes[e.p].Loaded? && w.processes[e.p].entry.None?
    && w.processes[e.p].phase in w.journal && Free(w)
  }

  /** A process acquires the mutex while another one is still inside the boundary: the lease
      of that one has expired or was released under it. */
  predicate Overruns(w: World, e: Event) {
    e.EvProceed? && e.p in w.processes && w.processes[e.p].Loaded? && Free(w)
    && exists q <- w.processes :: q != e.p && Inside(w.processes[q])
  }

  /** Every send is the journaled one and each phase was sent at most once; at most one
      process is inside, and what it does not find in the journal is not there. */
  predicate Inv(w: World) {
    && (forall phase :: SendCount(w.sends, phase) <= 1)
    && (forall i :: 0 <= i < |w.sends| ==> w.sends[i].phase in w.journal && w.journal[w.sends[i].phase] == w.sends[i].tx)
    && (forall p <- w.processes, q <- w.processes :: Inside(w.processes[p]) && Inside(w.processes[q]) ==> p == q)
    && (forall p <- w.processes :: ProcessOk(w, w.processes[p]))
  }

  predicate ProcessOk(w: World, pc: Pc) {
    match pc
    case Leased(phase, None) => phase !in w.journal
    case Prepared(phase, tx) => phase in w.journal && w.journal[phase] == tx && SendCount(w.sends, phase) == 0
    case _ => true
  }

  lemma {:induction false} SendCounted(sends: seq<Send>, phase: Phase)
    ensures SendCount(sends, phase) == 0 <==> forall i :: 0 <= i < |sends| ==> sends[i].phase != phase
  {
    if sends != [] {
      SendCounted(sends[..|sends| - 1], phase);
    }
  }

  lemma Appended(sends: seq<Send>, s: Send, phase: Phase)
    ensures SendCount(sends + [s], phase) == SendCount(sends, phase) + if s.phase == phase then 1 else 0
  {
    assert (sends + [s])[..|sends|] == sends;
  }

  lemma SendKeeps(w: World, p: Process)
    requires Inv(w) && p in w.processes && w.processes[p].Prepared?
    ensures Inv(Step(w, EvSend(p)))
  {
    var pc := w.processes[p];
    assert ProcessOk(w, pc);
    var s := Send(pc.phase, pc.tx);
    forall phase ensures SendCount(w.sends + [s], phase) <= 1 {
      Appended(w.sends, s, phase);
    }
    var t := Step(w, EvSend(p));
    forall q <- t.processes ensures ProcessOk(t, t.processes[q]) {
      if q != p {
        assert ProcessOk(w, w.processes[q]);
        assert !Inside(w.processes[q]);
      }
    }
  }

  lemma SignKeeps(w: World, p: Process, tx: Tx)
    requires Inv(w) && MaySign(w, p)
    ensures Inv(Step(w, EvSign(p, tx)))
  {
    var phase := w.processes[p].phase;
    assert ProcessOk(w, w.processes[p]);
    SendCounted(w.sends, phase);
    assert SendCount(w.sends, phase) == 0 by {
      forall i | 0 <= i < |w.sends| ensures w.sends[i].phase != phase {
      }
    }
    var t := Step(w, EvSign(p, tx));
    forall q <- t.processes ensures ProcessOk(t, t.processes[q]) {
      if q != p {
        assert ProcessOk(w, w.processes[q]);
        assert !Inside(w.processes[q]);
      }
    }
  }

  lemma StepKeeps(w: World, e: Event)
    requires Inv(w) && !StaleAcquire(w, e) && !Overruns(w, e)
    ensures Inv(Step(w, e))
  {
    match e
    case EvSign(p, tx) => if MaySign(w, p) { SignKeeps(w, p, tx); }
    case EvSend(p) => if p in w.processes && w.processes[p].Prepared? { SendKeeps(w, p); }
    case EvProceed(p, low) => if p in w.processes { ProceedKeeps(w, p, low); }
    case EvThrow(p) =>
    case EvCrash(p) =>
    case EvStart(p) =>
    case EvTick(_) =>
    case EvForeign(_) =>
  }

  lemma ProceedKeeps(w: World, p: Process, low: bool)
    requires Inv(w) && p in w.processes && !StaleAcquire(w, EvProceed(p, low)) && !Overruns(w, EvProceed(p, low))
    ensures Inv(Proceed(w, p, low))
  {
    var t := Proceed(w, p, low);
    assert t.journal == w.journal && t.sends == w.sends;
    EntersAlone(w, p, low);
    forall q <- t.processes ensures ProcessOk(t, t.processes[q]) {
      if q != p {
        assert ProcessOk(w, w.processes[q]);
      }
    }
  }

  lemma EntersAlone(w: World, p: Process, low: bool)
    requires Inv(w) && p in w.processes && !Overruns(w, EvProceed(p, low))
    ensures var t := Proceed(w, p, low);
            forall a <- t.processes, b <- t.processes :: Inside(t.processes[a]) && Inside(t.processes[b]) ==> a == b
  {
  }

  /** In every run of any number of processes in which none acquires the mutex with a load
      older than the journaled entry, or while another one is still inside, each phase is sent
      at most once, and it is the journaled transaction. */
  lemma {:induction false} FreshLoadsSendOnce(w: World, es: seq<Event>)
    requires Initial(w)
    requires forall i :: 0 <= i < |es| ==> !StaleAcquire(Run(w, es[..i]), es[i]) && !Overruns(Run(w, es[..i]), es[i])
    ensures Inv(Run(w, es))
    ensures forall phase :: SendCount(Run(w, es).sends, phase) <= 1
  {
    if es != [] {
      var prior := es[..|es| - 1];
      forall i | 0 <= i < |prior| ensures !StaleAcquire(Run(w, prior[..i]), prior[i]) && !Overruns(Run(w, prior[..i]), prior[i]) {
        assert prior[..i] == es[..i];
      }
      FreshLoadsSendOnce(w, prior);
      StepKeeps(Run(w, prior), es[|es| - 1]);
    }
  }

  /** The rest of a call that is about to acquire the mutex. */
  function Resumed(p: Process, tx: Tx): seq<Event> {
    [EvProceed(p, false), EvSign(p, tx)] + [EvSend(p)]
  }

  /** The other direction, from every state without a second send so far: a process that found
      no entry and gets the mutex for an open intent goes on to send its phase, and that is a
      second send exactly when the phase had been sent after the load. */
  lemma StaleLoadSendsTwiceIff(w: World, p: Process, tx: Tx)
    requires Inv(w) && p in w.processes && w.processes[p].Loaded? && w.processes[p].entry.None? && Free(w) && !Finished(w.state)
    ensures var phase := w.processes[p].phase; var t := Run(w, Resumed(p, tx));
            t.sends == w.sends + [Send(phase, tx)]
            && (SendCount(t.sends, phase) > 1 <==> SendCount(w.sends, phase) == 1)
            && (SendCount(t.sends, phase) > 1 ==> StaleAcquire(w, EvProceed(p, false)))
  {
    var phase := w.processes[p].phase;
    RunConcat(w, [EvProceed(p, false), EvSign(p, tx)], [EvSend(p)]);
    RunTwo(w, EvProceed(p, false), EvSign(p, tx));
    var w2 := Prepares(w, p, phase, tx);
    RunOne(w2, EvSend(p));
    Appended(w.sends, Send(phase, tx), phase);
    SendCounted(w.sends, phase);
  }

  lemma Prepares(w: World, p: Process, phase: Phase, tx: Tx) returns (t: World)
    requires p in w.processes && w.processes[p] == Loaded(phase, None) && !Finished(w.state) && Free(w)
    ensures t == Step(Step(w, EvProceed(p, false)), EvSign(p, tx))
    ensures t.sends == w.sends && t.processes == w.processes[p := Prepared(phase, tx)] && t.journal == w.journal[phase := tx]
  {
    var w1 := Goto(w.(mutex := Some(w.now + NONCE_MUTEX_TTL_MS)), p, Leased(phase, None));
    assert Step(w, EvProceed(p, false)) == w1;
    t := Step(w1, EvSign(p, tx));
    assert t.processes == w.processes[p := Prepared(phase, tx)];
  }

  /** The process is inside the boundary and goes on to send this phase. */
  predicate StillToSend(pc: Pc, phase: Phase) {
    match pc
    case Leased(ph, None) => ph == phase
    case Prepared(ph, _) => ph == phase
    case _ => false
  }

  /** A process that acquires an expired lease and sends, after the one inside has ended its
      own call. */
  function Overrun(p: Process, a: Tx, q: Process, b: Tx): seq<Event> {
    [EvProceed(q, false)] + [EvSign(p, a), EvSend(p)] + [EvSign(q, b), EvSend(q)]
  }

  /** What an overrun does: from every state in which q, that found no entry, gets the mutex
      while p is inside, the two calls together send the phase of q once, and once more
      exactly when p had still to send it. */
  lemma OverrunSendsTwiceIff(w: World, p: Process, a: Tx, q: Process, b: Tx)
    requires p in w.processes && q in w.processes && p != q && Inside(w.processes[p])
    requires w.processes[q].Loaded? && w.processes[q].entry.None? && Free(w) && !Finished(w.state)
    ensures Overruns(w, EvProceed(q, false))
    ensures var phase := w.processes[q].phase;
            SendCount(Run(w, Overrun(p, a, q, b)).sends, phase)
            == SendCount(w.sends, phase) + 1 + if StillToSend(w.processes[p], phase) then 1 else 0
  {
    var phase := w.processes[q].phase;
    RunConcat(w, [EvProceed(q, false)] + [EvSign(p, a), EvSend(p)], [EvSign(q, b), EvSend(q)]);
    RunConcat(w, [EvProceed(q, false)], [EvSign(p, a), EvSend(p)]);
    RunOne(w, EvProceed(q, false));
    var w1 := Goto(w.(mutex := Some(w.now + NONCE_MUTEX_TTL_MS)), q, Leased(phase, None));
    assert Step(w, EvProceed(q, false)) == w1;
    RunTwo(w1, EvSign(p, a), EvSend(p));
    var w3 := EndsCall(w1, p, a, phase);
    RunTwo(w3, EvSign(q, b), EvSend(q));
    var _ := EndsCall(w3, q, b, phase);
  }

  /** The sign and the send of a process that is inside, whatever it has still to do. */
  lemma EndsCall(w: World, p: Process, tx: Tx, phase: Phase) returns (t: World)
    requires p in w.processes && Inside(w.processes[p]) && !Finished(w.state)
    ensures t == Step(Step(w, EvSign(p, tx)), EvSend(p)) && !Finished(t.state)
    ensures forall q <- w.processes :: q != p ==> q in t.processes && t.processes[q] == w.processes[q]
    ensures SendCount(t.sends, phase) == SendCount(w.sends, phase) + if StillToSend(w.processes[p], phase) then 1 else 0
  {
    var w1 := Step(w, EvSign(p, tx));
    t := Step(w1, EvSend(p));
    if w1.processes[p].Prepared? {
      Appended(w1.sends, Send(w1.processes[p].phase, w1.processes[p].tx), phase);
    }
  }

  // ---- one process, restarted any number of times ----

  predicate OnlyBy(e: Event, p: Process) {
    e.EvTick? || e.EvForeign? || e.p == p
  }

  /** With one process at a time no load is ever stale. */
  predicate Alone(w: World, p: Process) {
    w.processes.Keys <= {p}
    && (p in w.processes && w.processes[p].Loaded? && w.processes[p].entry.None? ==> w.processes[p].phase !in w.journal)
  }

  lemma AloneStep(w: World, p: Process, e: Event)
    requires Inv(w) && Alone(w, p) && OnlyBy(e, p)
    ensures !StaleAcquire(w, e) && !Overruns(w, e) && Alone(Step(w, e), p)
  {
  }

  /** So with one process, restarted any number of times, each phase is sent at most once
      whatever the other clients do to the lease. */
  lemma {:induction false} EachPhaseSendsOnce(w: World, es: seq<Event>, p: Process)
    requires Initial(w) && forall i :: 0 <= i < |es| ==> OnlyBy(es[i], p)
    ensures Inv(Run(w, es)) && Alone(Run(w, es), p)
    ensures forall phase :: SendCount(Run(w, es).sends, phase) <= 1
  {
    if es != [] {
      EachPhaseSendsOnce(w, es[..|es| - 1], p);
      AloneStep(Run(w, es[..|es| - 1]), p, es[|es| - 1]);
      StepKeeps(Run(w, es[..|es| - 1]), es[|es| - 1]);
    }
  }

  // ---- two processes ----

  lemma {:induction false} RunConcat(w: World, a: seq<Event>, b: seq<Event>)
    ensures Run(w, a + b) == Run(Run(w, a), b)
  {
    if b == [] {
      assert a + b == a;
    } else {
      assert (a + b)[..|a + b| - 1] == a + b[..|b| - 1];
      RunConcat(w, a, b[..|b| - 1]);
    }
  }

  lemma RunOne(w: World, e: Event)
    ensures Run(w, [e]) == Step(w, e)
  {
    assert [e][..0] == [];
  }

  lemma RunTwo(w: World, a: Event, b: Event)
    ensures Run(w, [a, b]) == Step(Step(w, a), b)
  {
    assert [a, b][..1] == [a];
    RunOne(w, a);
  }

  /** A resumed process on its way from the submitted approval to its load of the mint. */
  function Climb(p: Process): seq<Event> {
    [EvProceed(p, false), EvProceed(p, false)] + [EvProceed(p, false), EvProceed(p, false)]
  }

  lemma Climbs(w: World, p: Process)
    requires p in w.processes && w.processes[p] == Running(APPROVAL_SUBMITTED) && MINT !in w.journal
    ensures Run(w, Climb(p)) == w.(state := MINT_SIMULATION_PASSED, processes := w.processes[p := Loaded(MINT, None)])
  {
    var e := EvProceed(p, false);
    var w2 := w.(state := APPROVAL_CONFIRMED, processes := w.processes[p := ReadyToMint]);
    RunConcat(w, [e, e], [e, e]);
    RunTwo(w, e, e);
    RunTwo(w2, e, e);
    ConfirmsApproval(w, p);
    ReachesMint(w2, p);
    assert w2.processes[p := Loaded(MINT, None)] == w.processes[p := Loaded(MINT, None)];
  }

  lemma ConfirmsApproval(w: World, p: Process)
    requires p in w.processes && w.processes[p] == Running(APPROVAL_SUBMITTED)
    ensures Step(Step(w, EvProceed(p, false)), EvProceed(p, false))
            == w.(state := APPROVAL_CONFIRMED, processes := w.processes[p := ReadyToMint])
  {
    assert w.processes[p := AwaitingApproval][p := ReadyToMint] == w.processes[p := ReadyToMint];
  }

  lemma ReachesMint(w: World, p: Process)
    requires p in w.processes && w.processes[p] == ReadyToMint && MINT !in w.journal
    ensures Step(Step(w, EvProceed(p, false)), EvProceed(p, false))
            == w.(state := MINT_SIMULATION_PASSED, processes := w.processes[p := Loaded(MINT, None)])
  {
    assert w.processes[p := AtBoundary(MINT)][p := Loaded(MINT, None)] == w.processes[p := Loaded(MINT, None)];
  }

  /** Acquire, sign, commit, send and release. */
  function Mints(p: Process, tx: Tx): seq<Event> {
    [EvProceed(p, false), EvSign(p, tx)] + [EvSend(p), EvProceed(p, false)]
  }

  lemma MintRuns(w: World, p: Process, tx: Tx)
    requires p in w.processes && w.processes[p] == Loaded(MINT, None) && !Finished(w.state) && w.mutex.None?
    ensures var t := Run(w, Mints(p, tx));
            t.sends == w.sends + [Send(MINT, tx)] && t.state.MINT_SUBMITTED? && t.mutex.None?
            && t.processes == w.processes[p := AwaitingMint] && t.journal == w.journal[MINT := tx]
  {
    RunConcat(w, [EvProceed(p, false), EvSign(p, tx)], [EvSend(p), EvProceed(p, false)]);
    RunTwo(w, EvProceed(p, false), EvSign(p, tx));
    var w2 := Prepares(w, p, MINT, tx);
    RunTwo(w2, EvSend(p), EvProceed(p, false));
    SendsAndReleases(w2, p, tx);
    assert w2.processes[p := AwaitingMint] == w.processes[p := AwaitingMint];
  }

  lemma SendsAndReleases(w: World, p: Process, tx: Tx)
    requires p in w.processes && w.processes[p] == Prepared(MINT, tx)
    ensures var t := Step(Step(w, EvSend(p)), EvProceed(p, false));
            t == w.(state := MINT_SUBMITTED, mutex := None, sends := w.sends + [Send(MINT, tx)], processes := w.processes[p := AwaitingMint])
  {
    var w1 := Step(w, EvSend(p));
    assert w1 == Goto(w.(sends := w.sends + [Send(MINT, tx)]), p, Sent(MINT));
    assert w1.processes[p := AwaitingMint] == w.processes[p := AwaitingMint];
  }

  /** A process that previews, claims, and sends the approval, and then crashes. */
  function Approves(x: Tx): seq<Event> {
    [EvStart(0), EvProceed(0, true)] + [EvProceed(0, false), EvProceed(0, false)]
    + [EvSign(0, x), EvSend(0)] + [EvProceed(0, false), EvCrash(0)]
  }

  function Previewed(): World {
    World(PREVIEWED, map[], None, 0, [], map[])
  }

  function Approved(x: Tx): World {
    World(APPROVAL_SUBMITTED, map[APPROVAL := x], None, 0, [Send(APPROVAL, x)], map[])
  }

  lemma ApproveRuns(x: Tx)
    ensures Run(Previewed(), Approves(x)) == Approved(x)
  {
    var w := Previewed();
    var a, b, c, d := [EvStart(0), EvProceed(0, true)], [EvProceed(0, false), EvProceed(0, false)], [EvSign(0, x), EvSend(0)], [EvProceed(0, false), EvCrash(0)];
    RunConcat(w, a + b + c, d);
    RunConcat(w, a + b, c);
    RunConcat(w, a, b);
    RunTwo(w, EvStart(0), EvProceed(0, true));
    var w2 := w.(state := APPROVAL_REQUIRED, processes := map[0 := AtBoundary(APPROVAL)]);
    assert Step(Step(w, EvStart(0)), EvProceed(0, true)) == w2;
    RunTwo(w2, EvProceed(0, false), EvProceed(0, false));
    var w4 := w2.(mutex := Some(NONCE_MUTEX_TTL_MS), processes := map[0 := Leased(APPROVAL, None)]);
    assert Step(Step(w2, EvProceed(0, false)), EvProceed(0, false)) == w4;
    RunTwo(w4, EvSign(0, x), EvSend(0));
    ApprovalSent(w4, x);
  }

  lemma ApprovalSent(w: World, x: Tx)
    requires w == World(APPROVAL_REQUIRED, map[], Some(NONCE_MUTEX_TTL_MS), 0, [], map[0 := Leased(APPROVAL, None)])
    ensures Run(Step(Step(w, EvSign(0, x)), EvSend(0)), [EvProceed(0, false), EvCrash(0)]) == Approved(x)
  {
    var w2 := w.(state := APPROVAL_PREPARED, journal := map[APPROVAL := x], sends := [Send(APPROVAL, x)], processes := map[0 := Sent(APPROVAL)]);
    assert Step(Step(w, EvSign(0, x)), EvSend(0)) == w2;
    RunTwo(w2, EvProceed(0, false), EvCrash(0));
    assert map[0 := AwaitingApproval] - {0} == map[];
  }

  /** After an approval that was sent properly, two processes that resume it together both load
      an empty mint entry; the second one acquires the mutex properly, after the first
      released it, overwrites its entry and mints again. */
  lemma TwoProcessesMintTwice(x: Tx, a: Tx, b: Tx) returns (w: World, es: seq<Event>)
    ensures Initial(w) && w.state.PREVIEWED? && w.mutex.None?
    ensures Run(w, es).sends == [Send(APPROVAL, x), Send(MINT, a), Send(MINT, b)]
    ensures exists k | 0 <= k < |es| :: CleanButStale(Run(w, es[..k]), es[k])
  {
    w := Previewed();
    var before := Approves(x) + BothLoad() + Mints(0, a);
    es := before + Mints(1, b);
    RunConcat(w, Approves(x) + BothLoad(), Mints(0, a));
    RunConcat(w, Approves(x), BothLoad());
    RunConcat(w, before, Mints(1, b));
    ApproveRuns(x);
    BothLoadNothing(Approved(x));
    var w3 := Run(w, Approves(x) + BothLoad());
    MintRuns(w3, 0, a);
    var w4 := Run(w, before);
    MintRuns(w4, 1, b);
    assert es[..|before|] == before && es[|before|] == Mints(1, b)[0];
    assert CleanButStale(w4, EvProceed(1, false));
  }

  function BothLoad(): seq<Event> {
    [EvStart(0), EvStart(1)] + Climb(0) + Climb(1)
  }

  lemma BothLoadNothing(w: World)
    requires w.state.APPROVAL_SUBMITTED? && MINT !in w.journal && w.processes == map[]
    ensures Run(w, BothLoad()) == w.(state := MINT_SIMULATION_PASSED, processes := map[0 := Loaded(MINT, None), 1 := Loaded(MINT, None)])
  {
    var start := [EvStart(0), EvStart(1)];
    var w1 := w.(processes := map[0 := Running(APPROVAL_SUBMITTED), 1 := Running(APPROVAL_SUBMITTED)]);
    RunTwo(w, EvStart(0), EvStart(1));
    assert Run(w, start) == w1;
    Climbs(w1, 0);
    Climbs(Run(w1, Climb(0)), 1);
    RunConcat(w, start, Climb(0));
    RunConcat(w, start + Climb(0), Climb(1));
  }

  /** A stale acquire of a free mutex, with no process inside the boundary. */
  predicate CleanButStale(w: World, e: Event) {
    StaleAcquire(w, e) && w.mutex.None? && forall p <- w.processes :: !Inside(w.processes[p])
  }

  // ---- starting, failing, and completing ----

  /** A process takes up a preview, which claims it, or one of the four states a crash may
      leave behind; in every other state it does nothing. */
  lemma StartIff(w: World, p: Process)
    requires p !in w.processes
    ensures var t := Step(w, EvStart(p)); var s := w.state;
            && (p in t.processes <==> s.PREVIEWED? || s.APPROVAL_PREPARED? || s.APPROVAL_SUBMITTED? || s.MINT_PREPARED? || s.MINT_SUBMITTED?)
            && t.state == (if s.PREVIEWED? then CLAIMED else s)
            && (p in t.processes ==> t.processes == w.processes[p := Running(t.state)])
            && t.journal == w.journal && t.sends == w.sends && t.mutex == w.mutex
  {
  }

  /** A throw ends the process and, inside the boundary, releases the mutex; the intent stays
      resumable exactly when a transaction may be on its way, and fails otherwise. */
  lemma ThrowLeaves(w: World, p: Process)
    requires p in w.processes
    ensures var t := Step(w, EvThrow(p)); var s := w.state;
            && t.processes == w.processes - {p} && t.journal == w.journal && t.sends == w.sends
            && t.mutex == (if Inside(w.processes[p]) then None else w.mutex)
            && t.state == (if s.APPROVAL_PREPARED? || s.APPROVAL_SUBMITTED? || s.MINT_PREPARED? || s.MINT_SUBMITTED? then s else FAILED)
  {
  }

  /** The lease of the wallet is taken for five minutes, exactly when none that still runs is
      stored; a process that does not get it throws. */
  lemma LeasesIff(w: World, p: Process, low: bool)
    requires p in w.processes && w.processes[p].Loaded?
    ensures var t := Step(w, EvProceed(p, low)); var pc := w.processes[p];
            if w.mutex.Some? && w.mutex.value >= w.now then t == Step(w, EvThrow(p)) && t.mutex == w.mutex
            else t == w.(mutex := Some(w.now + 300_000), processes := w.processes[p := Leased(pc.phase, pc.entry)])
  {
  }

  /** With a journaled entry, as after a send, the intent is marked submitted and the mutex
      released; nothing is signed or sent. */
  lemma LeavesBoundary(w: World, p: Process, low: bool)
    requires p in w.processes && (w.processes[p].Sent? || (w.processes[p].Leased? && w.processes[p].entry.Some?))
    ensures var t := Step(w, EvProceed(p, low));
            t == if w.processes[p].phase.APPROVAL? then w.(state := APPROVAL_SUBMITTED, mutex := None, processes := w.processes[p := AwaitingApproval])
                 else w.(state := MINT_SUBMITTED, mutex := None, processes := w.processes[p := AwaitingMint])
  {
  }

  /** What the process does that resumes a sent approval. */
  function Resumes(a: Tx): seq<Event> {
    [EvStart(0)] + Climb(0) + Mints(0, a) + [EvProceed(0, false)]
  }

  lemma MintsAndReconciles(w: World, a: Tx)
    requires w.processes == map[0 := Loaded(MINT, None)] && w.mutex.None? && !Finished(w.state)
    ensures var t := Run(w, Mints(0, a) + [EvProceed(0, false)]);
            t.state.POSITION_RECONCILED? && t.mutex.None? && t.processes == map[]
            && t.sends == w.sends + [Send(MINT, a)] && t.journal == w.journal[MINT := a]
  {
    RunConcat(w, Mints(0, a), [EvProceed(0, false)]);
    MintRuns(w, 0, a);
    assert w.processes[0 := AwaitingMint] == map[0 := AwaitingMint];
    Reconciles(Run(w, Mints(0, a)));
  }

  lemma ResumesRuns(w: World, a: Tx)
    requires w.state.APPROVAL_SUBMITTED? && w.processes == map[] && w.mutex.None? && MINT !in w.journal
    ensures var t := Run(w, Resumes(a));
            t.state.POSITION_RECONCILED? && t.mutex.None? && t.processes == map[]
            && t.sends == w.sends + [Send(MINT, a)] && t.journal == w.journal[MINT := a]
  {
    var first, last := [EvStart(0)] + Climb(0), Mints(0, a) + [EvProceed(0, false)];
    assert Resumes(a) == first + last;
    RunConcat(w, first, last);
    RunConcat(w, [EvStart(0)], Climb(0));
    RunOne(w, EvStart(0));
    var w1 := w.(processes := map[0 := Running(APPROVAL_SUBMITTED)]);
    assert Step(w, EvStart(0)) == w1;
    Climbs(w1, 0);
    var w2 := w1.(state := MINT_SIMULATION_PASSED, processes := map[0 := Loaded(MINT, None)]);
    assert Run(w1, Climb(0)) == w2;
    MintsAndReconciles(w2, a);
  }

  /** A preview whose process crashes after the approval was sent: the next process completes
      it, with one approval and one mint, the mutex free and the position reconciled. */
  lemma ResumedCompletes(x: Tx, a: Tx)
    ensures var t := Run(Previewed(), Approves(x) + Resumes(a));
            && t.state.POSITION_RECONCILED? && t.mutex.None? && t.processes == map[]
            && t.sends == [Send(APPROVAL, x), Send(MINT, a)] && t.journal == map[APPROVAL := x, MINT := a]
  {
    RunConcat(Previewed(), Approves(x), Resumes(a));
    ApproveRuns(x);
    ResumesRuns(Approved(x), a);
  }

  lemma Reconciles(w: World)
    requires w.processes == map[0 := AwaitingMint]
    ensures Run(w, [EvProceed(0, false)]) == w.(state := POSITION_RECONCILED, processes := map[])
  {
    RunOne(w, EvProceed(0, false));
    assert w.processes - {0} == map[];
  }

}
