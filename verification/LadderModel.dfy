/** The rows that describe one V4 bid ladder, and every transaction that writes them.

    A transaction is a function from the rows to `Some` new rows, or `None` when it
    throws: the database then rolls back, so nothing changes. Values that a caller
    reads before it opens its transaction (an expected revision, an attempt number, a
    receipt, a mint list) are arguments, so a stale read is just another argument. */
module LadderModel {
  import opened Prelude

  type Token = nat
  type Hash = nat

  datatype Status = PLANNED | OPEN | CLOSED | CANCELLED
  datatype CloseProvenance = FUNI_EXECUTED | UNKNOWN_EXTERNAL | EXTERNAL_OPERATOR_CLOSE
  datatype TerminalProvenance = FUNI_AUTHORED_CLOSE_BATCH | EXTERNAL_ONCHAIN_MUTATION
  datatype CancelReason = AUTO_EXPIRED_PLANNED_30M | REPOSITION_SOURCE_BLOCKED_PRE_OPEN

  datatype Parent = Parent(
    status: Status, live: bool, revision: nat, updatedAt: int, pool: nat,
    closeProvenance: Option<CloseProvenance>, terminalProvenance: Option<TerminalProvenance>,
    cancelReason: Option<CancelReason>)

  /** A journal row is named by its stage and attempt (`batchId`). */
  datatype Stage = OPEN_ERC20_APPROVAL | OPEN_PERMIT2_APPROVAL | OPEN_BATCH | CLOSE_BATCH | OTHER(tag: nat)
  datatype Slot = Slot(stage: Stage, attempt: nat)

  datatype Leg = Leg(
    status: Status, token: Option<Token>, openBatch: Option<Slot>, closeBatch: Option<Slot>,
    tickLower: int, tickUpper: int)

  datatype JournalStatus = PREPARED | SUBMITTED | CONFIRMED | FAILED
  datatype Receipt = Receipt(hash: Hash, success: bool)
  datatype JournalRow = JournalRow(status: JournalStatus, hash: Hash, receipt: Option<Receipt>)

  datatype PositionStatus = POpen | PClosed | PBurned
  datatype V4Row = V4Row(
    status: PositionStatus, liquidity: nat, intent: Option<nat>, pool: nat,
    tickLower: int, tickUpper: int)

  datatype OwnerStatus = VERIFIED_OWNED | VERIFIED_UNOWNED | NONEXISTENT | UNKNOWN
  datatype TerminalReason = TRANSFERRED_OUT | BURNED | CLOSED_EMPTY | REPLACED | OWNERSHIP_LOST
  datatype Truth = Truth(
    owner: OwnerStatus, liquidity: Option<nat>, claimable0: Option<nat>, claimable1: Option<nat>,
    terminal: Option<TerminalReason>, confirmedActive: bool, contributesEquity: bool,
    checkedAt: int, freshUntil: int, failed: bool)

  datatype Phase =
    | OPEN_PENDING | WATCHING | CLOSE_PREPARED | CLOSE_SUBMITTED
    | CLOSE_CONFIRMED | PRINCIPAL_RECONCILED | REOPEN_PLANNED | REOPEN_PREPARED | REOPEN_SUBMITTED | COMPLETED
    | BLOCKED | OPERATOR_CLOSED
  datatype CloseReason = NORMAL_OPERATOR_CLOSE | USDG_RESET_REPOSITION
  /** `close_workflow_identity`: a manual authorization, or the ladder's own id. */
  datatype Identity = ManualAuthorization(uuid: nat) | LadderIdentity
  datatype Reset = Reset(
    phase: Phase, revision: nat, closeReason: Option<CloseReason>, identity: Option<Identity>)

  /** The journal keeps, stage by stage, its rows by attempt: a new attempt is only ever
      prepared at the end of the list. `unproven` only records what happened: the reset loop
      moved the reset to CLOSE_CONFIRMED on readings that do not prove the close. */
  datatype State = State(
    id: nat, parent: Parent, legs: seq<Leg>, journal: map<Stage, seq<JournalRow>>,
    positions: map<Token, PositionStatus>, v4: map<Token, V4Row>, truth: map<Token, Truth>,
    reset: Option<Reset>, unproven: bool)

  function Rows(s: State, stage: Stage): seq<JournalRow> {
    if stage in s.journal then s.journal[stage] else []
  }

  predicate IsOpenStage(stage: Stage) {
    stage.OPEN_ERC20_APPROVAL? || stage.OPEN_PERMIT2_APPROVAL? || stage.OPEN_BATCH?
  }

  predicate Unresolved(row: JournalRow) {
    row.status.PREPARED? || row.status.SUBMITTED?
  }

  predicate AnyUnresolved(s: State) {
    exists stage <- s.journal, i | 0 <= i < |s.journal[stage]| :: Unresolved(s.journal[stage][i])
  }

  predicate HashUsed(s: State, hash: Hash) {
    exists stage <- s.journal, i | 0 <= i < |s.journal[stage]| :: s.journal[stage][i].hash == hash
  }

  predicate Manual(identity: Option<Identity>) {
    identity.Some? && identity.value.ManualAuthorization?
  }

  function WithReset(s: State, phase: Phase): State
    requires s.reset.Some?
  {
    s.(reset := Some(s.reset.value.(phase := phase, revision := s.reset.value.revision + 1)))
  }

  // ---- submit: prepare, mark submitted, terminal evidence ----

  /** The journal part of a prepare: idempotent on the same hash, a conflict on another
      one, and a new row only for the next attempt with a hash never used before. */
  function PrepareRow(s: State, slot: Slot, hash: Hash): Option<State> {
    var rows := Rows(s, slot.stage);
    if slot.attempt < |rows| then
      if rows[slot.attempt].hash == hash then Some(s) else None
    else if slot.attempt == |rows| && (rows == [] || rows[|rows| - 1].status.FAILED?) && !HashUsed(s, hash) then
      Some(s.(journal := s.journal[slot.stage := rows + [JournalRow(PREPARED, hash, None)]]))
    else None
  }

  function BindOpen(legs: seq<Leg>, slot: Slot): seq<Leg> {
    seq(|legs|, i requires 0 <= i < |legs| => legs[i].(openBatch := Some(slot)))
  }

  function BindClose(legs: seq<Leg>, slot: Slot): seq<Leg> {
    seq(|legs|, i requires 0 <= i < |legs| => if legs[i].status.OPEN? then legs[i].(closeBatch := Some(slot)) else legs[i])
  }

  function AdmitOpen(s: State, now: int): Option<State> {
    if s.parent.status.PLANNED? then
      Some(s.(parent := s.parent.(live := true, revision := s.parent.revision + 1, updatedAt := now)))
    else None
  }

  function AuthorizeClose(s: State, auth: Option<Identity>): Option<State> {
    if s.reset.None? then None
    else if s.reset.value.phase.WATCHING? then
      if Manual(auth) then
        Some(WithReset(s.(reset := Some(s.reset.value.(identity := auth))), CLOSE_PREPARED))
      else None
    else if s.reset.value.phase.CLOSE_PREPARED? && Manual(s.reset.value.identity) then Some(s)
    else None
  }

  function BindOpening(s: State, slot: Slot, now: int): Option<State> {
    var a := AdmitOpen(s, now);
    if a.None? || !slot.stage.OPEN_BATCH? then a
    else Some(a.value.(legs := BindOpen(a.value.legs, slot)))
  }

  function BindClosing(s: State, slot: Slot, reason: CloseReason, auth: Option<Identity>): Option<State> {
    var b := s.(legs := BindClose(s.legs, slot));
    if reason.USDG_RESET_REPOSITION? then AuthorizeClose(b, auth) else Some(b)
  }

  /** The PREPARED transaction of `submit`, with the binding each stage is called with. */
  function Prepare(s: State, slot: Slot, hash: Hash, reason: CloseReason, auth: Option<Identity>, now: int): Option<State> {
    var p := PrepareRow(s, slot, hash);
    if p.None? then None
    else if IsOpenStage(slot.stage) then BindOpening(p.value, slot, now)
    else if slot.stage.CLOSE_BATCH? then BindClosing(p.value, slot, reason, auth)
    else p
  }

  /** A caller that still sees the newest row PREPARED moves its own row; when that is
      another row the guarded update changes nothing and the transaction throws. */
  function MarkSubmitted(s: State, slot: Slot, reason: CloseReason): Option<State> {
    var rows := Rows(s, slot.stage);
    if rows == [] then Some(s)
    else if !rows[|rows| - 1].status.PREPARED? then Some(AdvanceSubmitted(s, slot, reason))
    else if slot.attempt < |rows| && rows[slot.attempt].status.PREPARED? then
      var row := rows[slot.attempt].(status := SUBMITTED);
      Some(AdvanceSubmitted(s.(journal := s.journal[slot.stage := rows[slot.attempt := row]]), slot, reason))
    else None
  }

  function AdvanceSubmitted(s: State, slot: Slot, reason: CloseReason): State {
    if slot.stage.CLOSE_BATCH? && reason.USDG_RESET_REPOSITION? && s.reset.Some? && s.reset.value.phase.CLOSE_PREPARED?
    then WithReset(s, CLOSE_SUBMITTED)
    else s
  }

  datatype Evidence = Mined(receipt: Receipt) | NonceUnavailable

  function SettledRow(row: JournalRow, evidence: Evidence): JournalRow {
    match evidence
    case Mined(r) => JournalRow(if r.success then CONFIRMED else FAILED, row.hash, Some(r))
    case NonceUnavailable => row.(status := FAILED)
  }

  /** Terminal evidence for one row: terminal rows stay, open rows take the verdict. */
  function Settle(s: State, slot: Slot, evidence: Evidence): Option<State> {
    var rows := Rows(s, slot.stage);
    if slot.attempt >= |rows| then Some(s)
    else
      var row := rows[slot.attempt];
      if !Unresolved(row) then Some(s)
      else if evidence.Mined? && evidence.receipt.hash != row.hash then None
      else
        Some(s.(journal := s.journal[slot.stage := rows[slot.attempt := SettledRow(row, evidence)]]))
  }

  /** The reverted receipt of one attempt, recorded by `submit` itself: it fails the newest
      row of the stage that is still open, whichever attempt the receipt belongs to. */
  function RevertNewest(s: State, stage: Stage, receipt: Receipt): Option<State> {
    var rows := Rows(s, stage);
    if rows == [] || !Unresolved(rows[|rows| - 1]) then Some(s)
    else Some(s.(journal := s.journal[stage := rows[|rows| - 1 := JournalRow(FAILED, rows[|rows| - 1].hash, Some(receipt))]]))
  }

  // ---- open projection from the confirmed receipt ----

  function ConfirmedOpen(s: State): bool {
    var rows := Rows(s, OPEN_BATCH);
    |rows| > 0 && rows[|rows| - 1].status.CONFIRMED?
  }

  function ProjectLeg(s: State, i: nat, token: Token, liquidity: nat): State
    requires i < |s.legs|
  {
    var leg := s.legs[i];
    s.(positions := if token in s.positions then s.positions else s.positions[token := POpen],
       v4 := s.v4[token := if token in s.v4
                           then s.v4[token].(status := POpen, liquidity := liquidity, pool := s.parent.pool)
                           else V4Row(POpen, liquidity, Some(s.id), s.parent.pool, leg.tickLower, leg.tickUpper)],
       truth := if token in s.truth then s.truth
                else s.truth[token := Truth(UNKNOWN, None, None, None, None, false, false, 0, 0, false)],
       legs := if leg.status.PLANNED? || leg.status.OPEN?
               then s.legs[i := leg.(status := OPEN, token := Some(token), openBatch := Some(Slot(OPEN_BATCH, 0)))]
               else s.legs)
  }

  predicate TokenConflict(leg: Leg, token: Token) {
    leg.token.Some? && leg.token.value != token
  }

  /** The first `n` legs projected, or None when one of them is already bound to another token. */
  function ProjectLegs(s: State, mints: seq<Token>, liquidity: seq<nat>, n: nat): (r: Option<State>)
    requires n <= |mints| == |liquidity| == |s.legs|
    ensures r.Some? ==> |r.value.legs| == |s.legs|
  {
    if n == 0 then Some(s)
    else
      var p := ProjectLegs(s, mints, liquidity, n - 1);
      if p.None? || TokenConflict(p.value.legs[n - 1], mints[n - 1]) then None
      else Some(ProjectLeg(p.value, n - 1, mints[n - 1], liquidity[n - 1]))
  }

  function ProjectOpen(s: State, mints: seq<Token>, liquidity: seq<nat>, now: int): Option<State>
  {
    if !ConfirmedOpen(s) || |s.legs| != 5 || |mints| != 5 || |liquidity| != 5 || s.parent.status.CANCELLED? then None
    else
      var p := ProjectLegs(s, mints, liquidity, 5);
      if p.None? then None
      else if p.value.parent.live && (p.value.parent.status.PLANNED? || p.value.parent.status.OPEN?) then
        Some(p.value.(parent := p.value.parent.(
          status := OPEN, updatedAt := now,
          revision := p.value.parent.revision + if p.value.parent.status.PLANNED? then 1 else 0)))
      else p
  }

  // ---- terminal convergence ----

  datatype Provenance = FUNI_CLOSE_CONFIRMED | EXTERNAL_OR_UNKNOWN_TERMINAL

  /** The newest CONFIRMED attempt, if its receipt succeeded. */
  function ConfirmedClose(rows: seq<JournalRow>): (k: Option<nat>)
    ensures k.Some? ==> k.value < |rows| && rows[k.value].status.CONFIRMED?
  {
    if rows == [] then None
    else
      var n := |rows| - 1;
      if rows[n].status.CONFIRMED? then
        if rows[n].receipt.Some? && rows[n].receipt.value.success then Some(n) else None
      else ConfirmedClose(rows[..n])
  }

  predicate EmptyOwned(truth: map<Token, Truth>, token: Token, now: int) {
    token in truth
    && truth[token].owner.VERIFIED_OWNED? && truth[token].liquidity == Some(0)
    && truth[token].claimable0 == Some(0) && truth[token].claimable1 == Some(0)
    && truth[token].terminal == Some(CLOSED_EMPTY) && truth[token].freshUntil >= now && !truth[token].failed
  }

  predicate Unsettled(t: Truth) {
    !t.owner.VERIFIED_OWNED? || t.liquidity != Some(0) || t.claimable0 != Some(0) || t.claimable1 != Some(0)
    || t.terminal != Some(CLOSED_EMPTY) || t.confirmedActive || t.contributesEquity || t.failed
  }

  function SettledTruth(t: Truth, now: int): Truth {
    Truth(VERIFIED_OWNED, Some(0), Some(0), Some(0), Some(CLOSED_EMPTY), false, false,
          Max(t.checkedAt, now), Max(t.freshUntil, now), false)
  }

  /** The guarded mirror updates of one token, and how many rows they changed. */
  function CloseToken(s: State, token: Token, funi: bool, now: int): (State, nat) {
    var p := token in s.positions && !s.positions[token].PClosed?;
    var v := token in s.v4 && (!s.v4[token].status.PClosed? || s.v4[token].liquidity != 0);
    var t := funi && token in s.truth && Unsettled(s.truth[token]);
    (s.(positions := if p then s.positions[token := PClosed] else s.positions,
        v4 := if v then s.v4[token := s.v4[token].(status := PClosed, liquidity := 0)] else s.v4,
        truth := if t then s.truth[token := SettledTruth(s.truth[token], now)] else s.truth),
     (if p then 1 else 0) + (if v then 1 else 0) + (if t then 1 else 0))
  }

  function CloseTokens(s: State, tokens: seq<Token>, funi: bool, now: int): (State, nat) {
    if tokens == [] then (s, 0)
    else
      var n := |tokens| - 1;
      var (s1, w1) := CloseTokens(s, tokens[..n], funi, now);
      var (s2, w2) := CloseToken(s1, tokens[n], funi, now);
      (s2, w1 + w2)
  }

  predicate FullyMinted(legs: seq<Leg>) {
    |legs| == 5 && forall i :: 0 <= i < 5 ==> legs[i].token.Some?
  }

  function Tokens(legs: seq<Leg>): seq<Token>
    requires forall i :: 0 <= i < |legs| ==> legs[i].token.Some?
  {
    seq(|legs|, i requires 0 <= i < |legs| => legs[i].token.value)
  }

  function CloseLegs(legs: seq<Leg>, close: Option<Slot>): seq<Leg> {
    seq(|legs|, i requires 0 <= i < |legs| =>
      if legs[i].status.OPEN?
      then legs[i].(status := CLOSED, closeBatch := if legs[i].closeBatch.Some? then legs[i].closeBatch else close)
      else legs[i])
  }

  function OpenLegCount(legs: seq<Leg>): nat {
    if legs == [] then 0
    else OpenLegCount(legs[..|legs| - 1]) + if legs[|legs| - 1].status.OPEN? then 1 else 0
  }

  function CloseParent(parent: Parent, funi: bool, now: int): Parent {
    if parent.status.OPEN?
    then parent.(status := CLOSED, revision := parent.revision + 1, updatedAt := now,
                 closeProvenance := Some(if funi then FUNI_EXECUTED else UNKNOWN_EXTERNAL),
                 terminalProvenance := Some(if funi then FUNI_AUTHORED_CLOSE_BATCH else EXTERNAL_ONCHAIN_MUTATION))
    else parent
  }

  function CloseReset(s: State, funi: bool): (State, nat) {
    if s.reset.Some? && !funi && !s.reset.value.phase.BLOCKED? && !s.reset.value.phase.COMPLETED? && !s.reset.value.phase.OPERATOR_CLOSED?
    then (WithReset(s, BLOCKED), 1)
    else if s.reset.Some? && funi && s.reset.value.phase.WATCHING?
    then
      var r := s.reset.value;
      (WithReset(s.(reset := Some(r.(closeReason := Some(NORMAL_OPERATOR_CLOSE),
                                     identity := if r.identity.Some? then r.identity else Some(LadderIdentity)))), OPERATOR_CLOSED), 1)
    else (s, 0)
  }

  datatype ConvergenceError = IDENTITY_INCOMPLETE | FUNI_RECEIPT_REQUIRED | PROVENANCE_CONFLICT
                            | TRANSACTION_IN_PROGRESS | EVIDENCE_INCOMPLETE_OR_STALE | TOKEN_LINEAGE_MISMATCH

  predicate Lineage(s: State, token: Token) {
    token in s.v4 && s.v4[token].intent == Some(s.id)
  }

  function ChosenProvenance(s: State, requested: Option<Provenance>): Provenance {
    match requested
    case Some(p) => p
    case None => if ConfirmedClose(Rows(s, CLOSE_BATCH)).Some? then FUNI_CLOSE_CONFIRMED else EXTERNAL_OR_UNKNOWN_TERMINAL
  }

  /** The error with which the convergence throws before it writes, in the order it checks. */
  function ConvergenceBlocker(s: State, requested: Option<Provenance>, now: int): Option<ConvergenceError> {
    var close := ConfirmedClose(Rows(s, CLOSE_BATCH));
    var funi := ChosenProvenance(s, requested).FUNI_CLOSE_CONFIRMED?;
    if !FullyMinted(s.legs) then Some(IDENTITY_INCOMPLETE)
    else if funi && close.None? then Some(FUNI_RECEIPT_REQUIRED)
    else if !funi && close.Some? then Some(PROVENANCE_CONFLICT)
    else if AnyUnresolved(s) then Some(TRANSACTION_IN_PROGRESS)
    else if !funi && exists t <- Tokens(s.legs) :: !EmptyOwned(s.truth, t, now) then Some(EVIDENCE_INCOMPLETE_OR_STALE)
    else if exists t <- Tokens(s.legs) :: !Lineage(s, t) then Some(TOKEN_LINEAGE_MISMATCH)
    else None
  }

  function CloseSlot(s: State): Option<Slot> {
    match ConfirmedClose(Rows(s, CLOSE_BATCH))
    case Some(k) => Some(Slot(CLOSE_BATCH, k))
    case None => None
  }

  /** The writes of the convergence once nothing blocks it. */
  function ConvergeWrites(s: State, funi: bool, now: int): (State, nat)
    requires FullyMinted(s.legs)
  {
    var (s1, w1) := CloseTokens(s, Tokens(s.legs), funi, now);
    var s2 := s1.(legs := CloseLegs(s1.legs, CloseSlot(s)));
    var s3 := s2.(parent := CloseParent(s2.parent, funi, now));
    var (s4, w4) := CloseReset(s3, funi);
    (s4, w1 + OpenLegCount(s1.legs) + (if s2.parent.status.OPEN? then 1 else 0) + w4)
  }

  function Converge(s: State, requested: Option<Provenance>, now: int): Result<(State, nat), ConvergenceError> {
    var blocker := ConvergenceBlocker(s, requested, now);
    if blocker.Some? then Err(blocker.value)
    else
      assert FullyMinted(s.legs);
      Ok(ConvergeWrites(s, ChosenProvenance(s, requested).FUNI_CLOSE_CONFIRMED?, now))
  }

  // ---- close reconciliation ----

  datatype MirrorWrites = MirrorWrites(positions: nat, v4Positions: nat, legs: nat, parent: nat)

  predicate SameRange(s: State, leg: Leg, row: V4Row) {
    row.intent == Some(s.id) && row.pool == s.parent.pool
    && row.tickLower == leg.tickLower && row.tickUpper == leg.tickUpper
  }

  predicate MirrorPresent(s: State, leg: Leg) {
    leg.token.Some? && leg.token.value in s.positions && leg.token.value in s.v4
    && SameRange(s, leg, s.v4[leg.token.value])
  }

  /** One leg of `closeCanonicalMirrors`; None when it throws. */
  function MirrorLeg(s: State, w: MirrorWrites, i: nat): Option<(State, MirrorWrites)>
    requires i < |s.legs|
  {
    var leg := s.legs[i];
    if !MirrorPresent(s, leg) || !(leg.status.OPEN? || leg.status.CLOSED?) then None
    else
      var token := leg.token.value;
      var p := !s.positions[token].PClosed?;
      var v := !s.v4[token].status.PClosed? || s.v4[token].liquidity != 0;
      var l := leg.status.OPEN?;
      Some((s.(positions := if p then s.positions[token := PClosed] else s.positions,
               v4 := if v then s.v4[token := s.v4[token].(status := PClosed, liquidity := 0)] else s.v4,
               legs := if l then s.legs[i := leg.(status := CLOSED)] else s.legs),
            MirrorWrites(w.positions + (if p then 1 else 0), w.v4Positions + (if v then 1 else 0),
                         w.legs + (if l then 1 else 0), w.parent)))
  }

  function MirrorLegs(s: State, n: nat): (r: Option<(State, MirrorWrites)>)
    requires n <= |s.legs|
    ensures r.Some? ==> |r.value.0.legs| == |s.legs|
  {
    if n == 0 then Some((s, MirrorWrites(0, 0, 0, 0)))
    else
      var p := MirrorLegs(s, n - 1);
      if p.None? then None else MirrorLeg(p.value.0, p.value.1, n - 1)
  }

  function CloseCanonicalMirrors(s: State, now: int): Option<(State, MirrorWrites)> {
    var p := MirrorLegs(s, |s.legs|);
    if p.None? then None
    else
      var (s1, w) := p.value;
      if s1.parent.status.OPEN? then
        if s1.parent.live then
          Some((s1.(parent := s1.parent.(status := CLOSED, closeProvenance := Some(FUNI_EXECUTED),
                                         updatedAt := now, revision := s1.parent.revision + 1)),
                w.(parent := 1)))
        else None
      else if s1.parent.status.CLOSED? then Some((s1, w))
      else None
  }

  predicate SuccessRow(row: JournalRow) {
    row.status.CONFIRMED? && row.receipt.Some? && row.receipt.value.success && row.receipt.value.hash == row.hash
  }

  predicate MirrorClosed(s: State, leg: Leg, k: nat) {
    leg.status.CLOSED? && leg.closeBatch == Some(Slot(CLOSE_BATCH, k)) && leg.token.Some?
    && leg.token.value in s.positions && s.positions[leg.token.value].PClosed?
    && leg.token.value in s.v4 && s.v4[leg.token.value].status.PClosed?
    && s.v4[leg.token.value].liquidity == 0 && s.v4[leg.token.value].intent == Some(s.id)
  }

  predicate FuniClosed(parent: Parent) {
    parent.status.CLOSED? && parent.closeProvenance == Some(FUNI_EXECUTED)
    && parent.terminalProvenance == Some(FUNI_AUTHORED_CLOSE_BATCH)
  }

  /** `assertCanonicalClosePostcondition`: the CLOSE_BATCH row with the receipt's hash is
      confirmed, and parent, legs and mirrors are closed by exactly that row. */
  predicate ClosePostcondition(s: State, receipt: Receipt, revisionBefore: nat, parentWasOpen: bool, w: MirrorWrites) {
    FuniClosed(s.parent)
    && w.parent == 0 && s.parent.revision == revisionBefore + (if parentWasOpen then 1 else 0)
    && |s.legs| == 5
    && exists k | 0 <= k < |Rows(s, CLOSE_BATCH)| ::
         Rows(s, CLOSE_BATCH)[k].hash == receipt.hash && SuccessRow(Rows(s, CLOSE_BATCH)[k])
         && forall i :: 0 <= i < 5 ==> MirrorClosed(s, s.legs[i], k)
  }

  predicate Converged(phase: Phase) {
    phase.CLOSE_CONFIRMED? || phase.PRINCIPAL_RECONCILED? || phase.REOPEN_PLANNED?
    || phase.REOPEN_PREPARED? || phase.REOPEN_SUBMITTED? || phase.COMPLETED?
  }

  predicate CloseUnderway(phase: Phase) {
    phase.CLOSE_PREPARED? || phase.CLOSE_SUBMITTED?
  }

  datatype ConfirmOutcome = APPLIED | ALREADY_ADVANCED

  /** `convergeConfirmedV4BidLadderRepositionClose`. */
  function ConfirmReposition(s: State): Option<(State, ConfirmOutcome)> {
    if s.reset.None? then None
    else
      var r := s.reset.value;
      var rows := Rows(s, CLOSE_BATCH);
      if !CloseUnderway(r.phase) && !Converged(r.phase) then None
      else if !FuniClosed(s.parent) then None
      else if !Manual(r.identity) || (r.closeReason.Some? && !r.closeReason.value.USDG_RESET_REPOSITION?) then None
      else if |rows| != 1 || !SuccessRow(rows[0]) then None
      else if Converged(r.phase) then
        if r.closeReason == Some(USDG_RESET_REPOSITION) then Some((s, ALREADY_ADVANCED)) else None
      else Some((WithReset(s.(reset := Some(r.(closeReason := Some(USDG_RESET_REPOSITION)))), CLOSE_CONFIRMED), APPLIED))
  }

  /** The close a reposition may rely on: authorized by hand, one journal row, confirmed by
      its own successful receipt, and a parent closed by that row. */
  predicate ProvenClose(s: State) {
    && s.reset.Some? && Manual(s.reset.value.identity)
    && |Rows(s, CLOSE_BATCH)| == 1 && SuccessRow(Rows(s, CLOSE_BATCH)[0])
    && FuniClosed(s.parent)
  }

  predicate NewestSucceeded(rows: seq<JournalRow>) {
    rows != [] && SuccessRow(rows[|rows| - 1])
  }

  /** What the reset loop could check on its readings, and does not. */
  predicate ReadProven(parent: Parent, rows: seq<JournalRow>) {
    |rows| == 1 && FuniClosed(parent)
  }

  predicate NewestConfirmed(rows: seq<JournalRow>) {
    rows != [] && rows[|rows| - 1].status.CONFIRMED?
  }

  /** The second way to CLOSE_CONFIRMED, in the reset loop. It acts on what it read before:
      parent and reset first, then the close rows twice, with the branch before it taken when
      the newest row was confirmed already at the first of the two. Only the phase is checked
      again by the write. */
  function ConfirmFromReset(s: State, parent: Parent, reset: Reset, before: seq<JournalRow>, rows: seq<JournalRow>): Option<State> {
    if !parent.status.CLOSED? || !reset.phase.CLOSE_PREPARED? || NewestConfirmed(before) then None
    else if !NewestSucceeded(rows) || !Manual(reset.identity) then None
    else if s.reset.None? || !s.reset.value.phase.CLOSE_PREPARED? then None
    else
      var r := s.reset.value.(closeReason := Some(USDG_RESET_REPOSITION), identity := reset.identity);
      Some(WithReset(s.(reset := Some(r)), CLOSE_CONFIRMED).(unproven := s.unproven || !ReadProven(parent, rows)))
  }

  /** The reset part of the close reconciliation transaction. */
  function ReconcileReset(s: State, reason: CloseReason): Option<State> {
    if s.reset.None? then Some(s)
    else
      var r := s.reset.value;
      if reason.USDG_RESET_REPOSITION? then
        if CloseUnderway(r.phase) then
          var c := ConfirmReposition(s);
          if c.None? then None else Some(c.value.0)
        else if Converged(r.phase) then Some(s)
        else None
      else OperatorClosed(s, reason)
  }

  function OperatorClosed(s: State, reason: CloseReason): Option<State>
    requires s.reset.Some?
  {
    var r := s.reset.value;
    if r.phase.OPERATOR_CLOSED? then Some(s)
    else if r.phase.OPEN_PENDING? || r.phase.WATCHING? then
      Some(WithReset(s.(reset := Some(r.(closeReason := Some(reason), identity := Some(LadderIdentity)))), OPERATOR_CLOSED))
    else None
  }

  /** The atomic transaction of `reconcileClose`, with its asserted postcondition. */
  function ReconcileClose(s: State, receipt: Receipt, reason: CloseReason, now: int): Option<State> {
    var c := Converge(s, Some(FUNI_CLOSE_CONFIRMED), now);
    if c.Err? then None
    else
      var m := CloseCanonicalMirrors(c.value.0, now);
      if m.None? then None
      else
        var r := ReconcileReset(m.value.0, reason);
        if r.None? then None
        else if ClosePostcondition(r.value, receipt, s.parent.revision, s.parent.status.OPEN?, m.value.1) then r
        else None
  }

  /** The close of a ladder whose positions are already empty on chain: mirrors only. */
  function CloseEmpty(s: State, reason: CloseReason, now: int): Option<State> {
    var m := CloseCanonicalMirrors(s, now);
    if m.None? then None
    else
      var s1 := m.value.0;
      if s1.reset.Some? && reason.NORMAL_OPERATOR_CLOSE? && (s1.reset.value.phase.OPEN_PENDING? || s1.reset.value.phase.WATCHING?)
      then OperatorClosed(s1, reason)
      else Some(s1)
  }

  // ---- external settlement ----

  function CloseExternalLegs(legs: seq<Leg>): seq<Leg> {
    seq(|legs|, i requires 0 <= i < |legs| => legs[i].(status := CLOSED))
  }

  /** What the settlement reads before its transaction. */
  datatype Reading = Reading(parent: Parent, legs: seq<Leg>, closeRows: seq<JournalRow>)

  function ReadingOf(s: State): Reading {
    Reading(s.parent, s.legs, Rows(s, CLOSE_BATCH))
  }

  /** The cycle only picks ladders that are stored as closed from outside; without a terminal
      provenance their close provenance decides. */
  predicate ExternallyClosed(parent: Parent) {
    && parent.status.CLOSED?
    && match parent.terminalProvenance
       case Some(terminal) => terminal.EXTERNAL_ONCHAIN_MUTATION?
       case None => parent.closeProvenance.Some? && !parent.closeProvenance.value.FUNI_EXECUTED?
  }

  predicate SettlementRefused(seen: Reading) {
    || !FullyMinted(seen.legs) || seen.parent.closeProvenance == Some(FUNI_EXECUTED)
    || seen.parent.terminalProvenance == Some(FUNI_AUTHORED_CLOSE_BATCH)
    || exists i | 0 <= i < |seen.closeRows| :: seen.closeRows[i].status.CONFIRMED?
  }

  /** The transaction of the settlement. Of all that was read only the terminal provenance of
      the parent is checked again. */
  function WriteExternally(s: State, seen: Reading, now: int): State
    requires FullyMinted(seen.legs)
  {
    var s1 := CloseTokens(s, Tokens(seen.legs), false, now).0;
    var s2 := s1.(legs := CloseExternalLegs(s1.legs));
    if s2.parent.terminalProvenance == Some(EXTERNAL_ONCHAIN_MUTATION) then s2
    else s2.(parent := s2.parent.(
           status := CLOSED,
           closeProvenance := if s2.parent.closeProvenance == Some(FUNI_EXECUTED) then Some(FUNI_EXECUTED) else Some(UNKNOWN_EXTERNAL),
           terminalProvenance := Some(EXTERNAL_ONCHAIN_MUTATION),
           updatedAt := now, revision := s2.parent.revision + 1))
  }

  /** `candidate` is the parent as the cycle picked it, `seen` what was read after that.
      Evidence for all five legs closes the ladder; partial evidence is only recorded. */
  function SettleExternally(s: State, candidate: Parent, seen: Reading, allLegs: bool, now: int): Option<State> {
    if !ExternallyClosed(candidate) || SettlementRefused(seen) then None
    else Some(if allLegs then WriteExternally(s, seen, now) else s)
  }

  // ---- cancellation ----

  const BID_LADDER_PLANNED_AUTO_EXPIRY_MS := 30 * 60 * 1000

  datatype CancelBlocker =
    | MODE_INVALID | STATE_NOT_PLANNED | REVISION_CHANGED | TTL_NOT_ELAPSED | LEG_SET_AMBIGUOUS
    | LEG_STATE_ADVANCED | MINTED_TOKEN_EVIDENCE | BATCH_EVIDENCE | TRANSACTION_JOURNAL_EVIDENCE
    | EVIDENCE_ELSEWHERE(tag: nat)

  predicate HasJournal(s: State) {
    exists stage <- s.journal :: s.journal[stage] != []
  }

  predicate LegsPlanned(legs: seq<Leg>) {
    forall i :: 0 <= i < |legs| ==> legs[i].status.PLANNED?
  }

  predicate LegsUnminted(legs: seq<Leg>) {
    forall i :: 0 <= i < |legs| ==> legs[i].token.None?
  }

  predicate LegsUnbound(legs: seq<Leg>) {
    forall i :: 0 <= i < |legs| ==> legs[i].openBatch.None? && legs[i].closeBatch.None?
  }

  function Block(blockers: seq<CancelBlocker>, blocked: bool, blocker: CancelBlocker): (r: seq<CancelBlocker>)
    ensures r == [] <==> blockers == [] && !blocked
  {
    if blocked then blockers + [blocker] else blockers
  }

  /** The blockers in the order they are pushed; `elsewhere` are those found in other tables. */
  function CancelBlockers(s: State, expectedRevision: nat, now: int, elsewhere: seq<CancelBlocker>): seq<CancelBlocker> {
    var b1 := Block([], !s.parent.live, MODE_INVALID);
    var b2 := Block(b1, !s.parent.status.PLANNED?, STATE_NOT_PLANNED);
    var b3 := Block(b2, s.parent.revision != expectedRevision, REVISION_CHANGED);
    var b4 := Block(b3, now - s.parent.updatedAt < BID_LADDER_PLANNED_AUTO_EXPIRY_MS, TTL_NOT_ELAPSED);
    var b5 := Block(b4, |s.legs| != 5, LEG_SET_AMBIGUOUS);
    var b6 := Block(b5, !LegsPlanned(s.legs), LEG_STATE_ADVANCED);
    var b7 := Block(b6, !LegsUnminted(s.legs), MINTED_TOKEN_EVIDENCE);
    var b8 := Block(b7, !LegsUnbound(s.legs), BATCH_EVIDENCE);
    Block(b8, HasJournal(s), TRANSACTION_JOURNAL_EVIDENCE) + elsewhere
  }

  predicate Cancellable(leg: Leg) {
    leg.status.PLANNED? && leg.token.None? && leg.openBatch.None? && leg.closeBatch.None?
  }

  function CancelLegs(legs: seq<Leg>): seq<Leg> {
    seq(|legs|, i requires 0 <= i < |legs| => legs[i].(status := CANCELLED))
  }

  function CancelParent(parent: Parent, reason: CancelReason, now: int): Parent {
    parent.(status := CANCELLED, cancelReason := Some(reason), updatedAt := now, revision := parent.revision + 1)
  }

  datatype CancelOutcome = CANCELLED_NOW | ALREADY_CANCELLED | CONCURRENT_STATE_CHANGED | BLOCKED_BY(blockers: seq<CancelBlocker>)

  /** `cancelPlannedV4BidLadder`; the leg update must change five rows or everything rolls back. */
  function Cancel(s: State, expectedRevision: nat, now: int, elsewhere: seq<CancelBlocker>): Option<(State, CancelOutcome)> {
    if s.parent.status.CANCELLED? then Some((s, ALREADY_CANCELLED))
    else if !s.parent.status.PLANNED? || s.parent.revision != expectedRevision then Some((s, CONCURRENT_STATE_CHANGED))
    else
      var blockers := CancelBlockers(s, expectedRevision, now, elsewhere);
      if blockers != [] then Some((s, BLOCKED_BY(blockers)))
      else if |s.legs| == 5 && forall i :: 0 <= i < |s.legs| ==> Cancellable(s.legs[i]) then
        Some((s.(parent := CancelParent(s.parent, AUTO_EXPIRED_PLANNED_30M, now), legs := CancelLegs(s.legs)), CANCELLED_NOW))
      else None
  }

  /** The cancellation of an orphaned reposition child: no revision guard, and the only
      journal evidence it respects inside its transaction is the open batch on the legs. */
  function CancelOrphan(s: State, now: int): Option<State> {
    if !s.parent.status.PLANNED? then None
    else if !(|s.legs| == 5 && forall i :: 0 <= i < |s.legs| ==>
                s.legs[i].status.PLANNED? && s.legs[i].token.None? && s.legs[i].openBatch.None?) then None
    else if s.reset.None? || !s.reset.value.phase.OPEN_PENDING? then None
    else Some(WithReset(s.(parent := CancelParent(s.parent, REPOSITION_SOURCE_BLOCKED_PRE_OPEN, now), legs := CancelLegs(s.legs)), BLOCKED))
  }

  // ---- phases moved elsewhere, and position truth ----

  /** The phase moves made outside these transactions: forward steps, blocking, and the
      resumption of a reposition that was blocked after its close was confirmed. */
  predicate ForwardPhase(r: Reset, to: Phase) {
    match to
    case WATCHING => r.phase.OPEN_PENDING?
    case PRINCIPAL_RECONCILED => r.phase.CLOSE_CONFIRMED? || (r.phase.BLOCKED? && r.closeReason == Some(USDG_RESET_REPOSITION))
    case REOPEN_PLANNED => r.phase.PRINCIPAL_RECONCILED? || (r.phase.BLOCKED? && r.closeReason == Some(USDG_RESET_REPOSITION))
    case REOPEN_PREPARED => r.phase.REOPEN_PLANNED?
    case REOPEN_SUBMITTED => r.phase.REOPEN_PREPARED?
    case COMPLETED => r.phase.REOPEN_PLANNED? || r.phase.REOPEN_PREPARED? || r.phase.REOPEN_SUBMITTED?
    case BLOCKED => !r.phase.COMPLETED? && !r.phase.OPERATOR_CLOSED?
    case _ => false
  }

  function MovePhase(s: State, to: Phase): Option<State> {
    if s.reset.None? || !ForwardPhase(s.reset.value, to) then None else Some(WithReset(s, to))
  }

  function Retick(legs: seq<Leg>, ticks: seq<(int, int)>): seq<Leg>
    requires |ticks| == |legs|
  {
    seq(|legs|, i requires 0 <= i < |legs| => legs[i].(tickLower := ticks[i].0, tickUpper := ticks[i].1))
  }

  /** The plan of a child that is not opened yet is replaced, at the revisions it was read at. */
  function Rematerialize(s: State, ticks: seq<(int, int)>, parentRevision: nat, resetRevision: nat, now: int): Option<State> {
    if !s.parent.status.PLANNED? || s.parent.revision != parentRevision then None
    else if |ticks| != |s.legs| || exists i | 0 <= i < |s.legs| :: !s.legs[i].status.PLANNED? || s.legs[i].token.Some? || s.legs[i].openBatch.Some? then None
    else if s.reset.None? || !s.reset.value.phase.OPEN_PENDING? || s.reset.value.revision != resetRevision then None
    else Some(WithReset(s.(parent := s.parent.(revision := s.parent.revision + 1, updatedAt := now), legs := Retick(s.legs, ticks)), OPEN_PENDING))
  }

  /** A reading of one position rewrites its statuses and its truth row, and nothing else. */
  function ObservePosition(s: State, token: Token, status: PositionStatus, liquidity: nat, truth: Truth): State {
    s.(positions := if token in s.positions then s.positions[token := status] else s.positions,
       v4 := if token in s.v4 then s.v4[token := s.v4[token].(status := status, liquidity := liquidity)] else s.v4,
       truth := s.truth[token := truth])
  }

  // ---- interleavings ----

  datatype Event =
    | EvPrepare(slot: Slot, hash: Hash, reason: CloseReason, auth: Option<Identity>, now: int)
    | EvSubmitted(slot: Slot, reason: CloseReason)
    | EvSettle(slot: Slot, evidence: Evidence)
    | EvRevert(stage: Stage, receipt: Receipt)
    | EvProject(mints: seq<Token>, liquidity: seq<nat>, now: int)
    | EvConverge(requested: Option<Provenance>, now: int)
    | EvReconcileClose(receipt: Receipt, reason: CloseReason, now: int)
    | EvCloseEmpty(reason: CloseReason, now: int)
    | EvExternal(candidate: Parent, seen: Reading, allLegs: bool, now: int)
    | EvCancel(expectedRevision: nat, now: int, elsewhere: seq<CancelBlocker>)
    | EvCancelOrphan(now: int)
    | EvConfirm
    | EvConfirmFromReset(parent: Parent, reset: Reset, before: seq<JournalRow>, rows: seq<JournalRow>)
    | EvPhase(to: Phase)
    | EvRematerialize(ticks: seq<(int, int)>, parentRevision: nat, resetRevision: nat, now: int)
    | EvObserve(token: Token, status: PositionStatus, raw: nat, truth: Truth)

  /** One transaction; None when it throws. */
  function Attempted(s: State, e: Event): Option<State> {
    match e
    case EvPrepare(slot, hash, reason, auth, now) => Prepare(s, slot, hash, reason, auth, now)
    case EvSubmitted(slot, reason) => MarkSubmitted(s, slot, reason)
    case EvSettle(slot, evidence) => Settle(s, slot, evidence)
    case EvRevert(stage, receipt) => if receipt.success then None else RevertNewest(s, stage, receipt)
    case EvProject(mints, liquidity, now) => ProjectOpen(s, mints, liquidity, now)
    case EvConverge(requested, now) =>
      (match Converge(s, requested, now) case Ok(r) => Some(r.0) case Err(_) => None)
    case EvReconcileClose(receipt, reason, now) => ReconcileClose(s, receipt, reason, now)
    case EvCloseEmpty(reason, now) => CloseEmpty(s, reason, now)
    case EvExternal(candidate, seen, allLegs, now) => SettleExternally(s, candidate, seen, allLegs, now)
    case EvCancel(expectedRevision, now, elsewhere) =>
      (match Cancel(s, expectedRevision, now, elsewhere) case Some(r) => Some(r.0) case None => None)
    case EvCancelOrphan(now) => CancelOrphan(s, now)
    case EvConfirm => (match ConfirmReposition(s) case Some(r) => Some(r.0) case None => None)
    case EvConfirmFromReset(parent, reset, before, rows) => ConfirmFromReset(s, parent, reset, before, rows)
    case EvPhase(to) => MovePhase(s, to)
    case EvRematerialize(ticks, parentRevision, resetRevision, now) => Rematerialize(s, ticks, parentRevision, resetRevision, now)
    case EvObserve(token, status, liquidity, truth) => Some(ObservePosition(s, token, status, liquidity, truth))
  }

  /** A thrown transaction rolls back. */
  function Step(s: State, e: Event): State {
    match Attempted(s, e) case Some(t) => t case None => s
  }

  function Run(s: State, es: seq<Event>): State {
    if es == [] then s else Step(Run(s, es[..|es| - 1]), es[|es| - 1])
  }
}
