/** What the ledger believes about one position, under readings that may fail and may arrive
    in any block order. */
module PositionTruth {
  import opened Prelude

  datatype Protocol = V3 | V4
  datatype OwnerStatus = VERIFIED_OWNED | VERIFIED_UNOWNED | NONEXISTENT | UNKNOWN
  datatype TerminalReason = TRANSFERRED_OUT | BURNED | CLOSED_EMPTY | REPLACED | OWNERSHIP_LOST

  datatype Row = Row(
    owner: OwnerStatus, liquidity: Option<nat>, claimable0: Option<nat>, claimable1: Option<nat>,
    terminal: Option<TerminalReason>, confirmed: bool, contributesEquity: bool,
    checkBlock: Option<nat>, checkedAt: int, freshUntil: int, retries: nat, error: bool)

  datatype LocalStatus = OPEN | CLOSED | BURNED_LOCALLY | OTHER

  /** The stored row (if any) with the local status of the position. */
  datatype State = State(row: Option<Row>, local: LocalStatus)

  // ---- one reading ----

  const Q128 := 0x1_0000_0000_0000_0000_0000_0000_0000_0000
  const TWO_256 := Q128 * Q128
  /** An unsigned word of the chain; fee growth wraps around in it. */
  type Word = x: nat | x < TWO_256

  /** An owner query: an address, a revert that says the token does not exist, or any other failure. */
  datatype OwnerReply = OwnedBy(wallet: bool) | NoSuchToken | OwnerFailed
  /** The position query: liquidity, for V3 with the owed tokens. */
  datatype PositionReply = Position(liquidity: nat, owed0: nat, owed1: nat) | PositionFailed
  /** The three V4 fee queries when all of them answered: the stored liquidity, and the fee
      growth of each token inside the range, now and as last collected. */
  datatype FeeReply = Fees(stored: nat, inside0: Word, inside1: Word, last0: Word, last1: Word) | FeesFailed

  datatype Reading = Reading(
    protocol: Protocol, owner: OwnerReply, position: PositionReply, fees: FeeReply,
    burnProven: bool, sentByWallet: bool, block: nat, now: int, ttl: nat)

  function OwnerOf(r: Reading): OwnerStatus {
    match r.owner
    case OwnedBy(mine) => if mine then VERIFIED_OWNED else VERIFIED_UNOWNED
    case NoSuchToken => NONEXISTENT
    case OwnerFailed => UNKNOWN
  }

  function LiquidityOf(r: Reading): Option<nat> {
    if r.position.Position? then Some(r.position.liquidity) else None
  }

  /** The claimable fees: from the position for V3; for V4 from fee growth on the liquidity
      read, or on the stored one when that read failed. */
  function ClaimableOf(r: Reading): (Option<nat>, Option<nat>) {
    if r.protocol.V3? then
      if r.position.Position? then (Some(r.position.owed0), Some(r.position.owed1)) else (None, None)
    else if OwnerOf(r).VERIFIED_OWNED? && r.fees.Fees? then
      var active := if r.position.Position? then r.position.liquidity else r.fees.stored;
      (Some(Fee(active, GrowthSince(r.fees.inside0, r.fees.last0))), Some(Fee(active, GrowthSince(r.fees.inside1, r.fees.last1))))
    else (None, None)
  }

  function GrowthSince(inside: Word, last: Word): nat {
    (inside - last + TWO_256) % TWO_256
  }

  function Fee(liquidity: nat, growth: nat): nat {
    liquidity * growth / Q128
  }

  function OrZero(v: Option<nat>): nat {
    if v.Some? then v.value else 0
  }

  /** The reading carries an error: any failure but a token that does not exist, or a V4 token
      that does not exist without a proven burn. */
  predicate HasError(r: Reading) {
    r.owner.OwnerFailed?
    || (r.position.PositionFailed? && !r.owner.NoSuchToken?)
    || (r.owner.NoSuchToken? && r.protocol.V4? && !r.burnProven)
  }

  function TerminalOf(r: Reading): Option<TerminalReason> {
    match OwnerOf(r)
    case NONEXISTENT => if r.protocol.V4? && !r.burnProven then None else Some(BURNED)
    case VERIFIED_UNOWNED => Some(if r.sentByWallet then TRANSFERRED_OUT else OWNERSHIP_LOST)
    case VERIFIED_OWNED =>
      if LiquidityOf(r) == Some(0) && OrZero(ClaimableOf(r).0) == 0 && OrZero(ClaimableOf(r).1) == 0 then Some(CLOSED_EMPTY) else None
    case UNKNOWN => None
  }

  predicate Confirms(r: Reading) {
    OwnerOf(r).VERIFIED_OWNED? && TerminalOf(r).None?
    && (OrZero(LiquidityOf(r)) > 0 || OrZero(ClaimableOf(r).0) > 0 || OrZero(ClaimableOf(r).1) > 0)
  }

  /** A confirming V4 reading without a liquidity cannot be written to the position row. */
  predicate Unwritable(r: Reading) {
    Confirms(r) && r.protocol.V4? && LiquidityOf(r).None?
  }

  predicate Outdated(s: State, r: Reading) {
    s.row.Some? && s.row.value.checkBlock.Some? && s.row.value.checkBlock.value > r.block
  }

  predicate StillConfirmed(s: State) {
    s.row.Some? && s.row.value.confirmed && s.row.value.terminal.None?
  }

  /** `persist`; None when it throws and the whole transaction rolls back. */
  function Persist(s: State, r: Reading): Option<State> {
    if Outdated(s, r) then Some(s)
    else if HasError(r) && StillConfirmed(s) then
      Some(s.(row := Some(s.row.value.(checkedAt := r.now, freshUntil := r.now, retries := s.row.value.retries + 1, error := true))))
    else if Unwritable(r) then None
    else
      var retries := if HasError(r) && s.row.Some? then s.row.value.retries + 1 else 0;
      var row := Row(OwnerOf(r), LiquidityOf(r), ClaimableOf(r).0, ClaimableOf(r).1, TerminalOf(r), Confirms(r), Confirms(r),
                     Some(r.block), r.now, if HasError(r) then r.now else r.now + r.ttl, retries, HasError(r));
      var local := if TerminalOf(r) == Some(BURNED) then BURNED_LOCALLY
                   else if TerminalOf(r).Some? then CLOSED
                   else if Confirms(r) then OPEN else s.local;
      Some(State(Some(row), local))
  }

  /** The confirmed close of a ladder settles the row of each of its positions. */
  function SettleClosed(s: State, now: int): State {
    if s.row.None? then s.(local := CLOSED)
    else
      var row := s.row.value;
      if row.owner.VERIFIED_OWNED? && row.liquidity == Some(0) && row.claimable0 == Some(0) && row.claimable1 == Some(0)
         && row.terminal == Some(CLOSED_EMPTY) && !row.confirmed && !row.contributesEquity && !row.error
      then s.(local := CLOSED)
      else State(Some(Row(VERIFIED_OWNED, Some(0), Some(0), Some(0), Some(CLOSED_EMPTY), false, false, row.checkBlock,
                          Max(row.checkedAt, now), Max(row.freshUntil, now), row.retries, false)), CLOSED)
  }

  /** A mint that is known from its receipt only: it never touches a confirmed row. */
  function MarkOpenConfirming(s: State, now: int): State {
    if s.row.None? then s.(row := Some(Row(UNKNOWN, None, None, None, None, false, false, None, now, now, 0, false)))
    else if s.row.value.confirmed then s
    else s.(row := Some(s.row.value.(freshUntil := now)))
  }

  datatype Event = EvReading(r: Reading) | EvClosed(now: int) | EvMint(now: int)

  function Step(s: State, e: Event): State {
    match e
    case EvReading(r) => (match Persist(s, r) case Some(t) => t case None => s)
    case EvClosed(now) => SettleClosed(s, now)
    case EvMint(now) => MarkOpenConfirming(s, now)
  }

  function Run(s: State, es: seq<Event>): State {
    if es == [] then s else Step(Run(s, es[..|es| - 1]), es[|es| - 1])
  }

  // ---- what every sequence of readings keeps ----

  /** A confirmed row has no terminal reason, is verified as owned, was read at some block,
      and counts as equity. */
  predicate Sound(s: State) {
    s.row.Some? && s.row.value.confirmed ==>
      s.row.value.terminal.None? && s.row.value.owner.VERIFIED_OWNED? && s.row.value.checkBlock.Some? && s.row.value.contributesEquity
  }

  function BlockOf(s: State): int {
    if s.row.Some? && s.row.value.checkBlock.Some? then s.row.value.checkBlock.value else -1
  }

  predicate IsConfirmed(s: State) {
    s.row.Some? && s.row.value.confirmed
  }

  /** Only an error-free reading of a block that is not older than the stored one, or a
      confirmed close, may un-confirm a position. */
  predicate MayUnconfirm(s: State, e: Event) {
    match e
    case EvReading(r) => !HasError(r) && r.block >= BlockOf(s) && (TerminalOf(r).Some? || !Confirms(r))
    case EvClosed(_) => true
    case EvMint(_) => false
  }

  lemma StepKeeps(s: State, e: Event)
    requires Sound(s)
    ensures Sound(Step(s, e)) && BlockOf(s) <= BlockOf(Step(s, e))
    ensures IsConfirmed(s) && !IsConfirmed(Step(s, e)) ==> MayUnconfirm(s, e)
    ensures !IsConfirmed(s) && IsConfirmed(Step(s, e)) ==> e.EvReading? && Confirms(e.r) && e.r.block >= BlockOf(s)
  {
  }

  /** Over any sequence of readings, in any block order and with any failures, a confirmed
      row is sound and the stored block never decreases. */
  lemma {:induction false} BlockNeverDecreases(s: State, es: seq<Event>)
    requires Sound(s)
    ensures Sound(Run(s, es)) && BlockOf(s) <= BlockOf(Run(s, es))
  {
    if es != [] {
      BlockNeverDecreases(s, es[..|es| - 1]);
      StepKeeps(Run(s, es[..|es| - 1]), es[|es| - 1]);
    }
  }

  /** A confirmed position that is not confirmed at the end of a run met, somewhere in it, an
      event that may un-confirm it. */
  lemma {:induction false} OnlyGoodEvidenceUnconfirms(s: State, es: seq<Event>) returns (i: nat)
    requires Sound(s) && IsConfirmed(s) && !IsConfirmed(Run(s, es))
    ensures i < |es| && IsConfirmed(Run(s, es[..i])) && MayUnconfirm(Run(s, es[..i]), es[i])
  {
    var before := Run(s, es[..|es| - 1]);
    BlockNeverDecreases(s, es[..|es| - 1]);
    if IsConfirmed(before) {
      StepKeeps(before, es[|es| - 1]);
      i := |es| - 1;
    } else {
      i := OnlyGoodEvidenceUnconfirms(s, es[..|es| - 1]);
      assert es[..|es| - 1][..i] == es[..i];
    }
  }

  /** A reading is lost with its whole transaction exactly when it confirms a V4 position that
      was not confirmed before, on fees alone, while its liquidity query failed. */
  lemma PersistThrowsIff(s: State, r: Reading)
    ensures Persist(s, r).None? <==>
              (s.row.Some? ==>
                 (s.row.value.checkBlock.Some? ==> s.row.value.checkBlock.value <= r.block)
                 && !(s.row.value.confirmed && s.row.value.terminal.None?))
              && r.protocol.V4? && r.owner == OwnedBy(true) && r.position.PositionFailed? && r.fees.Fees?
              && (Fee(r.fees.stored, GrowthSince(r.fees.inside0, r.fees.last0)) > 0 || Fee(r.fees.stored, GrowthSince(r.fees.inside1, r.fees.last1)) > 0)
  {
    if Unwritable(r) {
      assert HasError(r);
    }
  }

  // ---- what a reading stores ----

  /** The growth since the last collection: counted up from `last`, the word wraps to `inside`. */
  predicate Grew(inside: Word, last: Word, growth: nat) {
    growth < 0x1_0000_0000_0000_0000_0000_0000_0000_0000 * 0x1_0000_0000_0000_0000_0000_0000_0000_0000
    && (last + growth == inside || last + growth == inside + TWO_256)
  }

  /** The fees of a liquidity, floored: `fee` units of 2^128 fit into what has grown. */
  ghost predicate FeesAre(liquidity: nat, inside: Word, last: Word, fee: Option<nat>) {
    fee.Some? && exists growth: nat :: Grew(inside, last, growth) && Floors(liquidity * growth, fee.value)
  }

  predicate Floors(amount: nat, fee: nat) {
    fee * 0x1_0000_0000_0000_0000_0000_0000_0000_0000 <= amount < (fee + 1) * 0x1_0000_0000_0000_0000_0000_0000_0000_0000
  }

  /** Token by token: V3 stores what the position owes; V4 stores the fees grown on the
      liquidity read, or on the stored one when that read failed, if the wallet owns the
      position and all fee queries answered; anything else stores no amount. */
  ghost predicate ClaimablesRight(r: Reading, row: Row) {
    match r.protocol
    case V3 =>
      && row.claimable0 == (if r.position.Position? then Some(r.position.owed0) else None)
      && row.claimable1 == (if r.position.Position? then Some(r.position.owed1) else None)
    case V4 =>
      if r.owner == OwnedBy(true) && r.fees.Fees? then
        var liquidity := if r.position.Position? then r.position.liquidity else r.fees.stored;
        FeesAre(liquidity, r.fees.inside0, r.fees.last0, row.claimable0) && FeesAre(liquidity, r.fees.inside1, r.fees.last1, row.claimable1)
      else row.claimable0.None? && row.claimable1.None?
  }

  predicate Positive(amount: Option<nat>) {
    amount.Some? && amount.value > 0
  }

  /** What the row says against the reading: owner and liquidity as read, a terminal reason
      exactly when it shows one, confirmed exactly when the wallet owns something. */
  predicate VerdictRight(r: Reading, row: Row) {
    && row.owner == (match r.owner case OwnedBy(mine) => (if mine then VERIFIED_OWNED else VERIFIED_UNOWNED)
                                   case NoSuchToken => NONEXISTENT case OwnerFailed => UNKNOWN)
    && row.liquidity == (if r.position.Position? then Some(r.position.liquidity) else None)
    && (row.terminal == Some(BURNED) <==> r.owner.NoSuchToken? && (r.protocol.V3? || r.burnProven))
    && (row.terminal == Some(TRANSFERRED_OUT) <==> r.owner == OwnedBy(false) && r.sentByWallet)
    && (row.terminal == Some(OWNERSHIP_LOST) <==> r.owner == OwnedBy(false) && !r.sentByWallet)
    && (row.terminal == Some(CLOSED_EMPTY) <==>
          r.owner == OwnedBy(true) && row.liquidity == Some(0) && !Positive(row.claimable0) && !Positive(row.claimable1))
    && row.terminal != Some(REPLACED)
    && (row.confirmed <==> r.owner == OwnedBy(true) && (Positive(row.liquidity) || Positive(row.claimable0) || Positive(row.claimable1)))
    && row.contributesEquity == row.confirmed
  }

  /** When it was checked, how long it is fresh, and how often it has failed. */
  predicate TimesRight(s: State, r: Reading, row: Row) {
    && row.checkBlock == Some(r.block) && row.checkedAt == r.now
    && (row.error <==> r.owner.OwnerFailed? || (r.owner.OwnedBy? && r.position.PositionFailed?)
                       || (r.owner.NoSuchToken? && r.protocol.V4? && !r.burnProven))
    && row.freshUntil == (if row.error then r.now else r.now + r.ttl)
    && row.retries == (if row.error && s.row.Some? then s.row.value.retries + 1 else 0)
  }

  predicate LocalRight(s: State, row: Row, local: LocalStatus) {
    if row.terminal == Some(BURNED) then local.BURNED_LOCALLY?
    else if row.terminal.Some? then local.CLOSED?
    else if row.confirmed then local.OPEN? else local == s.local
  }

  /** An older reading changes nothing, a failed one of a confirmed position only its times,
      and every other one that is not lost is stored whole. */
  ghost predicate StoresReading(s: State, r: Reading, t: State) {
    var older := s.row.Some? && s.row.value.checkBlock.Some? && r.block < s.row.value.checkBlock.value;
    var failed := r.owner.OwnerFailed? || (r.owner.OwnedBy? && r.position.PositionFailed?)
                  || (r.owner.NoSuchToken? && r.protocol.V4? && !r.burnProven);
    if older then t == s
    else if failed && s.row.Some? && s.row.value.confirmed && s.row.value.terminal.None? then
      t == s.(row := Some(s.row.value.(checkedAt := r.now, freshUntil := r.now, retries := s.row.value.retries + 1, error := true)))
    else
      t.row.Some? && ClaimablesRight(r, t.row.value) && VerdictRight(r, t.row.value) && TimesRight(s, r, t.row.value)
      && LocalRight(s, t.row.value, t.local)
  }

  lemma PersistStores(s: State, r: Reading)
    requires Persist(s, r).Some?
    ensures StoresReading(s, r, Persist(s, r).value)
  {
    ClaimablesOf(r);
  }

  lemma ClaimablesOf(r: Reading)
    ensures forall row: Row :: row.claimable0 == ClaimableOf(r).0 && row.claimable1 == ClaimableOf(r).1 ==> ClaimablesRight(r, row)
  {
    if r.protocol.V4? && r.owner == OwnedBy(true) && r.fees.Fees? {
      var liquidity := if r.position.Position? then r.position.liquidity else r.fees.stored;
      FeeIs(liquidity, r.fees.inside0, r.fees.last0);
      FeeIs(liquidity, r.fees.inside1, r.fees.last1);
    }
  }

  lemma FeeIs(liquidity: nat, inside: Word, last: Word)
    ensures FeesAre(liquidity, inside, last, Some(Fee(liquidity, GrowthSince(inside, last))))
  {
    var growth := GrowthSince(inside, last);
    assert Grew(inside, last, growth);
    FloorOf(liquidity * growth);
  }

  lemma FloorOf(amount: nat)
    ensures Floors(amount, amount / Q128)
  {
  }

  // ---- what is shown ----

  datatype Classification = CONFIRMED_ACTIVE_FRESH | CONFIRMED_ACTIVE_REFRESHING | OPEN_CONFIRMING | PENDING_NEVER_VERIFIED | TERMINAL

  /** `activePositionTruth` for one position; `mintKnown` is the presentation state of a mint
      that is known from its receipt only. */
  function Classify(s: State, mintKnown: bool, now: int): Classification {
    var terminal := (s.row.Some? && s.row.value.terminal.Some?) || s.local.CLOSED? || s.local.BURNED_LOCALLY?;
    var verified := IsConfirmed(s) && !terminal;
    if terminal then TERMINAL
    else if verified && s.row.value.freshUntil > now then CONFIRMED_ACTIVE_FRESH
    else if verified then CONFIRMED_ACTIVE_REFRESHING
    else if mintKnown then OPEN_CONFIRMING
    else PENDING_NEVER_VERIFIED
  }

  /** What is shown: terminal when the row or the local status says so, active when confirmed and
      not terminal, fresh until the stored time, and otherwise what is known of its mint. */
  lemma ShownIff(s: State, mintKnown: bool, now: int)
    ensures var c := Classify(s, mintKnown, now); var over := (s.row.Some? && s.row.value.terminal.Some?) || s.local.CLOSED? || s.local.BURNED_LOCALLY?;
            var active := s.row.Some? && s.row.value.confirmed && !over;
            && (c.TERMINAL? <==> over)
            && (c.CONFIRMED_ACTIVE_FRESH? <==> active && s.row.value.freshUntil > now)
            && (c.CONFIRMED_ACTIVE_REFRESHING? <==> active && s.row.value.freshUntil <= now)
            && (c.OPEN_CONFIRMING? <==> !over && !active && mintKnown)
  {
  }

  /** A mint known from its receipt only adds an unverified row, and makes an unconfirmed one due. */
  lemma MintRecords(s: State, now: int)
    ensures var t := MarkOpenConfirming(s, now);
            && t.local == s.local
            && (s.row.None? ==> t.row == Some(Row(UNKNOWN, None, None, None, None, false, false, None, now, now, 0, false)))
            && (s.row.Some? ==> t.row == Some(if s.row.value.confirmed then s.row.value else s.row.value.(freshUntil := now)))
  {
  }

  /** After a failed reading a confirmed position is still shown as active, but never as fresh. */
  lemma FailuresKeepPresentation(s: State, r: Reading, mintKnown: bool, now: int)
    requires Sound(s) && HasError(r) && !Outdated(s, r) && r.now <= now
    requires Classify(s, mintKnown, now).CONFIRMED_ACTIVE_FRESH? || Classify(s, mintKnown, now).CONFIRMED_ACTIVE_REFRESHING?
    ensures Persist(s, r).Some? && Classify(Persist(s, r).value, mintKnown, now).CONFIRMED_ACTIVE_REFRESHING?
  {
  }

  // ---- the row as it is updated in place ----

  class TruthStore {
    var row: Option<Row>
    var local: LocalStatus

    function Stored(): State
      reads this
    {
      State(row, local)
    }

    constructor (local: LocalStatus)
      ensures Stored() == State(None, local) && Sound(Stored())
    {
      row, this.local := None, local;
    }

    method PersistReading(r: Reading) returns (ok: bool)
      modifies this
      ensures var t := Persist(old(Stored()), r);
              ok == t.Some? && Stored() == if ok then t.value else old(Stored())
      ensures ok ==> StoresReading(old(Stored()), r, Stored())
    {
      if Persist(Stored(), r).Some? { PersistStores(Stored(), r); }
      if Outdated(Stored(), r) { return true; }
      if HasError(r) && StillConfirmed(Stored()) {
        row := Some(row.value.(checkedAt := r.now, freshUntil := r.now, retries := row.value.retries + 1, error := true));
        return true;
      }
      var before, beforeLocal := row, local;
      var retries := if HasError(r) && row.Some? then row.value.retries + 1 else 0;
      row := Some(Row(OwnerOf(r), LiquidityOf(r), ClaimableOf(r).0, ClaimableOf(r).1, TerminalOf(r), Confirms(r), Confirms(r),
                      Some(r.block), r.now, if HasError(r) then r.now else r.now + r.ttl, retries, HasError(r)));
      if TerminalOf(r).Some? {
        local := if TerminalOf(r) == Some(BURNED) then BURNED_LOCALLY else CLOSED;
      } else if Confirms(r) {
        local := OPEN;
        if Unwritable(r) {
          row, local := before, beforeLocal;
          return false;
        }
      }
      return true;
    }

    method SettleClosedPosition(now: int)
      modifies this
      ensures Stored() == SettleClosed(old(Stored()), now)
      ensures !IsConfirmed(Stored()) && BlockOf(Stored()) == BlockOf(old(Stored())) && (Sound(old(Stored())) ==> Sound(Stored()))
      ensures local.CLOSED? && (row.Some? <==> old(row).Some?)
      ensures row.Some? ==>
                row.value.owner.VERIFIED_OWNED? && row.value.liquidity == Some(0) && row.value.claimable0 == Some(0)
                && row.value.claimable1 == Some(0) && row.value.terminal == Some(CLOSED_EMPTY) && !row.value.contributesEquity && !row.value.error
                && row.value.retries == old(row).value.retries
                && (row == old(row) || (row.value.checkedAt == Max(old(row).value.checkedAt, now) && row.value.freshUntil == Max(old(row).value.freshUntil, now)))
    {
      local := CLOSED;
      if row.None? { return; }
      var r := row.value;
      if !(r.owner.VERIFIED_OWNED? && r.liquidity == Some(0) && r.claimable0 == Some(0) && r.claimable1 == Some(0)
           && r.terminal == Some(CLOSED_EMPTY) && !r.confirmed && !r.contributesEquity && !r.error) {
        row := Some(r.(owner := VERIFIED_OWNED, liquidity := Some(0), claimable0 := Some(0), claimable1 := Some(0),
                       terminal := Some(CLOSED_EMPTY), confirmed := false, contributesEquity := false,
                       checkedAt := Max(r.checkedAt, now), freshUntil := Max(r.freshUntil, now), error := false));
      }
    }
  }
}
