/** The chain journal: one row per attempt of a workflow stage, and the only ways a row is
    inserted or changes its status. */
module Journal {
  import opened Prelude
  import opened Evidence

  datatype Key = Key(workflow: nat, stage: nat)
  datatype Status = PREPARED | SUBMITTED | CONFIRMED | FAILED
  datatype Row = Row(status: Status, tx: Tx)

  /** The rows of each stage by attempt. */
  type Journal = map<Key, seq<Row>>

  function Rows(j: Journal, key: Key): seq<Row> {
    if key in j then j[key] else []
  }

  predicate Unresolved(row: Row) {
    row.status.PREPARED? || row.status.SUBMITTED?
  }

  predicate Live(row: Row) {
    !row.status.FAILED?
  }

  predicate Has(j: Journal, key: Key, attempt: nat, tx: Tx) {
    attempt < |Rows(j, key)| && Rows(j, key)[attempt].tx == tx
  }

  predicate NonceTaken(j: Journal, nonce: nat) {
    exists key <- j, i | 0 <= i < |j[key]| :: Live(j[key][i]) && j[key][i].tx.nonce == nonce
  }

  predicate HashTaken(j: Journal, tx: Tx) {
    exists key <- j, i | 0 <= i < |j[key]| :: j[key][i].tx == tx
  }

  /** `persistPrepared`. The journal contract inserts once per attempt (`strict`); the ledger
      behind it also accepts an existing row that holds the same transaction. */
  function PersistPrepared(strict: bool, j: Journal, key: Key, attempt: nat, tx: Tx): Option<Journal> {
    var rows := Rows(j, key);
    if attempt < |rows| then
      if !strict && rows[attempt].tx == tx then Some(j) else None
    else if attempt > |rows| || NonceTaken(j, tx.nonce) || HashTaken(j, tx) then None
    else Some(j[key := rows + [Row(PREPARED, tx)]])
  }

  function SetStatus(j: Journal, key: Key, attempt: nat, status: Status): Journal
    requires attempt < |Rows(j, key)|
  {
    j[key := Rows(j, key)[attempt := Row(status, Rows(j, key)[attempt].tx)]]
  }

  /** `reconcileDurableChainTransaction`: terminal rows stay, another hash throws. */
  function Settle(j: Journal, key: Key, attempt: nat, tx: Tx, verdict: Status): Option<Journal>
    requires verdict.CONFIRMED? || verdict.FAILED?
  {
    if attempt >= |Rows(j, key)| then Some(j)
    else if Rows(j, key)[attempt].tx != tx then None
    else if !Unresolved(Rows(j, key)[attempt]) then Some(j)
    else Some(SetStatus(j, key, attempt, verdict))
  }

  /** A caller advances its own attempt when it sees the newest row of the stage in status
      `from`; when its own row is in another status the guarded update throws. */
  function Advance(j: Journal, key: Key, attempt: nat, from: Status, to: Status): Option<Journal> {
    var rows := Rows(j, key);
    if rows == [] || rows[|rows| - 1].status != from then Some(j)
    else if attempt < |rows| && rows[attempt].status == from then Some(SetStatus(j, key, attempt, to))
    else None
  }

  /** The reverted receipt recorded by `submit`: it fails the newest row of the stage. */
  function FailNewest(j: Journal, key: Key): Journal {
    var rows := Rows(j, key);
    if rows == [] || !Unresolved(rows[|rows| - 1]) then j else SetStatus(j, key, |rows| - 1, FAILED)
  }

  // ---- what each update records ----

  /** No row comes or goes, and all rows but one stay as they are. */
  ghost predicate SameBut(j: Journal, k: Journal, key: Key, attempt: nat) {
    forall other: Key :: |Rows(k, other)| == |Rows(j, other)|
      && forall i: nat :: i < |Rows(j, other)| && !(other == key && i == attempt) ==> Rows(k, other)[i] == Rows(j, other)[i]
  }

  lemma SetStatusRecords(j: Journal, key: Key, attempt: nat, status: Status)
    requires attempt < |Rows(j, key)|
    ensures var k := SetStatus(j, key, attempt, status);
            SameBut(j, k, key, attempt) && Rows(k, key)[attempt] == Row(status, Rows(j, key)[attempt].tx)
  {
    var k := SetStatus(j, key, attempt, status);
    assert forall other :: other != key ==> Rows(k, other) == Rows(j, other);
  }

  /** What an insert does: it adds one PREPARED row and nothing else, exactly for the next
      attempt of the stage with a nonce no live row holds and a hash no row has; the ledger
      also accepts the row it already holds. */
  lemma InsertIff(strict: bool, j: Journal, key: Key, attempt: nat, tx: Tx)
    ensures var s := PersistPrepared(strict, j, key, attempt, tx); var n := |Rows(j, key)|;
            && (s.Some? <==>
                  || (!strict && Has(j, key, attempt, tx))
                  || (attempt == n
                      && forall other: Key, i: nat :: i < |Rows(j, other)| ==>
                           Rows(j, other)[i].tx != tx && (Rows(j, other)[i].status.FAILED? || Rows(j, other)[i].tx.nonce != tx.nonce)))
            && (s.Some? && attempt < n ==> s.value == j)
            && (s.Some? && attempt == n ==> s.value == j[key := Rows(j, key) + [Row(PREPARED, tx)]])
  {
    if attempt == |Rows(j, key)| && PersistPrepared(strict, j, key, attempt, tx).Some? {
      forall other: Key, i: nat | i < |Rows(j, other)|
        ensures Rows(j, other)[i].tx != tx && (Rows(j, other)[i].status.FAILED? || Rows(j, other)[i].tx.nonce != tx.nonce)
      {
        assert other in j && j[other] == Rows(j, other) && 0 <= i < |j[other]|;
      }
    } else if attempt == |Rows(j, key)| {
      TakenBySome(j, tx);
    }
  }

  lemma TakenBySome(j: Journal, tx: Tx)
    requires NonceTaken(j, tx.nonce) || HashTaken(j, tx)
    ensures exists other: Key, i: nat :: i < |Rows(j, other)|
              && (Rows(j, other)[i].tx == tx || (!Rows(j, other)[i].status.FAILED? && Rows(j, other)[i].tx.nonce == tx.nonce))
  {
    var other: Key, i: int :| other in j && 0 <= i < |j[other]| && (j[other][i].tx == tx || (Live(j[other][i]) && j[other][i].tx.nonce == tx.nonce));
    assert Rows(j, other)[i] == j[other][i];
  }

  /** Terminal evidence is recorded: an open row of the transaction takes the verdict, a
      terminal one stays, and only a row of another transaction is refused. */
  lemma SettleRecords(j: Journal, key: Key, attempt: nat, tx: Tx, verdict: Status)
    requires verdict.CONFIRMED? || verdict.FAILED?
    ensures var s := Settle(j, key, attempt, tx, verdict);
            && (s.None? <==> attempt < |Rows(j, key)| && !Has(j, key, attempt, tx))
            && (s.Some? ==> SameBut(j, s.value, key, attempt))
            && (Has(j, key, attempt, tx) ==>
                  Rows(s.value, key)[attempt] == if Unresolved(Rows(j, key)[attempt]) then Row(verdict, tx) else Rows(j, key)[attempt])
  {
    if Has(j, key, attempt, tx) && Unresolved(Rows(j, key)[attempt]) {
      SetStatusRecords(j, key, attempt, verdict);
    }
  }

  /** An advance is recorded on the caller's own row, and refused exactly when the newest row
      is due and the caller's own is not. */
  lemma AdvanceRecords(j: Journal, key: Key, attempt: nat, from: Status, to: Status)
    ensures var rows := Rows(j, key); var a := Advance(j, key, attempt, from, to);
            && (a.None? <==> rows != [] && rows[|rows| - 1].status == from && !(attempt < |rows| && rows[attempt].status == from))
            && (a.Some? ==> SameBut(j, a.value, key, attempt))
            && (a.Some? && attempt < |rows| ==>
                  Rows(a.value, key)[attempt]
                  == if rows[attempt].status == from && rows[|rows| - 1].status == from then Row(to, rows[attempt].tx) else rows[attempt])
  {
    var rows := Rows(j, key);
    if attempt < |rows| && rows[attempt].status == from && rows[|rows| - 1].status == from {
      SetStatusRecords(j, key, attempt, to);
    }
  }

  // ---- order of the rows ----

  /** Only the newest attempt of a stage can be anything but FAILED. */
  ghost predicate Ordered(j: Journal) {
    forall key: Key, i: nat :: i + 1 < |Rows(j, key)| ==> Rows(j, key)[i].status.FAILED?
  }

  ghost predicate NoncesDistinct(j: Journal) {
    forall k1: Key, i1: nat, k2: Key, i2: nat ::
      (i1 < |Rows(j, k1)| && i2 < |Rows(j, k2)| && Live(Rows(j, k1)[i1]) && Live(Rows(j, k2)[i2])
       && Rows(j, k1)[i1].tx.nonce == Rows(j, k2)[i2].tx.nonce) ==> k1 == k2 && i1 == i2
  }

  predicate Forward(a: Status, b: Status) {
    match a
    case PREPARED => true
    case SUBMITTED => !b.PREPARED?
    case _ => a == b
  }

  /** Rows keep their transaction and only move forward; a new attempt comes after a failed one. */
  ghost predicate Grows(j: Journal, k: Journal) {
    forall key: Key ::
      |Rows(j, key)| <= |Rows(k, key)|
      && forall i: nat :: i < |Rows(j, key)| ==>
           Rows(k, key)[i].tx == Rows(j, key)[i].tx && Forward(Rows(j, key)[i].status, Rows(k, key)[i].status)
  }

  ghost predicate JournalOk(j: Journal) {
    Ordered(j) && NoncesDistinct(j)
  }

  lemma NoncesStay(j: Journal, k: Journal)
    requires NoncesDistinct(j)
    requires forall key: Key, i: nat :: i < |Rows(k, key)| && Live(Rows(k, key)[i]) ==>
               i < |Rows(j, key)| && Live(Rows(j, key)[i]) && Rows(j, key)[i].tx == Rows(k, key)[i].tx
    ensures NoncesDistinct(k)
  {
  }

  lemma SetStatusKeeps(j: Journal, key: Key, attempt: nat, status: Status)
    requires JournalOk(j) && attempt < |Rows(j, key)| && Unresolved(Rows(j, key)[attempt])
    requires Forward(Rows(j, key)[attempt].status, status)
    ensures JournalOk(SetStatus(j, key, attempt, status)) && Grows(j, SetStatus(j, key, attempt, status))
  {
    var k := SetStatus(j, key, attempt, status);
    assert forall other :: other != key ==> Rows(k, other) == Rows(j, other);
    assert Ordered(k) by { assert attempt == |Rows(j, key)| - 1; }
    assert NoncesDistinct(k) by { NoncesStay(j, k); }
  }

  /** An inserted row comes after a failed attempt. */
  lemma PersistKeeps(strict: bool, j: Journal, key: Key, attempt: nat, tx: Tx)
    requires JournalOk(j) && PersistPrepared(strict, j, key, attempt, tx).Some?
    requires forall i: nat :: i < attempt && i < |Rows(j, key)| ==> Rows(j, key)[i].status.FAILED?
    ensures var k := PersistPrepared(strict, j, key, attempt, tx).value;
            JournalOk(k) && Grows(j, k) && Has(k, key, attempt, tx)
            && (strict ==> attempt == |Rows(j, key)| && |Rows(k, key)| == attempt + 1)
  {
    if attempt == |Rows(j, key)| {
      var k := PersistPrepared(strict, j, key, attempt, tx).value;
      assert forall other :: other != key ==> Rows(k, other) == Rows(j, other);
      assert NoncesDistinct(k) by { InsertedNonce(j, key, tx); }
    }
  }

  lemma InsertedNonce(j: Journal, key: Key, tx: Tx)
    requires NoncesDistinct(j) && !NonceTaken(j, tx.nonce)
    ensures NoncesDistinct(j[key := Rows(j, key) + [Row(PREPARED, tx)]])
  {
    var k := j[key := Rows(j, key) + [Row(PREPARED, tx)]];
    forall k1: Key, i1: nat, k2: Key, i2: nat |
      i1 < |Rows(k, k1)| && i2 < |Rows(k, k2)| && Live(Rows(k, k1)[i1]) && Live(Rows(k, k2)[i2])
      && Rows(k, k1)[i1].tx.nonce == Rows(k, k2)[i2].tx.nonce
      ensures k1 == k2 && i1 == i2
    {
      OldOrNew(j, key, tx, k1, i1);
      OldOrNew(j, key, tx, k2, i2);
    }
  }

  /** A live row after the insert is the inserted one, or an old one with another nonce. */
  lemma OldOrNew(j: Journal, key: Key, tx: Tx, k1: Key, i1: nat)
    requires !NonceTaken(j, tx.nonce)
    requires var k := j[key := Rows(j, key) + [Row(PREPARED, tx)]]; i1 < |Rows(k, k1)| && Live(Rows(k, k1)[i1])
    ensures var row := Rows(j[key := Rows(j, key) + [Row(PREPARED, tx)]], k1)[i1];
            if k1 == key && i1 == |Rows(j, key)| then row.tx == tx
            else i1 < |Rows(j, k1)| && Rows(j, k1)[i1] == row && row.tx.nonce != tx.nonce
  {
    if !(k1 == key && i1 == |Rows(j, key)|) {
      assert k1 in j && j[k1] == Rows(j, k1) && Live(j[k1][i1]);
    }
  }

  lemma SettleKeeps(j: Journal, key: Key, attempt: nat, tx: Tx, verdict: Status)
    requires JournalOk(j) && (verdict.CONFIRMED? || verdict.FAILED?) && Settle(j, key, attempt, tx, verdict).Some?
    ensures JournalOk(Settle(j, key, attempt, tx, verdict).value) && Grows(j, Settle(j, key, attempt, tx, verdict).value)
  {
    if attempt < |Rows(j, key)| && Unresolved(Rows(j, key)[attempt]) {
      SetStatusKeeps(j, key, attempt, verdict);
    }
  }

  lemma AdvanceKeeps(j: Journal, key: Key, attempt: nat, from: Status, to: Status)
    requires JournalOk(j) && Advance(j, key, attempt, from, to).Some?
    requires (from.PREPARED? && to.SUBMITTED?) || (from.SUBMITTED? && to.CONFIRMED?)
    ensures JournalOk(Advance(j, key, attempt, from, to).value) && Grows(j, Advance(j, key, attempt, from, to).value)
  {
    var rows := Rows(j, key);
    if rows != [] && rows[|rows| - 1].status == from {
      SetStatusKeeps(j, key, attempt, to);
    }
  }

  lemma FailNewestKeeps(j: Journal, key: Key)
    requires JournalOk(j)
    ensures JournalOk(FailNewest(j, key)) && Grows(j, FailNewest(j, key))
  {
    var rows := Rows(j, key);
    if rows != [] && Unresolved(rows[|rows| - 1]) {
      SetStatusKeeps(j, key, |rows| - 1, FAILED);
    }
  }

  lemma GrowsTransitive(j: Journal, k: Journal, l: Journal)
    requires Grows(j, k) && Grows(k, l)
    ensures Grows(j, l)
  {
    forall key: Key, i: nat | i < |Rows(j, key)|
      ensures Rows(l, key)[i].tx == Rows(j, key)[i].tx && Forward(Rows(j, key)[i].status, Rows(l, key)[i].status)
    {
      assert Rows(k, key)[i].tx == Rows(j, key)[i].tx;
    }
  }
}
