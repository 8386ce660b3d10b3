/** Concurrent log scanners over one compare-and-set cursor. */
module LogScan {
  import opened Prelude

  datatype Window = Window(from: int, to: int)

  /** The stored cursor row, with the windows committed through it. */
  datatype Cursor = Cursor(first: int, next: int, windows: seq<Window>)

  function WindowEnd(from: int, size: nat, latest: int): int {
    if from + size - 1 < latest then from + size - 1 else latest
  }

  /** The guarded update of one transaction: it commits only while the cursor is where the
      scanner read it. */
  function Commit(c: Cursor, from: int, to: int): (Cursor, bool) {
    if c.next == from then (Cursor(c.first, to + 1, c.windows + [Window(from, to)]), true) else (c, false)
  }

  // ---- what is committed ----

  /** The windows are contiguous, nonempty, and run from the first block to the cursor. */
  predicate Tiles(c: Cursor) {
    && (forall i :: 0 <= i < |c.windows| ==> c.windows[i].from <= c.windows[i].to)
    && (forall i :: 0 <= i < |c.windows| - 1 ==> c.windows[i + 1].from == c.windows[i].to + 1)
    && (if c.windows == [] then c.next == c.first
        else c.windows[0].from == c.first && c.windows[|c.windows| - 1].to + 1 == c.next)
  }

  predicate Covers(w: Window, block: int) {
    w.from <= block <= w.to
  }

  /** Some committed window holds the block. */
  predicate Scanned(c: Cursor, block: int) {
    exists i | 0 <= i < |c.windows| :: Covers(c.windows[i], block)
  }

  lemma {:induction false} WindowsInOrder(c: Cursor, i: nat, j: nat)
    requires Tiles(c) && i < j < |c.windows|
    ensures c.windows[i].to < c.windows[j].from
    decreases j
  {
    if i < j - 1 {
      WindowsInOrder(c, i, j - 1);
    }
  }

  lemma {:induction false} TilesPrefix(c: Cursor)
    requires Tiles(c) && c.windows != []
    ensures Tiles(Cursor(c.first, c.windows[|c.windows| - 1].from, c.windows[..|c.windows| - 1]))
  {
  }

  /** A block is in some committed window exactly when it lies between the first block and
      the cursor, and then in only one. */
  lemma {:induction false} CommittedExactly(c: Cursor, block: int)
    requires Tiles(c)
    ensures Scanned(c, block) <==> c.first <= block < c.next
    ensures forall i, j :: 0 <= i < |c.windows| && 0 <= j < |c.windows| && Covers(c.windows[i], block) && Covers(c.windows[j], block) ==> i == j
    decreases |c.windows|
  {
    forall i, j | 0 <= i < j < |c.windows| ensures !(Covers(c.windows[i], block) && Covers(c.windows[j], block)) {
      WindowsInOrder(c, i, j);
    }
    if c.windows != [] {
      var n := |c.windows| - 1;
      var p := Cursor(c.first, c.windows[n].from, c.windows[..n]);
      TilesPrefix(c);
      CommittedExactly(p, block);
      FirstBeforeNext(p);
      if Covers(c.windows[n], block) {
        assert c.first <= block;
      }
      forall i | 0 <= i < n ensures p.windows[i] == c.windows[i] {
      }
    }
  }

  lemma {:induction false} FirstBeforeNext(c: Cursor)
    requires Tiles(c)
    ensures c.first <= c.next
    decreases |c.windows|
  {
    if c.windows != [] {
      TilesPrefix(c);
      FirstBeforeNext(Cursor(c.first, c.windows[|c.windows| - 1].from, c.windows[..|c.windows| - 1]));
    }
  }

  // ---- every interleaving ----

  /** A scanner tries to commit the window from the cursor it read earlier, up to the latest
      block it knows; it only tries when that window is not empty. */
  datatype Attempt = Attempt(from: int, size: nat, latest: int)

  function Step(c: Cursor, a: Attempt): Cursor {
    if a.size >= 1 && a.from <= a.latest then Commit(c, a.from, WindowEnd(a.from, a.size, a.latest)).0 else c
  }

  function Run(c: Cursor, attempts: seq<Attempt>): Cursor {
    if attempts == [] then c else Step(Run(c, attempts[..|attempts| - 1]), attempts[|attempts| - 1])
  }

  /** Whatever the scanners read and in whatever order they commit, the committed windows are
      disjoint, contiguous, and together exactly the blocks from the first to the cursor. */
  lemma {:induction false} ScannersTile(c: Cursor, attempts: seq<Attempt>)
    requires Tiles(c)
    ensures Tiles(Run(c, attempts)) && Run(c, attempts).first == c.first && c.next <= Run(c, attempts).next
  {
    if attempts != [] {
      ScannersTile(c, attempts[..|attempts| - 1]);
    }
  }

  // ---- one scanner ----

  /** The cursor after `windows` full windows, cut at the latest block. */
  function Reached(from: int, size: nat, latest: int, windows: nat): int {
    if windows == 0 then from else Min(latest + 1, Reached(from, size, latest, windows - 1) + size)
  }

  lemma {:induction false} ReachedIs(from: int, size: nat, latest: int, windows: nat)
    requires from <= latest + 1
    ensures Reached(from, size, latest, windows) == Min(latest + 1, from + windows * size)
  {
    if windows > 0 {
      ReachedIs(from, size, latest, windows - 1);
      assert windows * size == (windows - 1) * size + size;
    }
  }

  datatype Summary = Summary(nextBlock: int, windows: nat, complete: bool)

  class CursorStore {
    var row: Cursor

    constructor (initial: int)
      ensures row == Cursor(initial, initial, [])
    {
      row := Cursor(initial, initial, []);
    }

    /** `scanProtocol`. `rivals[k]` are the commits other scanners try while the logs of the
        k-th window are being fetched. */
    method Scan(latest: int, windowSize: nat, maxWindows: nat, rivals: seq<seq<Attempt>>) returns (r: Summary)
      requires Tiles(row) && windowSize >= 1 && |rivals| >= maxWindows
      modifies this
      ensures Tiles(row) && row.first == old(row.first) && old(row.next) <= row.next
      ensures r.windows <= maxWindows && old(row.next) <= r.nextBlock <= row.next
      ensures r.complete <==> r.nextBlock > latest
      ensures r.complete ==> forall block :: row.first <= block <= latest ==> Scanned(row, block)
      ensures !r.complete ==> r.windows == maxWindows || row.next != r.nextBlock
      ensures r.nextBlock == Reached(old(row.next), windowSize, latest, r.windows)
    {
      var cursor, windows := row.next, 0;
      var lost := false;
      while cursor <= latest && windows < maxWindows && !lost
        invariant Tiles(row) && row.first == old(row.first) && old(row.next) <= cursor <= row.next
        invariant windows <= maxWindows && (lost ==> row.next != cursor)
        invariant cursor == Reached(old(row.next), windowSize, latest, windows)
        decreases !lost, maxWindows - windows
      {
        var end := WindowEnd(cursor, windowSize, latest);
        lost := LosesWindow(cursor, end, rivals[windows]);
        if !lost { cursor, windows := end + 1, windows + 1; }
      }
      if cursor > latest {
        forall block | row.first <= block <= latest ensures Scanned(row, block) {
          CommittedExactly(row, block);
        }
      }
      return Summary(cursor, windows, cursor > latest);
    }

    /** One window: its logs are fetched while rivals commit, and then it is committed, unless
        the cursor has moved. */
    method LosesWindow(cursor: int, end: int, rivals: seq<Attempt>) returns (lost: bool)
      requires Tiles(row) && cursor <= row.next && cursor <= end
      modifies this
      ensures Tiles(row) && row.first == old(row.first) && old(row.next) <= row.next
      ensures lost ==> row.next != cursor
      ensures !lost ==> row.next == end + 1 && row.windows == Run(old(row), rivals).windows + [Window(cursor, end)]
    {
      RivalsCommit(rivals);
      var (committed, ok) := Commit(row, cursor, end);
      if ok { row := committed; }
      lost := !ok;
    }

    method RivalsCommit(attempts: seq<Attempt>)
      requires Tiles(row)
      modifies this
      ensures row == Run(old(row), attempts) && Tiles(row) && row.first == old(row.first) && old(row.next) <= row.next
    {
      ghost var before := row;
      ScannersTile(row, attempts);
      for k := 0 to |attempts|
        invariant row == Run(before, attempts[..k])
      {
        assert attempts[..k + 1][..k] == attempts[..k];
        row := Step(row, attempts[k]);
      }
      assert attempts[..|attempts|] == attempts;
    }
  }
}
