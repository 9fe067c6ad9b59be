/** The scrollback ring: 2000 slots written round and round, each keeping the cells of earlier
    lines beyond the width of the last one, and the list of lines it stands for.
 */
module TerminalHistory {
  import opened Basics
  import opened TerminalModel
  import opened TerminalLines

  /** A slot of the scrollback ring; only the first `cols` cells belong to the line. */
  datatype Slot = Slot(cells: Row, cols: nat)

  function ZeroRow(): Row {
    seq(MAX_COLS, _ => ZERO)
  }

  ghost predicate RingOk(ring: seq<Slot>, head: nat, count: nat) {
    && |ring| == SCROLLBACK_MAX && count <= SCROLLBACK_MAX && head < SCROLLBACK_MAX
    && forall i :: 0 <= i < SCROLLBACK_MAX ==> ring[i].cols <= MAX_COLS
  }

  /** The line `i` places after the oldest. */
  function RingLine(ring: seq<Slot>, head: nat, i: nat): (l: Line)
    requires |ring| == SCROLLBACK_MAX && forall k :: 0 <= k < SCROLLBACK_MAX ==> ring[k].cols <= MAX_COLS
    ensures |l| <= MAX_COLS
  {
    var slot := ring[(head + i) % SCROLLBACK_MAX];
    var cells: Row := slot.cells;
    cells[..slot.cols]
  }

  /** The lines in the ring, oldest first. */
  function RingLines(ring: seq<Slot>, head: nat, count: nat): (h: seq<Line>)
    requires RingOk(ring, head, count)
    ensures HistoryOk(h) && |h| == count
  {
    seq(count, i requires 0 <= i < count => RingLine(ring, head, i))
  }

  // ---------------------------------------------------------------------------
  // The ring after all the lines that were ever scrolled off.

  predicate AllFit(lines: seq<Line>) {
    forall i :: 0 <= i < |lines| ==> |lines[i]| <= MAX_COLS
  }

  /** A line stored over what a slot held before. */
  function Stored(line: Line, before: Row): Slot
    requires |line| <= MAX_COLS
  {
    Slot(line + before[|line|..], |line|)
  }

  /** Slot `i` after the lines were stored one after the other, round and round. */
  function SlotAt(lines: seq<Line>, i: nat): (slot: Slot)
    requires AllFit(lines)
    ensures slot.cols <= MAX_COLS
  {
    if lines == [] then Slot(ZeroRow(), 0)
    else
      var n := |lines| - 1;
      var before := SlotAt(lines[..n], i);
      if n % SCROLLBACK_MAX == i then Stored(lines[n], before.cells) else before
  }

  /** The ring, its head and its count are what storing `lines` leaves. */
  ghost predicate RingHolds(ring: seq<Slot>, head: nat, count: nat, lines: seq<Line>) {
    && RingOk(ring, head, count) && AllFit(lines)
    && count == Min(|lines|, SCROLLBACK_MAX)
    && head == (if |lines| < SCROLLBACK_MAX then 0 else |lines| % SCROLLBACK_MAX)
    && forall i :: 0 <= i < SCROLLBACK_MAX ==> ring[i] == SlotAt(lines, i)
  }

  /** What the ring shows in column `k` of line `j`: the line itself, or beyond its width the
      latest earlier line of the same slot that is wide enough, or a zero cell. */
  function ShownCell(lines: seq<Line>, j: nat, k: nat): Cell
    requires j < |lines|
  {
    if k < |lines[j]| then lines[j][k]
    else if j >= SCROLLBACK_MAX then ShownCell(lines, j - SCROLLBACK_MAX, k)
    else ZERO
  }

  lemma {:induction false} ShownInPrefix(lines: seq<Line>, n: nat, j: nat, k: nat)
    requires j < n <= |lines|
    ensures ShownCell(lines[..n], j, k) == ShownCell(lines, j, k)
    decreases j
  {
    if k >= |lines[j]| && j >= SCROLLBACK_MAX {
      ShownInPrefix(lines, n, j - SCROLLBACK_MAX, k);
    }
  }

  /** Fewer than 2000 lines apart, two lines are in different slots. */
  lemma SlotsApart(i: nat, j: nat)
    requires i < j < i + SCROLLBACK_MAX
    ensures i % SCROLLBACK_MAX != j % SCROLLBACK_MAX
  {
  }

  lemma {:induction false} SlotStays(lines: seq<Line>, n: nat, i: nat)
    requires AllFit(lines) && n <= |lines| && forall j :: n <= j < |lines| ==> j % SCROLLBACK_MAX != i
    ensures SlotAt(lines, i) == SlotAt(lines[..n], i)
    decreases |lines|
  {
    if n == |lines| {
      assert lines[..n] == lines;
    } else {
      var m := |lines| - 1;
      SlotStays(lines[..m], n, i);
      assert lines[..m][..n] == lines[..n];
    }
  }

  /** The slot of one of the last 2000 lines was written last with that line. */
  lemma {:induction false} SlotOfLine(lines: seq<Line>, j: nat)
    requires AllFit(lines) && |lines| - SCROLLBACK_MAX <= j < |lines|
    ensures SlotAt(lines, j % SCROLLBACK_MAX) == Stored(lines[j], SlotAt(lines[..j], j % SCROLLBACK_MAX).cells)
  {
    hide SlotAt;
    forall m | j < m < |lines|
      ensures m % SCROLLBACK_MAX != j % SCROLLBACK_MAX
    {
      SlotsApart(j, m);
    }
    SlotStays(lines, j + 1, j % SCROLLBACK_MAX);
    LastStored(lines[..j + 1]);
    assert lines[..j + 1][..j] == lines[..j];
  }

  lemma {:induction false} LastStored(lines: seq<Line>)
    requires AllFit(lines) && lines != []
    ensures var n := |lines| - 1;
            SlotAt(lines, n % SCROLLBACK_MAX) == Stored(lines[n], SlotAt(lines[..n], n % SCROLLBACK_MAX).cells)
  {
  }

  lemma NothingStored(i: nat)
    ensures SlotAt([], i) == Slot(ZeroRow(), 0)
  {
  }

  lemma {:induction false} SlotShows(lines: seq<Line>, j: nat, k: nat)
    requires AllFit(lines) && |lines| - SCROLLBACK_MAX <= j < |lines| && k < MAX_COLS
    ensures SlotAt(lines, j % SCROLLBACK_MAX).cells[k] == ShownCell(lines, j, k)
    decreases j
  {
    hide SlotAt;
    SlotOfLine(lines, j);
    var i := j % SCROLLBACK_MAX;
    var before := SlotAt(lines[..j], i);
    if k >= |lines[j]| {
      if j >= SCROLLBACK_MAX {
        assert (j - SCROLLBACK_MAX) % SCROLLBACK_MAX == i;
        SlotShows(lines[..j], j - SCROLLBACK_MAX, k);
        ShownInPrefix(lines, j, j - SCROLLBACK_MAX, k);
      } else {
        SlotStays(lines[..j], 0, i);
        assert lines[..j][..0] == [];
        NothingStored(i);
      }
    }
  }

  /** Which line is `i` places after the oldest in the ring, and in which slot it is. */
  function LineNumber(lines: seq<Line>, i: nat): int {
    if |lines| < SCROLLBACK_MAX then i else |lines| - SCROLLBACK_MAX + i
  }

  lemma SlotNumber(n: nat, head: nat, i: nat)
    requires head == (if n < SCROLLBACK_MAX then 0 else n % SCROLLBACK_MAX) && i < Min(n, SCROLLBACK_MAX)
    ensures (head + i) % SCROLLBACK_MAX == (if n < SCROLLBACK_MAX then i else n - SCROLLBACK_MAX + i) % SCROLLBACK_MAX
  {
  }

  /** A slot of the ring, cell by cell. */
  lemma RingShows(ring: seq<Slot>, head: nat, count: nat, lines: seq<Line>, i: nat)
    requires RingHolds(ring, head, count, lines) && i < count
    ensures var j := LineNumber(lines, i);
            var slot := ring[(head + i) % SCROLLBACK_MAX];
            && 0 <= j < |lines| && slot.cols == |lines[j]|
            && forall k :: 0 <= k < MAX_COLS ==> slot.cells[k] == ShownCell(lines, j, k)
  {
    hide SlotAt, ShownCell;
    var j := LineNumber(lines, i);
    SlotNumber(|lines|, head, i);
    SlotOfLine(lines, j);
    forall k | 0 <= k < MAX_COLS
      ensures SlotAt(lines, j % SCROLLBACK_MAX).cells[k] == ShownCell(lines, j, k)
    {
      SlotShows(lines, j, k);
    }
  }

  /** The ring stands for the last 2000 lines. */
  lemma RingIsLast(ring: seq<Slot>, head: nat, count: nat, lines: seq<Line>)
    requires RingHolds(ring, head, count, lines)
    ensures RingLines(ring, head, count) == LastLines(lines, SCROLLBACK_MAX)
  {
    var last := LastLines(lines, SCROLLBACK_MAX);
    forall i | 0 <= i < count
      ensures RingLine(ring, head, i) == last[i]
    {
      RingShows(ring, head, count, lines, i);
      var j := LineNumber(lines, i);
      assert forall k :: 0 <= k < |lines[j]| ==> ShownCell(lines, j, k) == lines[j][k];
      assert last[i] == lines[j];
    }
  }

  /** Pushing into the ring: one slot is written, and head and count move on, so that the ring
      holds one line more. */
  lemma RingPush(ring: seq<Slot>, head: nat, count: nat, lines: seq<Line>, line: Line)
    requires RingHolds(ring, head, count, lines) && |line| <= MAX_COLS
    ensures var full := count == SCROLLBACK_MAX;
            var idx := if full then head else (head + count) % SCROLLBACK_MAX;
            var head' := if full then (head + 1) % SCROLLBACK_MAX else head;
            var count' := if full then count else count + 1;
            RingHolds(ring[idx := Stored(line, ring[idx].cells)], head', count', lines + [line])
  {
    var n := |lines|;
    var more := lines + [line];
    var idx := if count == SCROLLBACK_MAX then head else (head + count) % SCROLLBACK_MAX;
    assert idx == n % SCROLLBACK_MAX;
    assert more[..n] == lines;
    forall i | 0 <= i < SCROLLBACK_MAX
      ensures ring[idx := Stored(line, ring[idx].cells)][i] == SlotAt(more, i)
    {
      assert SlotAt(more, i) == if n % SCROLLBACK_MAX == i then Stored(line, SlotAt(lines, i).cells) else SlotAt(lines, i);
    }
    NextSlot(n);
  }

  lemma NextSlot(n: nat)
    ensures (n + 1) % SCROLLBACK_MAX == (n % SCROLLBACK_MAX + 1) % SCROLLBACK_MAX
  {
  }
}
