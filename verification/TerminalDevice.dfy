/** The terminal as it runs: fixed buffers changed in place, rows moved one at a time, and the
    history in a ring of slots.  Every routine is proved to do to the buffers what
    `TerminalModel` says in closed form, which also shows each buffer access in bounds.
 */
module TerminalDevice {
  import opened Basics
  import opened TerminalModel
  import opened TerminalRuns
  import opened TerminalLines
  import opened TerminalHistory
  import opened TerminalWidths

  // ---------------------------------------------------------------------------
  // One row at a time against the closed forms.

  lemma FillTwice(r: Row, cols: nat)
    ensures Fill(Fill(r, 0, cols, BLANK), 0, cols, BLANK) == Fill(r, 0, cols, BLANK)
  {
  }

  /** Columns `c` to `cols` of a row moved right by `n`, the gap not yet cleared. */
  function MovedRight(r: Row, c: nat, n: nat, cols: nat): Row
    requires c + n <= cols <= MAX_COLS
  {
    r[..c + n] + r[c..cols - n] + r[cols..]
  }

  /** Columns `c + n` to `cols` of a row moved left by `n`, the end not yet cleared. */
  function MovedLeft(r: Row, c: nat, n: nat, cols: nat): Row
    requires c + n <= cols <= MAX_COLS
  {
    r[..c] + r[c + n..cols] + r[cols - n..]
  }

  /** Moving and then clearing is inserting or deleting. */
  lemma MovedAndCleared(r: Row, c: nat, n: nat, cols: nat, blank: Cell)
    requires c + n <= cols <= MAX_COLS
    ensures Fill(MovedRight(r, c, n, cols), c, c + n, blank) == RowInsert(r, c, n, cols, blank)
    ensures Fill(MovedLeft(r, c, n, cols), cols - n, cols, blank) == RowDelete(r, c, n, cols, blank)
  {
  }

  lemma RowsUpMore(g: Grid, top: nat, bot: nat, n: nat, cols: nat)
    requires top <= bot < MAX_ROWS
    ensures RowsUp(RowsUp(g, top, bot, n, cols), top, bot, 1, cols) == RowsUp(g, top, bot, n + 1, cols)
    ensures RowsUp(g, top, bot, 0, cols) == g
  {
    hide Fill;
    FillTwice(g[bot], cols);
    var once := RowsUp(g, top, bot, n, cols);
    forall r | 0 <= r < MAX_ROWS
      ensures RowUp(once, top, bot, 1, cols, r) == RowUp(g, top, bot, n + 1, cols, r)
    {
      if top <= r < bot {
        assert once[r + 1] == RowUp(g, top, bot, n, cols, r + 1);
      }
      assert once[bot] == RowUp(g, top, bot, n, cols, bot);
    }
  }

  lemma RowsDownMore(g: Grid, top: nat, bot: nat, n: nat, cols: nat)
    requires top <= bot < MAX_ROWS
    ensures RowsDown(RowsDown(g, top, bot, n, cols), top, bot, 1, cols) == RowsDown(g, top, bot, n + 1, cols)
    ensures RowsDown(g, top, bot, 0, cols) == g
  {
    hide Fill;
    FillTwice(g[top], cols);
    var once := RowsDown(g, top, bot, n, cols);
    forall r | 0 <= r < MAX_ROWS
      ensures RowDown(once, top, bot, 1, cols, r) == RowDown(g, top, bot, n + 1, cols, r)
    {
      if top < r <= bot {
        assert once[r - 1] == RowDown(g, top, bot, n, cols, r - 1);
      }
      assert once[top] == RowDown(g, top, bot, n, cols, top);
    }
  }

  lemma LinesOffMore(g: Grid, rows: nat, cols: nat, n: nat)
    requires 0 < rows <= MAX_ROWS && cols <= MAX_COLS
    ensures LinesOff(g, rows, cols, n + 1) == LinesOff(g, rows, cols, n) + [RowsUp(g, 0, rows - 1, n, cols)[0][..cols]]
  {
    hide Fill;
    ClearedRowIsBlank(g[rows - 1], cols);
    assert RowsUp(g, 0, rows - 1, n, cols)[0] == RowUp(g, 0, rows - 1, n, cols, 0);
    assert LineOff(g, rows, cols, n) == RowUp(g, 0, rows - 1, n, cols, 0)[..cols];
  }

  lemma LastLinesMore(h: seq<Line>, more: seq<Line>, l: Line, n: nat)
    requires n > 0
    ensures LastLines(LastLines(h + more, n) + [l], n) == LastLines(h + (more + [l]), n)
  {
    LastLinesSnoc(h + more, l, n);
    assert h + more + [l] == h + (more + [l]);
  }

  /** A terminal at start-up. */
  const START: Term := Reset(Term(FreshScreen(), FreshParser(), [], 0))

  class Terminal {
    const grid: array<Row>
    const mainGrid: array<Row>
    const ring: array<Slot>
    const args: array<int>
    const osc: array<Byte>
    var alt: bool
    var cols: nat
    var rows: nat
    var x: int
    var y: int
    var attr: Attr
    var top: int
    var bottom: int
    var saved: Cursor
    var visible: bool
    var appCursor: bool
    var autoWrap: bool
    var mode: Mode
    var argc: nat
    var private_: bool
    var oscLen: nat
    var count: nat
    var head: nat
    var offset: nat
    /** Every line ever pushed into the ring, oldest first. */
    ghost var scrolled: seq<Line>

    ghost predicate Buffers()
      reads this`count, this`head, this`scrolled, ring
    {
      && grid.Length == MAX_ROWS && mainGrid.Length == MAX_ROWS && grid != mainGrid
      && ring.Length == SCROLLBACK_MAX && args.Length == MAX_ARGS && osc.Length == OSC_SIZE
      && RingHolds(ring[..], head, count, scrolled)
    }

    ghost function History(): (h: seq<Line>)
      requires Buffers()
      reads this`count, this`head, this`scrolled, ring
    {
      RingLines(ring[..], head, count)
    }

    ghost function Scr(): Screen
      requires Buffers()
      reads this, ring, grid, mainGrid
    {
      Screen(grid[..], mainGrid[..], alt, cols, rows, x, y, attr, top, bottom, saved, visible, appCursor, autoWrap)
    }

    ghost function Par(): Parser
      reads this, args, osc
    {
      Parser(mode, args[..], argc, private_, osc[..], oscLen)
    }

    ghost function Abs(): Term
      requires Buffers()
      reads this, ring, grid, mainGrid, args, osc
    {
      Term(Scr(), Par(), History(), offset)
    }

    ghost predicate Valid()
      reads this, ring, grid, mainGrid, args, osc
    {
      Buffers() && InMemory(Abs())
    }

    /** A terminal at start-up. */
    constructor ()
      ensures Valid() && fresh(grid) && fresh(mainGrid) && fresh(ring) && fresh(args) && fresh(osc)
      ensures Abs() == START && scrolled == []
    {
      grid := new Row[MAX_ROWS];
      mainGrid := new Row[MAX_ROWS];
      ring := new Slot[SCROLLBACK_MAX](_ => Slot(ZeroRow(), 0));
      args := new int[MAX_ARGS];
      osc := new Byte[OSC_SIZE];
      count, head, offset, scrolled := 0, 0, 0, [];
      new;
      assert RingHolds(ring[..], head, count, scrolled);
      assert History() == [];
      Init();
    }

    method FillCells(row: int, start: int, end: int, c: Cell)
      requires Buffers() && 0 <= row < MAX_ROWS && 0 <= start && end <= MAX_COLS
      modifies grid
      ensures grid[..] == old(grid[..])[row := Fill(old(grid[row]), start, end, c)]
    {
      ghost var before: Row := grid[row];
      var k := start;
      while k < end
        invariant start <= k && (k <= end || k == start)
        invariant grid[row] == Fill(before, start, k, c)
        invariant forall r :: 0 <= r < MAX_ROWS && r != row ==> grid[r] == old(grid[r])
      {
        assert Fill(before, start, k + 1, c) == Fill(before, start, k, c)[k := c];
        grid[row] := grid[row][k := c];
        k := k + 1;
      }
      assert Fill(before, start, k, c) == Fill(before, start, end, c);
    }

    /** term_clear_line with the colours of `c`. */
    method ClearLineWith(row: int, start: int, end: int, c: Cell)
      requires Buffers() && Sized(Scr()) && 0 <= start
      modifies grid
      ensures Scr() == ClearLine(old(Scr()), row, start, end, c)
    {
      if row < 0 || row >= rows || row >= MAX_ROWS {
        return;
      }
      var e := end;
      if e > cols {
        e := cols;
      }
      FillCells(row, start, e, c);
    }

    method ClearLineDefault(row: int)
      requires Buffers() && 0 <= row < rows <= MAX_ROWS && cols <= MAX_COLS
      modifies grid
      ensures grid[..] == old(grid[..])[row := Fill(old(grid[row]), 0, cols, BLANK)]
    {
      FillCells(row, 0, cols, BLANK);
    }

    method ClearAll()
      requires Buffers() && rows <= MAX_ROWS && cols <= MAX_COLS
      modifies grid
      ensures grid[..] == Cleared(old(grid[..]), rows, cols)
    {
      var r := 0;
      while r < rows
        invariant 0 <= r <= rows
        invariant grid[..] == Cleared(old(grid[..]), r, cols)
      {
        ClearLineDefault(r);
        r := r + 1;
      }
    }

    /** scrollback_push. */
    method ScrollbackPush(line: Row, width: nat)
      requires Buffers() && width <= MAX_COLS
      modifies ring, this`count, this`head, this`scrolled
      ensures Buffers() && scrolled == old(scrolled) + [line[..width]]
      ensures History() == LastLines(old(History()) + [line[..width]], SCROLLBACK_MAX)
      ensures var idx := if old(count) < SCROLLBACK_MAX then (old(head) + old(count)) % SCROLLBACK_MAX else old(head);
              ring[..] == old(ring[..])[idx := Stored(line[..width], old(ring[idx].cells))]
    {
      hide RingLines, RingHolds, Stored;
      RingIsLast(ring[..], head, count, scrolled);
      RingPush(ring[..], head, count, scrolled, line[..width]);
      LastLinesSnoc(scrolled, line[..width], SCROLLBACK_MAX);
      RingShape(ring[..], head, count, scrolled);
      var idx: nat;
      if count < SCROLLBACK_MAX {
        idx := (head + count) % SCROLLBACK_MAX;
        count := count + 1;
      } else {
        idx := head;
        head := (head + 1) % SCROLLBACK_MAX;
      }
      ring[idx] := Stored(line[..width], ring[idx].cells);
      scrolled := scrolled + [line[..width]];
      RingIsLast(ring[..], head, count, scrolled);
    }

    /** Rows `top` to `bot` move up by one and the last is cleared. */
    method ShiftUp(top: nat, bot: nat)
      requires Buffers() && top <= bot < rows <= MAX_ROWS && cols <= MAX_COLS
      modifies grid
      ensures grid[..] == RowsUp(old(grid[..]), top, bot, 1, cols)
    {
      var r := top;
      while r < bot
        invariant top <= r <= bot
        invariant forall k :: 0 <= k < MAX_ROWS ==> grid[k] == if top <= k < r then old(grid[k + 1]) else old(grid[k])
      {
        grid[r] := grid[r + 1];
        r := r + 1;
      }
      ClearLineDefault(bot);
    }

    /** Rows `top` to `bot` move down by one and the first is cleared. */
    method ShiftDown(top: nat, bot: nat)
      requires Buffers() && top <= bot < rows <= MAX_ROWS && cols <= MAX_COLS
      modifies grid
      ensures grid[..] == RowsDown(old(grid[..]), top, bot, 1, cols)
    {
      var r := bot;
      while r > top
        invariant top <= r <= bot
        invariant forall k :: 0 <= k < MAX_ROWS ==> grid[k] == if r < k <= bot then old(grid[k - 1]) else old(grid[k])
      {
        grid[r] := grid[r - 1];
        r := r - 1;
      }
      ClearLineDefault(top);
    }

    /** term_scroll_up. */
    method DoScrollUp(n: int)
      requires Valid()
      modifies grid, ring, this`count, this`head, this`scrolled
      ensures Valid() && Abs() == ScrollUp(old(Abs()), n)
      ensures scrolled == old(scrolled) +
                          if FullRegion(old(Scr())) && !alt
                          then LinesOff(old(grid[..]), rows, cols, AtLeastOne(n)) else []
    {
      hide RowsUp, LinesOff, LastLines, RingHolds, RingLines, InMemory;
      ghost var t := Abs();
      MemoryFacts(t);
      ScrollUpKeeps(t, n);
      var times := if n <= 0 then 1 else n;
      var lo, hi := top, bottom;
      if lo < 0 { lo := 0; }
      if hi >= rows { hi := rows - 1; }
      if lo >= hi {
        assert false;
        return;
      }
      ScrollRows(lo, hi, times);
      assert Par() == t.p;
    }

    /** Each turn pushes the top line of a full-screen region on the main screen, then moves
        the region up by one row. */
    method ScrollRows(lo: nat, hi: nat, times: nat)
      requires Buffers() && lo < hi < rows <= MAX_ROWS && cols <= MAX_COLS
      modifies grid, ring, this`count, this`head, this`scrolled
      ensures Buffers() && grid[..] == RowsUp(old(grid[..]), lo, hi, times, cols)
      ensures scrolled == old(scrolled) +
                          if lo == 0 && hi == rows - 1 && !alt then LinesOff(old(grid[..]), rows, cols, times) else []
      ensures History() == if lo == 0 && hi == rows - 1 && !alt
                           then LastLines(old(History()) + LinesOff(old(grid[..]), rows, cols, times), SCROLLBACK_MAX)
                           else old(History())
    {
      hide RowsUp, LinesOff, LastLines, RingHolds, RingLines;
      ghost var g, h := grid[..], History();
      RowsUpMore(g, lo, hi, 0, cols);
      NoLinesOff(g, rows, cols, h);
      assert LinesOff(g, rows, cols, 0) == [];
      for i := 0 to times
        invariant Buffers()
        invariant grid[..] == RowsUp(g, lo, hi, i, cols)
        invariant scrolled == old(scrolled) + if lo == 0 && hi == rows - 1 && !alt then LinesOff(g, rows, cols, i) else []
        invariant History() == if lo == 0 && hi == rows - 1 && !alt
                               then LastLines(h + LinesOff(g, rows, cols, i), SCROLLBACK_MAX) else h
      {
        if lo == 0 && hi == rows - 1 && !alt {
          LinesOffMore(g, rows, cols, i);
          LastLinesMore(h, LinesOff(g, rows, cols, i), grid[0][..cols], SCROLLBACK_MAX);
          ScrollbackPush(grid[0], cols);
        }
        RowsUpMore(g, lo, hi, i, cols);
        ShiftUp(lo, hi);
      }
    }

    /** term_scroll_down. */
    method DoScrollDown(n: int)
      requires Valid()
      modifies grid
      ensures Valid() && Abs() == old(Abs()).(s := ScrollDown(old(Scr()), n))
    {
      hide RingLines, RingHolds, HistoryOk, ParserOk;
      var times := if n <= 0 then 1 else n;
      var lo, hi := top, bottom;
      if lo < 0 { lo := 0; }
      if hi >= rows { hi := rows - 1; }
      if lo >= hi {
        assert false;
        return;
      }
      RowsMoveDown(lo, hi, times);
    }

    method RowsMoveDown(lo: nat, hi: nat, times: nat)
      requires Buffers() && lo <= hi < rows <= MAX_ROWS && cols <= MAX_COLS
      modifies grid
      ensures grid[..] == RowsDown(old(grid[..]), lo, hi, times, cols)
    {
      hide RowsDown;
      ghost var g := grid[..];
      RowsDownMore(g, lo, hi, 0, cols);
      for i := 0 to times
        invariant grid[..] == RowsDown(g, lo, hi, i, cols)
      {
        RowsDownMore(g, lo, hi, i, cols);
        ShiftDown(lo, hi);
      }
    }

    /** term_insert_lines. */
    method DoInsertLines(n: int)
      requires Valid()
      modifies grid
      ensures Valid() && Abs() == old(Abs()).(s := InsertLines(old(Scr()), n))
    {
      hide RingLines, RingHolds, HistoryOk, ParserOk;
      var times := if n <= 0 then 1 else n;
      if y < top || y > bottom {
        return;
      }
      RowsMoveDown(y, bottom, times);
    }

    /** term_delete_lines. */
    method DoDeleteLines(n: int)
      requires Valid()
      modifies grid
      ensures Valid() && Abs() == old(Abs()).(s := DeleteLines(old(Scr()), n))
    {
      hide RowsUp, RingLines, RingHolds, HistoryOk, ParserOk;
      var times := if n <= 0 then 1 else n;
      if y < top || y > bottom {
        return;
      }
      ghost var g := grid[..];
      RowsUpMore(g, y, bottom, 0, cols);
      for i := 0 to times
        invariant grid[..] == RowsUp(g, y, bottom, i, cols)
      {
        RowsUpMore(g, y, bottom, i, cols);
        ShiftUp(y, bottom);
      }
    }

    /** term_insert_chars. */
    method DoInsertChars(n: int)
      requires Valid()
      modifies grid
      ensures Valid() && Abs() == old(Abs()).(s := InsertChars(old(Scr()), n))
    {
      hide RingLines, RingHolds, HistoryOk, ParserOk, Fill, RowInsert, RowDelete, MovedRight, MovedLeft;
      var k := if n <= 0 then 1 else n;
      if y < 0 || y >= rows || x < 0 || x >= cols {
        return;
      }
      if k > cols - x {
        k := cols - x;
      }
      var row := grid[y];
      MovedAndCleared(row, x, k, cols, BlankOf(attr));
      grid[y] := MovedRight(row, x, k, cols);
      ClearLineWith(y, x, x + k, BlankOf(attr));
    }

    /** term_delete_chars. */
    method DoDeleteChars(n: int)
      requires Valid()
      modifies grid
      ensures Valid() && Abs() == old(Abs()).(s := DeleteChars(old(Scr()), n))
    {
      hide RingLines, RingHolds, HistoryOk, ParserOk, Fill, RowInsert, RowDelete, MovedRight, MovedLeft;
      var k := if n <= 0 then 1 else n;
      if y < 0 || y >= rows || x < 0 || x >= cols {
        return;
      }
      if k > cols - x {
        k := cols - x;
      }
      var row := grid[y];
      MovedAndCleared(row, x, k, cols, BlankOf(attr));
      grid[y] := MovedLeft(row, x, k, cols);
      ClearLineWith(y, cols - k, cols, BlankOf(attr));
    }

    /** term_erase_chars. */
    method DoEraseChars(n: int)
      requires Valid()
      modifies grid
      ensures Valid() && Abs() == old(Abs()).(s := EraseChars(old(Scr()), n))
    {
      hide RingLines, RingHolds, HistoryOk, ParserOk, Fill, RowInsert, RowDelete, MovedRight, MovedLeft;
      var k := if n <= 0 then 1 else n;
      if y < 0 || y >= rows || x < 0 || x >= cols {
        return;
      }
      var end := x + k;
      if end > cols {
        end := cols;
      }
      ClearLineWith(y, x, end, BlankOf(attr));
    }

    method CopyGrid(from: array<Row>, to: array<Row>)
      requires from.Length == MAX_ROWS == to.Length && from != to
      modifies to
      ensures to[..] == from[..]
    {
      for r := 0 to MAX_ROWS
        invariant to[..r] == from[..r]
      {
        to[r] := from[r];
      }
    }

    method SaveCursorHere()
      requires Valid()
      modifies this`saved
      ensures Valid() && Abs() == old(Abs()).(s := SaveCursor(old(Scr())))
    {
      hide RingLines, RingHolds, HistoryOk, ParserOk;
      saved := Cursor(x, y, attr);
    }

    method RestoreCursorHere()
      requires Valid()
      modifies this`x, this`y, this`attr
      ensures Valid() && Abs() == old(Abs()).(s := RestoreCursor(old(Scr())))
    {
      hide RingLines, RingHolds, HistoryOk, ParserOk;
      x, y, attr := saved.x, saved.y, saved.attr;
    }

    /** term_set_alt_screen. */
    method SetAltScreen(enable: bool)
      requires Valid()
      modifies grid, mainGrid, this`alt, this`saved, this`x, this`y, this`attr, this`offset
      ensures Valid() && Abs() == SetAlt(old(Abs()), enable)
    {
      hide Cleared, RingLines, RingHolds, HistoryOk, ParserOk;
      if alt == enable {
        return;
      }
      ghost var t := Abs();
      if enable {
        EnterAlt();
      } else {
        LeaveAlt();
      }
      assert Par() == t.p && History() == t.history;
    }

    method EnterAlt()
      requires Buffers() && rows <= MAX_ROWS && cols <= MAX_COLS && !alt
      modifies grid, mainGrid, this`alt, this`saved, this`x, this`y, this`offset
      ensures Scr() == old(Scr()).(alt := true, saved := Cursor(old(x), old(y), attr), mainGrid := old(grid[..]),
                                   grid := Cleared(old(grid[..]), rows, cols), x := 0, y := 0)
      ensures offset == 0
    {
      hide Cleared, RingLines, RingHolds;
      alt := true;
      saved := Cursor(x, y, attr);
      CopyGrid(grid, mainGrid);
      ClearAll();
      x, y, offset := 0, 0, 0;
    }

    method LeaveAlt()
      requires Buffers() && alt
      modifies grid, this`alt, this`x, this`y, this`attr, this`offset
      ensures Scr() == RestoreCursor(old(Scr())).(alt := false, grid := old(mainGrid[..]))
      ensures offset == 0
    {
      hide RingLines, RingHolds;
      alt := false;
      CopyGrid(mainGrid, grid);
      x, y, attr, offset := saved.x, saved.y, saved.attr, 0;
    }

    /** term_init: everything is zeroed, then the defaults are set. */
    method Init()
      requires Buffers()
      modifies this`alt, this`cols, this`rows, this`x, this`y, this`attr, this`top, this`bottom, this`saved
      modifies this`visible, this`appCursor, this`autoWrap, this`mode, this`argc, this`private_, this`oscLen
      modifies grid, mainGrid, args, osc
      ensures Valid() && Abs() == Reset(old(Abs()))
    {
      hide Cleared, ZeroGrid, RingLines, RingHolds, HistoryOk, FreshParser;
      ghost var t := Abs();
      ZeroGrids();
      ZeroParser();
      SetDefaults();
      ClearAll();
      assert Scr() == FreshScreen();
      assert Par() == FreshParser();
      assert History() == t.history;
      FreshIsOnScreen(t);
    }

    method SetDefaults()
      modifies this`alt, this`cols, this`rows, this`x, this`y, this`attr, this`top, this`bottom, this`saved
      modifies this`visible, this`appCursor, this`autoWrap
      ensures !alt && cols == DEFAULT_COLS && rows == DEFAULT_ROWS && x == 0 && y == 0 && attr == DEFAULT_ATTR
      ensures top == 0 && bottom == DEFAULT_ROWS - 1 && saved == Cursor(0, 0, Attr(0, 0, PLAIN))
      ensures visible && !appCursor && autoWrap
    {
      alt, x, y, top, saved := false, 0, 0, 0, Cursor(0, 0, Attr(0, 0, PLAIN));
      cols, rows, bottom := DEFAULT_COLS, DEFAULT_ROWS, DEFAULT_ROWS - 1;
      visible, autoWrap, appCursor := true, true, false;
      attr := DEFAULT_ATTR;
    }

    method ZeroGrids()
      requires grid.Length == MAX_ROWS == mainGrid.Length && grid != mainGrid
      modifies grid, mainGrid
      ensures grid[..] == ZeroGrid() && mainGrid[..] == ZeroGrid()
    {
      var zero := ZeroGrid();
      for r := 0 to MAX_ROWS
        invariant forall k :: 0 <= k < r ==> grid[k] == zero[k] && mainGrid[k] == zero[k]
      {
        grid[r], mainGrid[r] := zero[r], zero[r];
      }
    }

    method ZeroParser()
      requires Buffers()
      modifies args, osc, this`mode, this`argc, this`private_, this`oscLen
      ensures Par() == FreshParser()
    {
      ZeroArgs();
      for k := 0 to OSC_SIZE
        modifies osc
        invariant forall j :: 0 <= j < k ==> osc[j] == 0
      {
        osc[k] := 0;
      }
      mode, argc, private_, oscLen := Ground, 0, false, 0;
      assert args[..] == FreshParser().args;
      assert osc[..] == FreshParser().osc;
    }

    method ZeroArgs()
      requires args.Length == MAX_ARGS
      modifies args
      ensures args[..] == seq(MAX_ARGS, _ => 0)
    {
      for k := 0 to MAX_ARGS
        invariant forall j :: 0 <= j < k ==> args[j] == 0
      {
        args[k] := 0;
      }
    }

    /** The buffer part of term_resize. */
    method DoResize(newCols: nat, newRows: nat)
      requires Valid() && MIN_COLS <= newCols <= MAX_COLS && MIN_ROWS <= newRows <= MAX_ROWS
      modifies grid, this`cols, this`rows, this`top, this`bottom, this`x, this`y
      ensures Valid() && Abs() == Resize(old(Abs()), newCols, newRows)
    {
      hide RingLines, RingHolds, InMemory;
      ghost var t := Abs();
      ResizeKeeps(t, newCols, newRows);
      ResizeScreen(newCols, newRows, t);
      assert Par() == t.p && History() == t.history;
    }

    method ResizeScreen(newCols: nat, newRows: nat, ghost t: Term)
      requires Buffers() && t.s == Scr() && MIN_COLS <= newCols <= MAX_COLS && MIN_ROWS <= newRows <= MAX_ROWS
      modifies grid, this`cols, this`rows, this`top, this`bottom, this`x, this`y
      ensures Scr() == Resize(t, newCols, newRows).s
    {
      hide RingLines, RingHolds, Exposed, ExposedGrid;
      var oldRows, oldCols := rows, cols;
      SetSize(newCols, newRows);
      if newRows > oldRows || newCols > oldCols {
        ExposeCells(oldRows, oldCols, t.s);
      } else {
        NothingExposed(t.s, newCols, newRows);
      }
      ClampCursor();
    }

    method ClampCursor()
      requires cols > 0 && rows > 0
      modifies this`x, this`y
      ensures x == Clamp(old(x), 0, cols - 1) && y == Clamp(old(y), 0, rows - 1)
    {
      if x >= cols { x := cols - 1; }
      if y >= rows { y := rows - 1; }
      if x < 0 { x := 0; }
      if y < 0 { y := 0; }
    }

    method SetSize(newCols: nat, newRows: nat)
      requires newRows > 0
      modifies this`cols, this`rows, this`top, this`bottom
      ensures cols == newCols && rows == newRows && top == 0 && bottom == newRows - 1
    {
      cols, rows, top, bottom := newCols, newRows, 0, newRows - 1;
    }

    method ExposeCells(oldRows: nat, oldCols: nat, ghost s: Screen)
      requires grid.Length == MAX_ROWS && rows <= MAX_ROWS && cols <= MAX_COLS
      requires s.grid == grid[..] && s.rows == oldRows && s.cols == oldCols
      modifies grid
      ensures grid[..] == ExposedGrid(s, cols, rows)
    {
      hide Exposed;
      for r := 0 to rows
        invariant forall k :: 0 <= k < MAX_ROWS ==> grid[k] == if k < r then Exposed(s, cols, rows, k) else s.grid[k]
      {
        grid[r] := ExposeRow(grid[r], r, oldRows, oldCols, s);
      }
      forall k | rows <= k < MAX_ROWS
        ensures s.grid[k] == Exposed(s, cols, rows, k)
      {
        RowNotExposed(s, cols, rows, k);
      }
    }

    method ExposeRow(old_: Row, r: nat, oldRows: nat, oldCols: nat, ghost s: Screen) returns (row: Row)
      requires r < rows <= MAX_ROWS && cols <= MAX_COLS
      requires s.grid[r] == old_ && s.rows == oldRows && s.cols == oldCols
      ensures row == Exposed(s, cols, rows, r)
    {
      row := old_;
      for c := 0 to cols
        invariant forall k :: 0 <= k < MAX_COLS ==> row[k] == if k < c then Exposed(s, cols, rows, r)[k] else old_[k]
      {
        if r >= oldRows || c >= oldCols {
          row := row[c := BLANK];
        }
      }
      assert row == Exposed(s, cols, rows, r);
    }

    /** term_handle_sgr: the loop counter also steps over the parameters of an extended
        colour. */
    method HandleSgr()
      requires Valid()
      modifies this`attr
      ensures attr == if argc == 0 then DEFAULT_ATTR else Sgr(args[..], argc, 0, old(attr))
    {
      if argc == 0 {
        attr := DEFAULT_ATTR;
        return;
      }
      var i: nat := 0;
      while i < argc
        invariant Sgr(args[..], argc, i, attr) == Sgr(args[..], argc, 0, old(attr))
      {
        var code := args[i];
        if code == 38 || code == 48 {
          var color, used := 0, 0;
          if i + 2 < argc && args[i + 1] == 5 {
            color, used := Color256(args[i + 2]), 2;
          } else if i + 4 < argc && args[i + 1] == 2 {
            color, used := Rgb(args[i + 2], args[i + 3], args[i + 4]), 4;
          }
          assert ExtendedColor(args[..], argc, i) == (color, used);
          if used > 0 {
            attr := if code == 38 then attr.(fg := color) else attr.(bg := color);
          }
          i := i + used;
        } else {
          attr := SgrOne(code, attr);
        }
        i := i + 1;
      }
    }

    /** The cursor movements of term_handle_csi. */
    method DoMoveCursor(f: Byte, a: int, b: int)
      requires Buffers() && Moves(f) && cols > 0 && rows > 0
      modifies this`x, this`y
      ensures Scr() == MoveCursor(old(Scr()), f, a, b)
    {
      hide RingHolds;
      if 'A' as int <= f <= 'F' as int {
        MoveRelative(f, a);
      } else {
        MoveAbsolute(f, a, b);
      }
    }

    /** CUU CUD CUF CUB CNL CPL. */
    method MoveRelative(f: Byte, a: int)
      requires 'A' as int <= f <= 'F' as int && cols > 0
      modifies this`x, this`y
      ensures x == if f == 'E' as int || f == 'F' as int then 0
                   else if f == 'C' as int then (if old(x) + a >= cols then cols - 1 else old(x) + a)
                   else if f == 'D' as int then (if old(x) - a < 0 then 0 else old(x) - a)
                   else old(x)
      ensures y == if f == 'A' as int || f == 'F' as int then (if old(y) - a < top then top else old(y) - a)
                   else if f == 'B' as int || f == 'E' as int then (if old(y) + a > bottom then bottom else old(y) + a)
                   else old(y)
    {
      if f == 'A' as int || f == 'F' as int {
        if f == 'F' as int { x := 0; }
        y := y - a;
        if y < top { y := top; }
      } else if f == 'B' as int || f == 'E' as int {
        if f == 'E' as int { x := 0; }
        y := y + a;
        if y > bottom { y := bottom; }
      } else if f == 'C' as int {
        x := x + a;
        if x >= cols { x := cols - 1; }
      } else {
        x := x - a;
        if x < 0 { x := 0; }
      }
    }

    /** CHA VPA CUP HVP. */
    method MoveAbsolute(f: Byte, a: int, b: int)
      requires Moves(f) && !('A' as int <= f <= 'F' as int) && cols > 0 && rows > 0
      modifies this`x, this`y
      ensures x == if f == 'G' as int || f == '`' as int then Clamp(a - 1, 0, cols - 1)
                   else if f == 'd' as int then old(x) else Clamp(b - 1, 0, cols - 1)
      ensures y == if f == 'G' as int || f == '`' as int then old(y) else Clamp(a - 1, 0, rows - 1)
    {
      if f == 'G' as int || f == '`' as int {
        x := a - 1;
      } else if f == 'd' as int {
        y := a - 1;
      } else {
        y := a - 1;
        x := b - 1;
      }
      if f != 'd' as int {
        if x < 0 { x := 0; }
        if x >= cols { x := cols - 1; }
      }
      if f != 'G' as int && f != '`' as int {
        if y < 0 { y := 0; }
        if y >= rows { y := rows - 1; }
      }
    }

    /** Rows `from` to `to` cleared one by one in the current colours. */
    method ClearRowsHere(from: nat, to: nat)
      requires Buffers() && Sized(Scr())
      modifies grid
      ensures Scr() == ClearRows(old(Scr()), from, to)
    {
      hide Fill, RingHolds;
      ghost var s := Scr();
      var r := from;
      assert Scr() == ClearRows(s, from, from);
      while r < to
        invariant from <= r && (r <= to || r == from)
        invariant Scr() == ClearRows(s, from, r)
      {
        ClearLineWith(r, 0, cols, BlankOf(attr));
        assert Scr().grid == ClearRows(s, from, r + 1).grid;
        r := r + 1;
      }
      assert ClearRows(s, from, r).grid == ClearRows(s, from, to).grid;
    }

    /** Erase in Display. */
    method DoEraseDisplay()
      requires Buffers() && Sized(Scr()) && ParserOk(Par()) && 0 <= x && 0 <= y
      modifies grid, this`x, this`y
      ensures Scr() == EraseDisplay(old(Scr()), Par())
    {
      hide RingHolds, ClearRows, ClearLine, Cleared;
      if argc == 0 || args[0] == 0 {
        ClearLineWith(y, x, cols, BlankOf(attr));
        ClearRowsHere(y + 1, rows);
      } else if args[0] == 1 {
        ClearRowsHere(0, y);
        ClearLineWith(y, 0, x + 1, BlankOf(attr));
      } else if args[0] == 2 || args[0] == 3 {
        ClearAll();
        x, y := 0, 0;
      }
    }

    /** Erase in Line. */
    method DoEraseLine()
      requires Buffers() && Sized(Scr()) && ParserOk(Par()) && 0 <= x
      modifies grid
      ensures Scr() == EraseLine(old(Scr()), Par())
    {
      hide RingHolds, ClearLine;
      if argc == 0 || args[0] == 0 {
        ClearLineWith(y, x, cols, BlankOf(attr));
      } else if args[0] == 1 {
        ClearLineWith(y, 0, x + 1, BlankOf(attr));
      } else if args[0] == 2 {
        ClearLineWith(y, 0, cols, BlankOf(attr));
      }
    }

    /** DECSTBM: an empty region means the whole screen. */
    method DoSetRegion(a: int)
      requires Buffers() && Sized(Scr()) && ParserOk(Par()) && a == Arg(Par(), 0)
      modifies this`top, this`bottom, this`x, this`y
      ensures Scr() == SetRegion(old(Scr()), Par())
    {
      hide RingHolds;
      var newTop := if a > 0 then a - 1 else 0;
      var newBottom := if argc > 1 && args[1] > 0 then args[1] - 1 else rows - 1;
      if newBottom >= rows {
        newBottom := rows - 1;
      }
      if newTop >= newBottom {
        newTop, newBottom := 0, rows - 1;
      }
      top, bottom, x, y := newTop, newBottom, 0, 0;
    }

    method ApplyMode(m: int, enable: bool)
      requires Valid()
      modifies grid, mainGrid, this`alt, this`saved, this`x, this`y, this`attr, this`offset
      modifies this`appCursor, this`autoWrap, this`visible
      ensures Valid() && Abs() == SetMode(old(Abs()), m, enable)
    {
      hide InMemory, SetAlt, RingHolds, RingLines;
      SetModeKeeps(Abs(), m, enable);
      if m == 1 {
        appCursor := enable;
      } else if m == 7 {
        autoWrap := enable;
      } else if m == 25 {
        visible := enable;
      } else if m == 47 || m == 1047 || m == 1049 {
        SetAltScreen(enable);
      }
    }

    /** DECSET and DECRST. */
    method ApplyModes(enable: bool)
      requires Valid()
      modifies grid, mainGrid, this`alt, this`saved, this`x, this`y, this`attr, this`offset
      modifies this`appCursor, this`autoWrap, this`visible
      ensures Valid() && Abs() == SetModes(old(Abs()), old(args[..]), if argc == 0 then 1 else argc, enable)
    {
      hide InMemory, SetMode, RingHolds, RingLines;
      assert argc <= MAX_ARGS by { ArgcInRange(Abs()); }
      var n := if argc == 0 then 1 else argc;
      for i := 0 to n
        modifies grid, mainGrid, this`alt, this`saved, this`x, this`y, this`attr, this`offset
        modifies this`appCursor, this`autoWrap, this`visible
        invariant Valid() && Abs() == SetModes(old(Abs()), old(args[..]), i, enable)
      {
        ApplyMode(args[i], enable);
      }
    }

    method FirstParameter() returns (a: int)
      requires Buffers() && ParserOk(Par())
      ensures a == Arg(Par(), 0)
    {
      a := if argc > 0 && args[0] > 0 then args[0] else 1;
    }

    method SecondParameter() returns (a: int)
      requires Buffers() && ParserOk(Par())
      ensures a == Arg(Par(), 1)
    {
      a := if argc > 1 && args[1] > 0 then args[1] else 1;
    }

    /** The grid-editing sequences of term_handle_csi. */
    method DoEditGrid(f: Byte)
      requires Valid()
      modifies grid, this`x, this`y
      ensures Buffers() && Scr() == EditGrid(old(Scr()), Par(), f)
    {
      hide EraseDisplay, EraseLine, InsertLines, DeleteLines, InsertChars, DeleteChars, EraseChars, ScrollDown;
      hide RingHolds, RingLines, HistoryOk;
      var n := FirstParameter();
      if f == 'J' as int {
        DoEraseDisplay();
      } else if f == 'K' as int {
        DoEraseLine();
      } else if f == 'L' as int {
        DoInsertLines(n);
      } else if f == 'M' as int {
        DoDeleteLines(n);
      } else if f == '@' as int {
        DoInsertChars(n);
      } else if f == 'P' as int {
        DoDeleteChars(n);
      } else if f == 'X' as int {
        DoEraseChars(n);
      } else if f == 'T' as int {
        DoScrollDown(n);
      }
    }

    method DoEditScreen(f: Byte)
      requires Valid()
      modifies grid, this`x, this`y, this`attr, this`top, this`bottom, this`saved
      ensures Buffers() && Scr() == EditScreen(old(Scr()), Par(), f)
    {
      hide EditGrid, SetRegion, Sgr, RingHolds, RingLines, HistoryOk;
      if f == 'r' as int {
        var n := FirstParameter();
        DoSetRegion(n);
      } else if f == 'm' as int {
        HandleSgr();
      } else if f == 's' as int {
        saved := Cursor(x, y, attr);
      } else if f == 'u' as int {
        x, y, attr := saved.x, saved.y, saved.attr;
      } else {
        DoEditGrid(f);
      }
    }

    /** term_handle_csi. */
    method DoHandleCsi(f: Byte)
      requires Valid()
      modifies grid, mainGrid, ring, this`count, this`head, this`scrolled, this`alt, this`saved, this`x, this`y, this`attr
      modifies this`offset, this`appCursor, this`autoWrap, this`visible, this`top, this`bottom
      ensures old(scrolled) <= scrolled
      ensures Valid() && Abs() == HandleCsi(old(Abs()), f)
    {
      hide InMemory, SetModes, ScrollUp, MoveCursor, EditScreen, RingHolds, RingLines;
      ghost var t := Abs();
      HandleCsiKeeps(t, f);
      MemoryFacts(t);
      if private_ {
        if f == 'h' as int {
          ApplyModes(true);
        } else if f == 'l' as int {
          ApplyModes(false);
        }
        return;
      }
      var a := FirstParameter();
      if f == 'S' as int {
        DoScrollUp(a);
      } else if Moves(f) {
        var b := SecondParameter();
        DoMoveCursor(f, a, b);
        assert Par() == t.p && History() == t.history;
      } else {
        DoEditScreen(f);
        assert Par() == t.p && History() == t.history;
      }
    }

    method DoLineFeed()
      requires Valid()
      modifies grid, ring, this`count, this`head, this`scrolled, this`y
      ensures old(scrolled) <= scrolled
      ensures Valid() && Abs() == LineFeed(old(Abs()))
    {
      hide InMemory, ScrollUp, RingHolds, RingLines;
      ghost var t := Abs();
      MemoryFacts(t);
      LineFeedKeeps(t);
      y := y + 1;
      if y > bottom {
        y := bottom;
        CursorMoved(t, x, y);
        assert Abs() == t.(s := t.s.(y := t.s.bottom));
        DoScrollUp(1);
      }
    }

    /** The printable bytes of term_put_char: wrapping is deferred to the byte that does not
        fit. */
    method DoPutGlyph(c: Byte)
      requires Valid()
      modifies grid, ring, this`count, this`head, this`scrolled, this`x, this`y
      ensures old(scrolled) <= scrolled
      ensures Valid() && Abs() == PutGlyph(old(Abs()), c)
    {
      hide InMemory, MakeRoom, StoreGlyph, RingHolds, RingLines;
      DoMakeRoom();
      DoStoreGlyph(c);
    }

    method DoMakeRoom()
      requires Valid()
      modifies grid, ring, this`count, this`head, this`scrolled, this`x, this`y
      ensures old(scrolled) <= scrolled
      ensures Valid() && Sized(old(Abs()).s) && Abs() == MakeRoom(old(Abs()))
    {
      hide InMemory, LineFeed, RingHolds, RingLines;
      ghost var t := Abs();
      MemoryFacts(t);
      if x >= cols {
        if autoWrap {
          x := 0;
          CursorMoved(t, 0, y);
          assert Abs() == t.(s := t.s.(x := 0));
          DoLineFeed();
        } else {
          x := cols - 1;
          CursorMoved(t, cols - 1, y);
          assert Abs() == t.(s := t.s.(x := t.s.cols - 1));
        }
      }
    }

    method DoStoreGlyph(c: Byte)
      requires Valid()
      modifies grid, this`x
      ensures Valid() && Sized(old(Abs()).s) && Abs() == old(Abs()).(s := StoreGlyph(old(Abs()).s, c))
    {
      hide InMemory, RingHolds, RingLines;
      ghost var t := Abs();
      MemoryFacts(t);
      StoreKeeps(t, c);
      if 0 <= y < rows && 0 <= x < cols {
        grid[y] := grid[y][x := Cell(c, attr.fg, attr.bg, attr.flags)];
        x := x + 1;
        assert Par() == t.p && History() == t.history;
      }
    }

    /** term_put_char outside escape sequences. */
    method DoGroundByte(c: Byte)
      requires Valid()
      modifies grid, ring, this`count, this`head, this`scrolled, this`x, this`y, this`mode
      ensures old(scrolled) <= scrolled
      ensures Valid() && Abs() == GroundByte(old(Abs()), c)
    {
      hide InMemory, LineFeed, PutGlyph, RingHolds, RingLines, NextColumn;
      ghost var t := Abs();
      MemoryFacts(t);
      GroundByteKeeps(t, c);
      if c == ESC {
        mode := Escape;
      } else if c == 13 || c == 8 || c == 9 {
        DoColumnControl(c);
      } else if c == 10 || c == 11 || c == 12 {
        DoNewline();
      } else if c == DEL {
        // ignored
      } else if c == BEL {
        // no bell
      } else if c >= 32 {
        DoPutGlyph(c);
      }
    }

    /** Carriage return, backspace and tab. */
    method DoColumnControl(c: Byte)
      requires Buffers() && IsColumnControl(c)
      modifies this`x
      ensures x == NextColumn(old(Scr()), c)
    {
      if c == 13 {
        x := 0;
      } else if c == 8 {
        if x > 0 {
          x := x - 1;
        }
      } else {
        var next := (x + 8) / 8 * 8;
        if next >= cols {
          next := cols - 1;
        }
        x := next;
      }
    }

    method DoNewline()
      requires Valid()
      modifies grid, ring, this`count, this`head, this`scrolled, this`x, this`y
      ensures old(scrolled) <= scrolled
      ensures Valid() && Abs() == LineFeed(old(Abs()).(s := old(Scr()).(x := 0)))
    {
      hide InMemory, LineFeed, RingHolds, RingLines;
      ghost var t := Abs();
      MemoryFacts(t);
      x := 0;
      CursorMoved(t, 0, y);
      assert Abs() == t.(s := t.s.(x := 0));
      DoLineFeed();
    }

    /** The byte after ESC. */
    method DoEscapeByte(c: Byte)
      requires Valid()
      modifies this, grid, mainGrid, ring, args, osc
      ensures old(scrolled) <= scrolled
      ensures Valid() && Abs() == EscapeByte(old(Abs()), c)
    {
      hide InMemory, Reset, Index, ReverseIndex, RingHolds, RingLines;
      ghost var t := Abs();
      MemoryFacts(t);
      EscapeByteKeeps(t, c);
      if c == '[' as int {
        EnterCsi();
      } else if c == ']' as int {
        EnterOsc();
      } else if c == '(' as int || c == ')' as int {
        mode := Charset;
      } else if c == 'c' as int {
        Init();
      } else {
        mode := Ground;
        ModeChanged(t, Ground);
        assert Abs() == SetParserMode(t, Ground);
        DoEscapeCommand(c);
      }
    }

    method EnterCsi()
      requires Buffers()
      modifies args, this`mode, this`argc, this`private_
      ensures Par() == old(Par()).(mode := Csi, argc := 0, args := seq(MAX_ARGS, _ => 0), private_ := false)
    {
      ZeroArgs();
      mode, argc, private_ := Csi, 0, false;
    }

    method EnterOsc()
      requires Buffers()
      modifies osc, this`mode, this`oscLen
      ensures Par() == old(Par()).(mode := Osc, oscLen := 0, osc := old(osc[..])[0 := 0])
    {
      osc[0] := 0;
      mode, oscLen := Osc, 0;
    }

    /** The two-byte escape sequences. */
    method DoEscapeCommand(c: Byte)
      requires Valid()
      modifies grid, ring, this`count, this`head, this`scrolled, this`x, this`y, this`attr, this`saved
      ensures old(scrolled) <= scrolled
      ensures Valid()
      ensures var u := old(Abs());
              Abs() ==
              if c == '7' as int then u.(s := SaveCursor(u.s))
              else if c == '8' as int then u.(s := RestoreCursor(u.s))
              else if c == 'M' as int then u.(s := ReverseIndex(u.s))
              else if c == 'D' as int then Index(u)
              else if c == 'E' as int then Index(u.(s := u.s.(x := 0)))
              else u
    {
      hide InMemory, Index, ReverseIndex, RingHolds, RingLines;
      ghost var u := Abs();
      MemoryFacts(u);
      if c == '7' as int {
        SaveCursorHere();
      } else if c == '8' as int {
        RestoreCursorHere();
      } else if c == 'M' as int {
        DoReverseIndex();
      } else if c == 'D' as int {
        DoIndex();
      } else if c == 'E' as int {
        x := 0;
        CursorMoved(u, 0, y);
        assert Abs() == u.(s := u.s.(x := 0));
        DoIndex();
      }
    }

    method DoIndex()
      requires Valid()
      modifies grid, ring, this`count, this`head, this`scrolled, this`y
      ensures old(scrolled) <= scrolled
      ensures Valid() && Abs() == Index(old(Abs()))
    {
      hide InMemory, ScrollUp, RingHolds, RingLines;
      IndexKeeps(Abs());
      if y >= bottom {
        DoScrollUp(1);
      } else {
        y := y + 1;
      }
    }

    method DoReverseIndex()
      requires Valid()
      modifies grid, this`y
      ensures Valid() && Abs() == old(Abs()).(s := ReverseIndex(old(Scr())))
    {
      hide InMemory, ScrollDown, RingHolds, RingLines;
      ReverseIndexKeeps(Abs());
      MemoryFacts(Abs());
      if y <= top {
        DoScrollDown(1);
      } else {
        y := y - 1;
      }
    }

    /** Parameter bytes and the final byte of a control sequence. */
    method DoCsiByte(c: Byte)
      requires Valid()
      modifies this, grid, mainGrid, ring, args
      ensures old(scrolled) <= scrolled
      ensures Valid() && Abs() == CsiByte(old(Abs()), c)
    {
      hide InMemory, HandleCsi, RingHolds, RingLines;
      ghost var t := Abs();
      MemoryFacts(t);
      CsiByteKeeps(t, c);
      if c == '?' as int {
        private_ := true;
      } else if '0' as int <= c <= '9' as int {
        if argc == 0 {
          argc := 1;
          args[0] := 0;
        }
        args[argc - 1] := args[argc - 1] * 10 + (c - '0' as int);
      } else if c == ';' as int {
        if argc == 0 {
          argc := 1;
          args[0] := 0;
        }
        if argc < MAX_ARGS {
          args[argc] := 0;
          argc := argc + 1;
        }
      } else {
        DoHandleCsi(c);
        mode := Ground;
      }
    }

    /** A byte of an operating system command: the title, cut to the buffer. */
    method DoOscByte(c: Byte)
      requires Valid()
      modifies osc, this`mode, this`oscLen
      ensures Valid() && Abs() == old(Abs()).(p := OscByte(old(Par()), c))
    {
      hide InMemory, RingHolds, RingLines;
      ghost var t := Abs();
      MemoryFacts(t);
      OscByteKeeps(t, c);
      if c == BEL || c == ESC {
        osc[oscLen] := 0;
        mode := Ground;
      } else if oscLen < OSC_SIZE - 1 {
        osc[oscLen] := c;
        oscLen := oscLen + 1;
      }
    }

    /** term_put_char. */
    method DoPutByte(c: Byte)
      requires Valid()
      modifies this, grid, mainGrid, ring, args, osc
      ensures old(scrolled) <= scrolled
      ensures Valid() && Abs() == PutByte(old(Abs()), c)
    {
      hide InMemory, GroundByte, EscapeByte, CsiByte, OscByte, RingHolds, RingLines;
      ghost var t := Abs();
      MemoryFacts(t);
      if mode == Ground {
        DoGroundByte(c);
      } else if mode == Escape {
        DoEscapeByte(c);
      } else if mode == Charset {
        mode := Ground;
        ModeChanged(t, Ground);
      } else if mode == Csi {
        DoCsiByte(c);
      } else {
        DoOscByte(c);
      }
    }

    /** term_write_data: the terminal after a whole buffer of bytes. */
    method WriteData(bytes: seq<Byte>)
      requires Valid()
      modifies this, grid, mainGrid, ring, args, osc
      ensures old(scrolled) <= scrolled
      ensures Valid() && Abs() == Run(old(Abs()), bytes)
    {
      hide InMemory, PutByte, RingHolds, RingLines;
      for i := 0 to |bytes|
        invariant Valid() && old(scrolled) <= scrolled && Abs() == Run(old(Abs()), bytes[..i])
      {
        assert bytes[..i + 1][..i] == bytes[..i];
        DoPutByte(bytes[i]);
      }
      assert bytes[..|bytes|] == bytes;
    }

    /** The wheel or a page key moves the view back into the history, at most to its oldest
        line. */
    method ViewBack(lines: nat)
      requires Valid() && offset <= count
      modifies this`offset
      ensures Valid() && offset == Min(old(offset) + lines, count) && Abs() == old(Abs()).(offset := offset)
    {
      hide RingHolds, RingLines;
      offset := offset + lines;
      if offset > count {
        offset := count;
      }
    }

    /** term_get_render_row: the cells drawn in a row of the window, if any.  All of them are
        drawn, up to the width of the screen, also of a history line of another width. */
    method GetRenderRow(screenRow: nat) returns (cells: Option<Row>)
      requires Valid() && screenRow < rows
      ensures cells.None? <==> !alt && offset > count + screenRow
      ensures offset == 0 || alt ==> cells.Some? && cells.value == grid[screenRow]
      ensures cells.Some? && !alt && offset <= screenRow ==> cells.value == grid[screenRow - offset]
      ensures cells.Some? && !alt && offset > screenRow ==>
                var j := LineNumber(scrolled, count + screenRow - offset);
                0 <= j < |scrolled| && forall k :: 0 <= k < MAX_COLS ==> cells.value[k] == ShownCell(scrolled, j, k)
      ensures cells.Some? && !alt ==>
                var line := AllLines(Abs())[count + screenRow - offset];
                cells.value[..cols] == line <==> |line| == cols
    {
      hide RingHolds, SlotAt, ShownCell;
      RingShape(ring[..], head, count, scrolled);
      if offset == 0 || alt {
        return Some(grid[screenRow]);
      }
      var total := count + rows;
      var target := total - 1 - offset - (rows - 1 - screenRow);
      if target < 0 {
        return None;
      }
      if target < count {
        RingShows(ring[..], head, count, scrolled, target);
        assert AllLines(Abs())[target] == RingLine(ring[..], head, target);
        return Some(ring[(head + target) % SCROLLBACK_MAX].cells);
      }
      return Some(grid[target - count]);
    }

    /** The loop of render_screen over the rows of the window: what is drawn is one stretch of
        history and screen if and only if every line of that stretch has the width of the
        screen. */
    method RenderRows() returns (drawn: seq<Line>)
      requires Valid() && offset <= count
      ensures alt || offset == 0 ==> drawn == VisibleRows(Scr())
      ensures !alt ==> (drawn == View(Abs()) <==> forall i :: 0 <= i < rows ==> |View(Abs())[i]| == cols)
    {
      hide RingHolds, RingLines, ShownCell, View, AllLines, VisibleRows, InMemory;
      ghost var t := Abs();
      MemoryFacts(t);
      ViewRows(t);
      ghost var view := View(t);
      drawn := [];
      for r := 0 to rows
        invariant |drawn| == r
        invariant alt || offset == 0 ==> forall i :: 0 <= i < r ==> drawn[i] == VisibleRows(t.s)[i]
        invariant !alt ==> forall i :: 0 <= i < r ==> (drawn[i] == view[i] <==> |view[i]| == cols)
      {
        var cells := GetRenderRow(r);
        ViewRow(t, r);
        drawn := drawn + [cells.value[..cols]];
      }
    }
  }

  lemma ViewRows(t: Term)
    requires t.s.cols <= MAX_COLS && t.s.rows <= MAX_ROWS && t.offset <= |t.history|
    ensures |View(t)| == t.s.rows == |VisibleRows(t.s)|
  {
  }

  lemma ViewRow(t: Term, r: nat)
    requires t.s.cols <= MAX_COLS && r < t.s.rows <= MAX_ROWS && t.offset <= |t.history|
    ensures View(t)[r] == AllLines(t)[|t.history| + r - t.offset]
    ensures VisibleRows(t.s)[r] == t.s.grid[r][..t.s.cols]
  {
  }

  /** Any bytes written to a new terminal, and then any view into its history: what is drawn is
      one stretch of history and screen. */
  method WriteAndView(bytes: seq<Byte>, back: nat) returns (t: Terminal, drawn: seq<Line>)
    ensures t.Valid() && t.offset == Min(back, t.count)
    ensures InMemory(START) && t.Abs() == Run(START, bytes).(offset := t.offset)
    ensures !t.alt ==> drawn == View(t.Abs())
  {
    hide RingHolds, RingLines, InMemory, Run, View, AllLines;
    t := new Terminal();
    assert t.Abs() == START;
    RunSteady(START, bytes);
    t.WriteData(bytes);
    t.ViewBack(back);
    drawn := t.RenderRows();
    MemoryFacts(t.Abs());
    UniformView(t.Abs());
  }

  /** A line scrolled off an 80-column screen and looked at on one of 100 columns: the cells
      beyond it are those of a slot never written there, not blank ones. */
  method NarrowLineShowsZero() returns (t: Terminal, cells: Option<Row>)
    ensures t.Valid() && t.cols == 100 && !t.alt && 0 < t.offset <= t.count
    ensures cells.Some? && (forall k :: 80 <= k < 100 ==> cells.value[k] == ZERO) && ZERO != BLANK
    ensures var line := AllLines(t.Abs())[t.count - t.offset];
            |line| == 80 && cells.value[..t.cols] != line + BlankLine(20)
  {
    hide RingHolds, RingLines, InMemory, Cleared, ZeroGrid, RowsUp, LinesOff;
    t := new Terminal();
    t.DoScrollUp(1);
    t.DoResize(100, 25);
    t.ViewBack(1);
    cells := t.GetRenderRow(0);
    ghost var line := AllLines(t.Abs())[t.count - t.offset];
    assert cells.value[..t.cols][80] == ZERO && (line + BlankLine(20))[80] == BLANK;
  }

  lemma RingShape(ring: seq<Slot>, head: nat, count: nat, lines: seq<Line>)
    requires RingHolds(ring, head, count, lines)
    ensures RingOk(ring, head, count) && AllFit(lines)
  {
  }

  /** What the memory bounds give a routine that does not look inside them. */
  lemma MemoryFacts(t: Term)
    requires InMemory(t)
    ensures Sized(t.s) && ParserOk(t.p) && 0 <= t.s.x <= MAX_COLS && 0 <= t.s.y < MAX_ROWS
  {
  }

  lemma CursorMoved(t: Term, x: int, y: int)
    requires InMemory(t) && 0 <= x <= MAX_COLS && 0 <= y < MAX_ROWS
    ensures InMemory(t.(s := t.s.(x := x, y := y)))
  {
  }

  lemma ModeChanged(t: Term, m: Mode)
    requires InMemory(t)
    ensures InMemory(SetParserMode(t, m))
  {
  }

  lemma CsiByteKeeps(t: Term, c: Byte)
    requires InMemory(t)
    ensures InMemory(CsiByte(t, c))
  {
    hide HandleCsi;
    HandleCsiKeeps(t, c);
  }

  lemma OscByteKeeps(t: Term, c: Byte)
    requires InMemory(t)
    ensures InMemory(t.(p := OscByte(t.p, c)))
  {
  }

  lemma StoreKeeps(t: Term, c: Byte)
    requires InMemory(t) && Sized(t.s)
    ensures InMemory(t.(s := StoreGlyph(t.s, c)))
  {
  }

  lemma ArgcInRange(t: Term)
    requires InMemory(t)
    ensures t.p.argc <= MAX_ARGS
  {
  }

  lemma NoLinesOff(g: Grid, rows: nat, cols: nat, h: seq<Line>)
    requires rows <= MAX_ROWS && cols <= MAX_COLS && |h| <= SCROLLBACK_MAX
    ensures LastLines(h + LinesOff(g, rows, cols, 0), SCROLLBACK_MAX) == h
  {
    assert LinesOff(g, rows, cols, 0) == [];
    assert h + [] == h;
  }

  /** Only a grown screen has cells to expose. */
  lemma RowNotExposed(s: Screen, cols: nat, rows: nat, r: nat)
    requires r < MAX_ROWS && (r >= rows || (rows <= s.rows && cols <= s.cols))
    ensures Exposed(s, cols, rows, r) == s.grid[r]
  {
  }

  lemma NothingExposed(s: Screen, cols: nat, rows: nat)
    requires rows <= s.rows && cols <= s.cols
    ensures ExposedGrid(s, cols, rows) == s.grid
  {
    forall r | 0 <= r < MAX_ROWS
      ensures Exposed(s, cols, rows, r) == s.grid[r]
    {
      RowNotExposed(s, cols, rows, r);
    }
  }
}
