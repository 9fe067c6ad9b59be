/** Lines of text on the terminal: scrolling loses none but the oldest, and plain text is laid
    out row by row through the history.
 */
module TerminalLines {
  import opened Basics
  import opened TerminalModel
  import opened TerminalRuns

  type Line = seq<Cell>

  function VisibleRow(s: Screen, r: nat): (l: Line)
    requires s.cols <= MAX_COLS && r < MAX_ROWS
    ensures |l| == s.cols
  {
    var row: Row := s.grid[r];
    row[..s.cols]
  }

  function VisibleRows(s: Screen): (v: seq<Line>)
    requires s.cols <= MAX_COLS && s.rows <= MAX_ROWS
    ensures |v| == s.rows
  {
    seq(s.rows, r requires 0 <= r < s.rows => VisibleRow(s, r))
  }

  /** The history followed by the screen. */
  function AllLines(t: Term): seq<Line>
    requires t.s.cols <= MAX_COLS && t.s.rows <= MAX_ROWS
  {
    t.history + VisibleRows(t.s)
  }

  /** The lines in the window when the view is scrolled back by `t.offset`. */
  function View(t: Term): seq<Line>
    requires t.s.cols <= MAX_COLS && t.s.rows <= MAX_ROWS && t.offset <= |t.history|
  {
    var first := |t.history| - t.offset;
    AllLines(t)[first..first + t.s.rows]
  }

  /** Every history line is as wide as the screen. */
  ghost predicate Uniform(t: Term) {
    forall i :: 0 <= i < |t.history| ==> |t.history[i]| == t.s.cols
  }

  function Blanks(n: nat, cols: nat): seq<Line> {
    seq(n, _ => BlankLine(cols))
  }

  lemma ClearedRowIsBlank(r: Row, cols: nat)
    requires cols <= MAX_COLS
    ensures Fill(r, 0, cols, BLANK)[..cols] == BlankLine(cols)
  {
  }

  /** What row `r` shows after the region scrolls up by `n`. */
  lemma ScrolledRow(t: Term, count: int, r: nat)
    requires Sized(t.s) && FullRegion(t.s) && r < t.s.rows
    ensures var n := AtLeastOne(count);
            VisibleRow(ScrollUp(t, count).s, r) ==
              if r + n < t.s.rows then VisibleRow(t.s, r + n) else BlankLine(t.s.cols)
  {
    ClearedRowIsBlank(t.s.grid[t.s.bottom], t.s.cols);
  }

  /** Lines that leave the screen, followed by the screen after, are the screen before
      followed by blank lines. */
  lemma LinesShift(t: Term, count: int)
    requires Sized(t.s) && FullRegion(t.s)
    ensures var n := AtLeastOne(count);
            LinesOff(t.s.grid, t.s.rows, t.s.cols, n) + VisibleRows(ScrollUp(t, count).s) ==
            VisibleRows(t.s) + Blanks(n, t.s.cols)
  {
    hide RowsUp;
    var n := AtLeastOne(count);
    var off := LinesOff(t.s.grid, t.s.rows, t.s.cols, n);
    var after := VisibleRows(ScrollUp(t, count).s);
    var before := VisibleRows(t.s) + Blanks(n, t.s.cols);
    forall i | 0 <= i < |before|
      ensures (off + after)[i] == before[i]
    {
      if i < n {
        assert off[i] == LineOff(t.s.grid, t.s.rows, t.s.cols, i);
      } else {
        ScrolledRow(t, count, i - n);
      }
    }
  }

  /** Line conservation: a full-screen scroll of the main screen by any amount turns history
      and screen into their own continuation by blank lines, dropping only the oldest lines
      beyond what the history holds. */
  lemma ScrollConservesLines(t: Term, count: int)
    requires Sized(t.s) && HistoryOk(t.history) && FullRegion(t.s) && !t.s.alt
    ensures var n := AtLeastOne(count);
            var dropped := if |t.history| + n > SCROLLBACK_MAX then |t.history| + n - SCROLLBACK_MAX else 0;
            AllLines(ScrollUp(t, count)) == (AllLines(t) + Blanks(n, t.s.cols))[dropped..]
  {
    hide LinesOff, VisibleRows, RowsUp;
    var n := AtLeastOne(count);
    LinesShift(t, count);
    var off := LinesOff(t.s.grid, t.s.rows, t.s.cols, n);
    var after := VisibleRows(ScrollUp(t, count).s);
    assert t.history + off + after == AllLines(t) + Blanks(n, t.s.cols) by {
      assert t.history + off + after == t.history + (off + after);
    }
  }

  // ---------------------------------------------------------------------------
  // Plain text.

  predicate IsText(bytes: seq<Byte>) {
    forall i :: 0 <= i < |bytes| ==> IsPrintable(bytes[i]) || IsNewline(bytes[i])
  }

  function Last<T>(s: seq<T>): T
    requires s != []
  {
    s[|s| - 1]
  }

  /** Text broken into rows of at most `cols` bytes: a row is only closed when a further byte
      does not fit, or by a newline. */
  function Layout(bytes: seq<Byte>, cols: nat): (rows: seq<seq<Byte>>)
    requires cols > 0
    ensures rows != [] && forall i :: 0 <= i < |rows| ==> |rows[i]| <= cols
  {
    if bytes == [] then [[]]
    else
      var n := |bytes| - 1;
      var rows := Layout(bytes[..n], cols);
      if IsNewline(bytes[n]) then rows + [[]]
      else AppendByte(if |Last(rows)| == cols then rows + [[]] else rows, bytes[n])
  }

  function AppendByte(rows: seq<seq<Byte>>, b: Byte): seq<seq<Byte>>
    requires rows != []
  {
    rows[|rows| - 1 := Last(rows) + [b]]
  }

  lemma {:induction false} LayoutStep(bytes: seq<Byte>, b: Byte, cols: nat)
    requires cols > 0
    ensures var rows := Layout(bytes, cols);
            Layout(bytes + [b], cols) ==
              if IsNewline(b) then rows + [[]]
              else AppendByte(if |Last(rows)| == cols then rows + [[]] else rows, b)
  {
    assert (bytes + [b])[..|bytes|] == bytes;
  }

  /** A text without newlines that fits is one row. */
  lemma {:induction false} OneRow(bytes: seq<Byte>, cols: nat)
    requires cols > 0 && |bytes| <= cols && forall i :: 0 <= i < |bytes| ==> !IsNewline(bytes[i])
    ensures Layout(bytes, cols) == [bytes]
  {
    if bytes != [] {
      var n := |bytes| - 1;
      OneRow(bytes[..n], cols);
      assert bytes[..n] + [bytes[n]] == bytes;
    }
  }

  /** A newline ends a row: the text before it and the text after it are laid out by
      themselves. */
  lemma {:induction false} NewlineSplits(a: seq<Byte>, c: Byte, b: seq<Byte>, cols: nat)
    requires cols > 0 && IsNewline(c)
    ensures Layout(a + [c] + b, cols) == Layout(a, cols) + Layout(b, cols)
    decreases |b|
  {
    hide Layout, AppendByte;
    if b == [] {
      assert a + [c] + b == a + [c];
      LayoutStep(a, c, cols);
      NoText(cols);
    } else {
      var n := |b| - 1;
      NewlineSplits(a, c, b[..n], cols);
      LayoutStep(a + [c] + b[..n], b[n], cols);
      assert a + [c] + b[..n] + [b[n]] == a + [c] + b;
      LayoutStep(b[..n], b[n], cols);
      assert b[..n] + [b[n]] == b;
      LastJoins(Layout(a, cols), Layout(b[..n], cols), b[n]);
    }
  }

  lemma NoText(cols: nat)
    requires cols > 0
    ensures Layout([], cols) == [[]]
  {
  }

  /** A row that is full ends when more text follows. */
  lemma {:induction false} FullRowSplits(a: seq<Byte>, b: seq<Byte>, cols: nat)
    requires cols > 0 && |Last(Layout(a, cols))| == cols && b != [] && !IsNewline(b[0])
    ensures Layout(a + b, cols) == Layout(a, cols) + Layout(b, cols)
    decreases |b|
  {
    hide Layout, AppendByte;
    var n := |b| - 1;
    LayoutStep(a + b[..n], b[n], cols);
    assert a + b[..n] + [b[n]] == a + b;
    LayoutStep(b[..n], b[n], cols);
    assert b[..n] + [b[n]] == b;
    if n == 0 {
      assert a + b[..0] == a;
      assert b[..0] == [];
      NoText(cols);
      assert Layout(a, cols) + [[]] == Layout(a, cols) + ([[]]);
      LastJoins(Layout(a, cols), [[]], b[0]);
    } else {
      FullRowSplits(a, b[..n], cols);
      LastJoins(Layout(a, cols), Layout(b[..n], cols), b[n]);
    }
  }

  lemma LastJoins(a: seq<seq<Byte>>, b: seq<seq<Byte>>, c: Byte)
    requires b != []
    ensures Last(a + b) == Last(b) && AppendByte(a + b, c) == a + AppendByte(b, c)
    ensures a + b + [[]] == a + (b + [[]])
    ensures AppendByte(a + b + [[]], c) == a + AppendByte(b + [[]], c)
  {
  }

  /** A row of text in the attributes `a`, padded with blanks. */
  function Drawn(row: seq<Byte>, a: Attr, cols: nat): Line {
    seq(cols, k requires 0 <= k < cols => if k < |row| then Cell(row[k], a.fg, a.bg, a.flags) else BLANK)
  }

  function AllDrawn(rows: seq<seq<Byte>>, a: Attr, cols: nat): (d: seq<Line>)
    ensures |d| == |rows|
  {
    seq(|rows|, i requires 0 <= i < |rows| => Drawn(rows[i], a, cols))
  }

  /** Ready for plain text: parser idle, main screen, whole region, wrapping on. */
  ghost predicate Plain(t: Term) {
    InMemory(t) && t.p.mode == Ground && FullRegion(t.s) && !t.s.alt && t.s.autoWrap
  }

  /** Row `i` of the text that the screen shows in row `r`; blank below the last. */
  function Shown(rows: seq<seq<Byte>>, off: nat, r: nat, a: Attr, cols: nat): Line {
    if off + r < |rows| then Drawn(rows[off + r], a, cols) else BlankLine(cols)
  }

  /** The number of rows of text that have scrolled off a screen of `height` rows. */
  function OffScreen(rows: seq<seq<Byte>>, height: nat): nat {
    if |rows| > height then |rows| - height else 0
  }

  /** `t` shows exactly `rows`: the last of them on the screen, the ones before in the
      history as far as it reaches, and the cursor after the last byte. */
  ghost predicate Shows(t: Term, rows: seq<seq<Byte>>) {
    && Plain(t) && rows != [] && |Last(rows)| <= t.s.cols
    && var off := OffScreen(rows, t.s.rows);
       && t.s.y == |rows| - 1 - off
       && t.s.x == |Last(rows)|
       && t.history == LastLines(AllDrawn(rows[..off], t.s.attr, t.s.cols), SCROLLBACK_MAX)
       && forall r :: 0 <= r < t.s.rows ==> VisibleRow(t.s, r) == Shown(rows, off, r, t.s.attr, t.s.cols)
  }

  lemma LastLinesSnoc(h: seq<Line>, l: Line, n: nat)
    requires n > 0
    ensures LastLines(LastLines(h, n) + [l], n) == LastLines(h + [l], n)
  {
  }

  /** A line feed starts a new, empty row. */
  lemma LineFeedShows(t: Term, rows: seq<seq<Byte>>)
    requires Shows(t, rows)
    ensures Shows(LineFeed(t.(s := t.s.(x := 0))), rows + [[]])
  {
    hide PutByte, RowsUp;
    var u := t.(s := t.s.(x := 0));
    var a, cols := t.s.attr, t.s.cols;
    var rows' := rows + [[]];
    LineFeedKeeps(u);
    var off := OffScreen(rows, t.s.rows);
    assert Drawn([], a, cols) == BlankLine(cols);
    if |rows| < t.s.rows {
      var v := LineFeed(u);
      assert rows'[..0] == rows[..0];
      forall r | 0 <= r < t.s.rows
        ensures VisibleRow(v.s, r) == Shown(rows', 0, r, a, cols)
      {
        assert VisibleRow(v.s, r) == VisibleRow(t.s, r);
      }
    } else {
      FeedScrolls(t, rows);
    }
  }

  lemma FeedScrolls(t: Term, rows: seq<seq<Byte>>)
    requires Shows(t, rows) && |rows| >= t.s.rows
    ensures var u := t.(s := t.s.(x := 0)); LineFeed(u) == ScrollUp(u, 1)
    ensures Shows(LineFeed(t.(s := t.s.(x := 0))), rows + [[]])
  {
    hide PutByte, RowsUp, Fill;
    var u := t.(s := t.s.(x := 0));
    var a, cols := t.s.attr, t.s.cols;
    var rows' := rows + [[]];
    var off := OffScreen(rows, t.s.rows);
    LineFeedKeeps(u);
    assert u == u.(s := u.s.(y := u.s.bottom));
    var v := ScrollUp(u, 1);
    assert v == LineFeed(u);
    assert Drawn([], a, cols) == BlankLine(cols);
    forall r | 0 <= r < t.s.rows
      ensures VisibleRow(v.s, r) == Shown(rows', off + 1, r, a, cols)
    {
      ScrolledRow(u, 1, r);
      if r + 1 < t.s.rows {
        assert VisibleRow(u.s, r + 1) == VisibleRow(t.s, r + 1);
      }
    }
    FeedHistory(t, rows);
  }

  /** The row that leaves the screen is the next one of the text. */
  lemma FeedHistory(t: Term, rows: seq<seq<Byte>>)
    requires Shows(t, rows) && |rows| >= t.s.rows
    ensures var off := OffScreen(rows, t.s.rows);
            ScrollUp(t.(s := t.s.(x := 0)), 1).history ==
            LastLines(AllDrawn((rows + [[]])[..off + 1], t.s.attr, t.s.cols), SCROLLBACK_MAX)
  {
    hide RowsUp, Fill;
    var a, cols, off := t.s.attr, t.s.cols, OffScreen(rows, t.s.rows);
    var lines := LinesOff(t.s.grid, t.s.rows, cols, 1);
    assert lines == [VisibleRow(t.s, 0)];
    assert VisibleRow(t.s, 0) == Drawn(rows[off], a, cols);
    assert AllDrawn((rows + [[]])[..off + 1], a, cols) == AllDrawn(rows[..off], a, cols) + [Drawn(rows[off], a, cols)];
    LastLinesSnoc(AllDrawn(rows[..off], a, cols), Drawn(rows[off], a, cols), SCROLLBACK_MAX);
  }

  /** A byte that fits is added to the last row. */
  lemma GlyphShows(t: Term, rows: seq<seq<Byte>>, c: Byte)
    requires Shows(t, rows) && |Last(rows)| < t.s.cols
    ensures Shows(PutGlyph(t, c), AppendByte(rows, c))
  {
    hide PutByte, LineFeed;
    PutGlyphKeeps(t, c);
    var a, cols, off := t.s.attr, t.s.cols, OffScreen(rows, t.s.rows);
    var rows' := AppendByte(rows, c);
    var v := PutGlyph(t, c);
    assert rows'[..off] == rows[..off];
    forall r | 0 <= r < t.s.rows
      ensures VisibleRow(v.s, r) == Shown(rows', off, r, a, cols)
    {
      assert VisibleRow(t.s, r) == Shown(rows, off, r, a, cols);
    }
  }

  /** The main result for plain text: after any text, history and screen show exactly its
      layout, with deferred wrapping and the oldest rows dropped. */
  lemma {:induction false} TextIsLaidOut(t: Term, bytes: seq<Byte>)
    requires InMemory(t) && Shows(t, [[]]) && IsText(bytes)
    ensures Shows(Run(t, bytes), Layout(bytes, t.s.cols))
    ensures var u := Run(t, bytes); u.s.cols == t.s.cols && u.s.rows == t.s.rows && u.s.attr == t.s.attr
  {
    hide LineFeed, PutGlyph, Shows;
    if bytes != [] {
      var n := |bytes| - 1;
      TextIsLaidOut(t, bytes[..n]);
      TextStep(t, Run(t, bytes[..n]), Layout(bytes[..n], t.s.cols), bytes[n]);
    }
  }

  lemma FeedKeepsFrame(t: Term)
    requires Sized(t.s)
    ensures var u := LineFeed(t); u.s.cols == t.s.cols && u.s.rows == t.s.rows && u.s.attr == t.s.attr && u.p == t.p
  {
  }

  lemma TextStep(t0: Term, t: Term, rows: seq<seq<Byte>>, c: Byte)
    requires InMemory(t) && Shows(t, rows) && (IsPrintable(c) || IsNewline(c))
    requires t.s.cols == t0.s.cols && t.s.rows == t0.s.rows && t.s.attr == t0.s.attr
    ensures var next := if IsNewline(c) then rows + [[]]
                        else AppendByte(if |Last(rows)| == t.s.cols then rows + [[]] else rows, c);
            Shows(PutByte(t, c), next)
    ensures var u := PutByte(t, c); u.s.cols == t0.s.cols && u.s.rows == t0.s.rows && u.s.attr == t0.s.attr
  {
    hide LineFeed;
    var fed := LineFeed(t.(s := t.s.(x := 0)));
    LineFeedShows(t, rows);
    FeedKeepsFrame(t.(s := t.s.(x := 0)));
    if !IsNewline(c) {
      if |Last(rows)| == t.s.cols {
        assert PutGlyph(t, c) == PutGlyph(fed, c);
        GlyphShows(fed, rows + [[]], c);
      } else {
        GlyphShows(t, rows, c);
      }
    }
  }

  /** A cleared screen with an empty history shows the empty text: in particular a terminal
      just initialised. */
  lemma FreshShowsNothing(t: Term)
    requires t.history == []
    ensures InMemory(Reset(t)) && Shows(Reset(t), [[]])
  {
    hide PutByte;
    FreshIsOnScreen(t);
    var u := Reset(t);
    assert AllDrawn([[]][..0], u.s.attr, u.s.cols) == [];
    assert Drawn([], u.s.attr, u.s.cols) == BlankLine(u.s.cols);
    forall r | 0 <= r < u.s.rows
      ensures VisibleRow(u.s, r) == BlankLine(u.s.cols)
    {
      ClearedRowIsBlank(ZeroGrid()[r], DEFAULT_COLS);
    }
  }

  /** History and screen of a terminal that shows `rows` are the last lines of the drawn
      text, padded with blank lines to the height of the screen. */
  lemma ShowsAllLines(t: Term, rows: seq<seq<Byte>>)
    requires Shows(t, rows)
    ensures var height := t.s.rows;
            var pad := if |rows| < height then height - |rows| else 0;
            AllLines(t) == LastLines(AllDrawn(rows, t.s.attr, t.s.cols) + Blanks(pad, t.s.cols), SCROLLBACK_MAX + height)
  {
    hide PutByte, Drawn;
    var a, cols, off := t.s.attr, t.s.cols, OffScreen(rows, t.s.rows);
    var pad := if |rows| < t.s.rows then t.s.rows - |rows| else 0;
    var text := AllDrawn(rows, a, cols) + Blanks(pad, cols);
    assert AllDrawn(rows[..off], a, cols) == text[..off];
    assert VisibleRows(t.s) == text[off..];
    assert text == text[..off] + text[off..];
  }

  /** From start-up: any text fed to a freshly initialised terminal leaves the history and the
      screen equal to the last SCROLLBACK_MAX + rows lines of its layout. */
  lemma FreshTextLines(t: Term, bytes: seq<Byte>)
    requires t.history == [] && IsText(bytes)
    ensures InMemory(Reset(t))
    ensures var rows := Layout(bytes, DEFAULT_COLS);
            var pad := if |rows| < DEFAULT_ROWS then DEFAULT_ROWS - |rows| else 0;
            AllLines(Run(Reset(t), bytes)) ==
            LastLines(AllDrawn(rows, DEFAULT_ATTR, DEFAULT_COLS) + Blanks(pad, DEFAULT_COLS), SCROLLBACK_MAX + DEFAULT_ROWS)
  {
    hide Shows, Layout, Run;
    FreshShowsNothing(t);
    TextIsLaidOut(Reset(t), bytes);
    ShowsAllLines(Run(Reset(t), bytes), Layout(bytes, DEFAULT_COLS));
  }
}
