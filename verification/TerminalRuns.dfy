/** What the terminal keeps over whole runs: cursor and margins stay on the screen, every
    buffer access stays in bounds even when the window is resized in between, and the
    alternate screen leaves the main screen and its history as they were.
 */
module TerminalRuns {
  import opened Basics
  import opened TerminalModel

  // ---------------------------------------------------------------------------
  // Bounds.

  lemma ScrollUpKeeps(t: Term, count: int)
    requires InMemory(t)
    ensures InMemory(ScrollUp(t, count))
    ensures OnScreen(t) ==> OnScreen(ScrollUp(t, count))
  {
    hide RowsUp, Fill;
    LastLinesOk(t.history, LinesOff(t.s.grid, t.s.rows, t.s.cols, AtLeastOne(count)));
  }

  lemma LastLinesOk(h: seq<seq<Cell>>, more: seq<seq<Cell>>)
    requires forall i :: 0 <= i < |h| ==> |h[i]| <= MAX_COLS
    requires forall i :: 0 <= i < |more| ==> |more[i]| <= MAX_COLS
    ensures HistoryOk(LastLines(h + more, SCROLLBACK_MAX))
  {
    var all := h + more;
    assert forall i :: 0 <= i < |all| ==> |all[i]| <= MAX_COLS;
  }

  lemma SetModeKeeps(t: Term, mode: int, enable: bool)
    requires InMemory(t)
    ensures InMemory(SetMode(t, mode, enable))
    ensures OnScreen(t) ==> OnScreen(SetMode(t, mode, enable))
  {
    hide SetAlt, HistoryOk, ParserOk;
    SetAltKeeps(t, enable);
  }

  lemma SetAltKeeps(t: Term, enable: bool)
    requires InMemory(t)
    ensures InMemory(SetAlt(t, enable))
    ensures OnScreen(t) ==> OnScreen(SetAlt(t, enable))
  {
    hide Cleared, HistoryOk, ParserOk;
  }

  lemma {:induction false} SetModesKeeps(t: Term, modes: seq<int>, n: nat, enable: bool)
    requires InMemory(t) && n <= |modes|
    ensures InMemory(SetModes(t, modes, n, enable))
    ensures OnScreen(t) ==> OnScreen(SetModes(t, modes, n, enable))
  {
    if n > 0 {
      SetModesKeeps(t, modes, n - 1, enable);
      SetModeKeeps(SetModes(t, modes, n - 1, enable), modes[n - 1], enable);
    }
  }

  lemma MoveCursorKeeps(t: Term, f: Byte, a: int, b: int)
    requires InMemory(t) && Moves(f) && a >= 1 && b >= 1
    ensures InMemory(t.(s := MoveCursor(t.s, f, a, b)))
    ensures OnScreen(t) ==> OnScreen(t.(s := MoveCursor(t.s, f, a, b)))
  {
    hide HistoryOk, ParserOk, MoveCursor;
    MovedInRange(t.s, f, a, b);
  }

  lemma MovedInRange(s: Screen, f: Byte, a: int, b: int)
    requires Sized(s) && Moves(f) && a >= 1 && b >= 1 && s.x >= 0 && s.y >= 0
    ensures var u := MoveCursor(s, f, a, b);
            && 0 <= u.x && (u.x <= s.x || u.x < s.cols)
            && 0 <= u.y && (u.y <= s.y || u.y < s.rows)
  {
  }

  /** Same size, and a cursor and saved cursor that were already in use. */
  ghost predicate NoFurther(s: Screen, u: Screen) {
    && u.cols == s.cols && u.rows == s.rows && Sized(u)
    && ((u.x == s.x && u.y == s.y) || (u.x == s.saved.x && u.y == s.saved.y) || u.x == u.y == 0)
    && (u.saved == s.saved || u.saved == Cursor(s.x, s.y, s.attr))
  }

  lemma EditScreenKeeps(s: Screen, p: Parser, f: Byte)
    requires Sized(s) && ParserOk(p)
    ensures NoFurther(s, EditScreen(s, p, f))
  {
    hide EditGrid, SetRegion, Sgr;
  }

  lemma HandleCsiKeeps(t: Term, f: Byte)
    requires InMemory(t)
    ensures InMemory(HandleCsi(t, f))
    ensures OnScreen(t) ==> OnScreen(HandleCsi(t, f))
  {
    hide SetModes, ScrollUp, MoveCursor, EditScreen;
    if t.p.private_ {
      SetModesKeeps(t, t.p.args, if t.p.argc == 0 then 1 else t.p.argc, true);
      SetModesKeeps(t, t.p.args, if t.p.argc == 0 then 1 else t.p.argc, false);
    } else if f == 'S' as int {
      ScrollUpKeeps(t, Arg(t.p, 0));
    } else if Moves(f) {
      MoveCursorKeeps(t, f, Arg(t.p, 0), Arg(t.p, 1));
    } else {
      EditScreenKeeps(t.s, t.p, f);
    }
  }

  lemma LineFeedKeeps(t: Term)
    requires InMemory(t)
    ensures InMemory(LineFeed(t))
    ensures OnScreen(t) ==> OnScreen(LineFeed(t))
  {
    hide ScrollUp;
    if t.s.y + 1 > t.s.bottom {
      ScrollUpKeeps(t.(s := t.s.(y := t.s.bottom)), 1);
    }
  }

  lemma PutGlyphKeeps(t: Term, c: Byte)
    requires InMemory(t)
    ensures InMemory(PutGlyph(t, c))
    ensures OnScreen(t) ==> OnScreen(PutGlyph(t, c))
  {
    hide LineFeed, HistoryOk, ParserOk;
    LineFeedKeeps(t.(s := t.s.(x := 0)));
  }

  lemma GroundByteKeeps(t: Term, c: Byte)
    requires InMemory(t)
    ensures InMemory(GroundByte(t, c))
    ensures OnScreen(t) ==> OnScreen(GroundByte(t, c))
  {
    hide LineFeed, PutGlyph, HistoryOk;
    LineFeedKeeps(t.(s := t.s.(x := 0)));
    PutGlyphKeeps(t, c);
  }

  lemma IndexKeeps(t: Term)
    requires InMemory(t)
    ensures InMemory(Index(t))
    ensures OnScreen(t) ==> OnScreen(Index(t))
  {
    hide ScrollUp;
    ScrollUpKeeps(t, 1);
  }

  lemma ReverseIndexKeeps(t: Term)
    requires InMemory(t)
    ensures InMemory(t.(s := ReverseIndex(t.s)))
    ensures OnScreen(t) ==> OnScreen(t.(s := ReverseIndex(t.s)))
  {
    hide RowsDown, HistoryOk, ParserOk;
  }

  lemma FreshIsOnScreen(t: Term)
    requires HistoryOk(t.history)
    ensures OnScreen(Reset(t))
  {
    hide Cleared, ZeroGrid;
  }

  lemma EscapeByteKeeps(t: Term, c: Byte)
    requires InMemory(t)
    ensures InMemory(EscapeByte(t, c))
    ensures OnScreen(t) ==> OnScreen(EscapeByte(t, c))
  {
    hide Reset, Index, ReverseIndex, HistoryOk;
    var u := SetParserMode(t, Ground);
    FreshIsOnScreen(t);
    IndexKeeps(u);
    IndexKeeps(u.(s := u.s.(x := 0)));
    ReverseIndexKeeps(u);
  }

  /** One byte keeps the memory bounds, and the screen bounds where they held. */
  lemma PutByteKeeps(t: Term, c: Byte)
    requires InMemory(t)
    ensures InMemory(PutByte(t, c))
    ensures OnScreen(t) ==> OnScreen(PutByte(t, c))
  {
    hide GroundByte, EscapeByte, HandleCsi;
    match t.p.mode
    case Ground => GroundByteKeeps(t, c);
    case Escape => EscapeByteKeeps(t, c);
    case Charset =>
    case Csi => HandleCsiKeeps(t, c);
    case Osc =>
  }

  /** A window of any size is given a grid of allowed size. */
  lemma CellsInRange(size: int, pad: nat, cell: nat, least: nat, most: nat)
    requires cell > 0 && least <= most
    ensures least <= CellsIn(size, pad, cell, least, most) <= most
  {
    var px := if size < least * cell + pad * 2 then least * cell + pad * 2 else size;
    assert px - pad * 2 >= least * cell;
    DivAtLeast(px - pad * 2, cell, least);
  }

  lemma DivAtLeast(a: int, b: nat, q: nat)
    requires b > 0 && a >= q * b
    ensures a / b >= q
  {
    if a / b + 1 <= q {
      MulMonotone(a / b + 1, q, b);
    }
  }

  lemma MulMonotone(x: int, y: int, b: nat)
    requires x <= y
    ensures x * b <= y * b
  {
  }

  lemma ResizeKeeps(t: Term, cols: nat, rows: nat)
    requires InMemory(t)
    requires MIN_COLS <= cols <= MAX_COLS && MIN_ROWS <= rows <= MAX_ROWS
    ensures InMemory(Resize(t, cols, rows))
    ensures Resize(t, cols, rows).s.x < cols && Resize(t, cols, rows).s.y < rows
  {
  }

  // ---------------------------------------------------------------------------
  // Runs.

  /** The terminal after a stream of bytes. */
  function Run(t: Term, bytes: seq<Byte>): (u: Term)
    requires InMemory(t)
    ensures InMemory(u)
  {
    if bytes == [] then t
    else
      var n := |bytes| - 1;
      var u := Run(t, bytes[..n]);
      PutByteKeeps(u, bytes[n]);
      PutByte(u, bytes[n])
  }

  lemma RunOne(t: Term, c: Byte)
    requires InMemory(t)
    ensures Run(t, [c]) == PutByte(t, c)
  {
    assert [c][..0] == [];
    assert Run(t, [c][..0]) == t;
  }

  /** Every byte stream keeps the cursor, the saved cursor and the margins on the screen. */
  lemma {:induction false} RunStaysOnScreen(t: Term, bytes: seq<Byte>)
    requires OnScreen(t)
    ensures OnScreen(Run(t, bytes))
  {
    if bytes != [] {
      var n := |bytes| - 1;
      RunStaysOnScreen(t, bytes[..n]);
      PutByteKeeps(Run(t, bytes[..n]), bytes[n]);
    }
  }

  /** What reaches the terminal: output of the shell, or a new window size in pixels. */
  datatype Input = Byte(c: Byte) | Window(width: int, height: int)

  const PAD_X: nat := 10
  const PAD_Y: nat := 8

  function Accept(t: Term, i: Input, charW: nat, charH: nat): (u: Term)
    requires InMemory(t) && charW > 0 && charH > 0
    ensures InMemory(u)
  {
    match i
    case Byte(c) => PutByteKeeps(t, c); PutByte(t, c)
    case Window(w, h) =>
      CellsInRange(w, PAD_X, charW, MIN_COLS, MAX_COLS);
      CellsInRange(h, PAD_Y, charH, MIN_ROWS, MAX_ROWS);
      var cols, rows := CellsIn(w, PAD_X, charW, MIN_COLS, MAX_COLS), CellsIn(h, PAD_Y, charH, MIN_ROWS, MAX_ROWS);
      ResizeKeeps(t, cols, rows);
      Resize(t, cols, rows)
  }

  /** Bytes and resizes in any order keep every buffer access in bounds. */
  function RunInputs(t: Term, inputs: seq<Input>, charW: nat, charH: nat): (u: Term)
    requires InMemory(t) && charW > 0 && charH > 0
    ensures InMemory(u)
  {
    if inputs == [] then t
    else
      var n := |inputs| - 1;
      Accept(RunInputs(t, inputs[..n], charW, charH), inputs[n], charW, charH)
  }

  // ---------------------------------------------------------------------------
  // The alternate screen.

  /** The byte completes a full reset. */
  predicate Resets(t: Term, c: Byte) {
    t.p.mode == Escape && c == 'c' as int
  }

  /** The byte completes a save-cursor sequence. */
  predicate Saves(t: Term, c: Byte) {
    || (t.p.mode == Escape && c == '7' as int)
    || (t.p.mode == Csi && !t.p.private_ && c == 's' as int)
  }

  /** How `u` relates to an earlier `t` on the alternate screen: the history is untouched,
      and the main grid is either still put away or back on display, with the saved cursor
      and attributes if `keptCursor`. */
  ghost predicate AltFrame(t: Term, u: Term, keptCursor: bool) {
    && u.history == t.history
    && (if u.s.alt
        then u.s.mainGrid == t.s.mainGrid && (keptCursor ==> u.s.saved == t.s.saved)
        else u.s.grid == t.s.mainGrid && (keptCursor ==> Cursor(u.s.x, u.s.y, u.s.attr) == t.s.saved))
  }

  /** Leaving happens at most once: later modes of the same sequence find it done. */
  lemma {:induction false} SetModesFrame(t: Term, modes: seq<int>, n: nat, enable: bool)
    requires t.s.alt && n <= |modes|
    ensures AltFrame(t, SetModes(t, modes, n, enable), true)
    ensures enable ==> SetModes(t, modes, n, enable).s.alt
  {
    if n > 0 {
      SetModesFrame(t, modes, n - 1, enable);
    }
  }

  lemma ScrollUpFrame(t: Term, count: int)
    requires t.s.alt && Sized(t.s)
    ensures AltFrame(t, ScrollUp(t, count), true) && ScrollUp(t, count).s.alt
  {
  }

  lemma EditScreenFrame(s: Screen, p: Parser, f: Byte)
    requires Sized(s) && ParserOk(p)
    ensures var u := EditScreen(s, p, f);
            u.mainGrid == s.mainGrid && u.alt == s.alt && (f != 's' as int ==> u.saved == s.saved)
  {
    hide EditGrid, SetRegion, Sgr;
  }

  lemma HandleCsiFrame(t: Term, f: Byte)
    requires t.s.alt && Sized(t.s) && ParserOk(t.p)
    ensures AltFrame(t, HandleCsi(t, f), t.p.private_ || f != 's' as int)
  {
    hide SetModes, ScrollUp, EditScreen;
    if t.p.private_ {
      SetModesFrame(t, t.p.args, if t.p.argc == 0 then 1 else t.p.argc, true);
      SetModesFrame(t, t.p.args, if t.p.argc == 0 then 1 else t.p.argc, false);
    } else if f == 'S' as int {
      ScrollUpFrame(t, Arg(t.p, 0));
    } else {
      EditScreenFrame(t.s, t.p, f);
    }
  }

  lemma GroundByteFrame(t: Term, c: Byte)
    requires t.s.alt && Sized(t.s)
    ensures AltFrame(t, GroundByte(t, c), true) && GroundByte(t, c).s.alt
  {
  }

  lemma EscapeByteFrame(t: Term, c: Byte)
    requires t.s.alt && Sized(t.s) && ParserOk(t.p) && c != 'c' as int
    ensures AltFrame(t, EscapeByte(t, c), c != '7' as int) && EscapeByte(t, c).s.alt
  {
  }

  lemma PutByteFrame(t: Term, c: Byte)
    requires t.s.alt && InMemory(t) && !Resets(t, c)
    ensures AltFrame(t, PutByte(t, c), !Saves(t, c))
  {
    hide GroundByte, EscapeByte, HandleCsi;
    match t.p.mode
    case Ground => GroundByteFrame(t, c);
    case Escape => EscapeByteFrame(t, c);
    case Charset =>
    case Csi => HandleCsiFrame(t, c);
    case Osc =>
  }

  /** The whole stream is consumed on the alternate screen, with no full reset; its last byte
      may be the one that leaves. */
  ghost predicate OnAlt(t: Term, bytes: seq<Byte>)
    requires InMemory(t)
  {
    forall k :: 0 <= k < |bytes| ==> var u := Run(t, bytes[..k]); u.s.alt && !Resets(u, bytes[k])
  }

  ghost predicate NeverSaves(t: Term, bytes: seq<Byte>)
    requires InMemory(t)
  {
    forall k :: 0 <= k < |bytes| ==> !Saves(Run(t, bytes[..k]), bytes[k])
  }

  lemma PrefixOf<T>(s: seq<T>, n: nat)
    requires n <= |s|
    ensures forall k :: 0 <= k <= n ==> s[..n][..k] == s[..k]
  {
  }

  lemma {:induction false} AltRun(t: Term, bytes: seq<Byte>)
    requires InMemory(t) && t.s.alt && OnAlt(t, bytes)
    ensures AltFrame(t, Run(t, bytes), NeverSaves(t, bytes))
  {
    if bytes != [] {
      var n := |bytes| - 1;
      PrefixOf(bytes, n);
      assert OnAlt(t, bytes[..n]);
      AltRun(t, bytes[..n]);
      assert NeverSaves(t, bytes) ==> NeverSaves(t, bytes[..n]);
      PutByteFrame(Run(t, bytes[..n]), bytes[n]);
    }
  }

  /** Entering puts the whole grid and the cursor away and leaves the history alone. */
  lemma {:induction false} SetModesEnters(t: Term, modes: seq<int>, n: nat)
    requires !t.s.alt && n <= |modes|
    ensures var u := SetModes(t, modes, n, true);
            u.history == t.history &&
            if u.s.alt then u.s.mainGrid == t.s.grid && u.s.saved == Cursor(t.s.x, t.s.y, t.s.attr)
            else u.s.grid == t.s.grid && Cursor(u.s.x, u.s.y, u.s.attr) == Cursor(t.s.x, t.s.y, t.s.attr)
  {
    hide SetMode;
    if n > 0 {
      SetModesEnters(t, modes, n - 1);
      SetModeEnters(SetModes(t, modes, n - 1, true), modes[n - 1]);
    }
  }

  /** One mode switched on: on the alternate screen nothing put away changes, and entering it
      puts the main screen away. */
  lemma SetModeEnters(t: Term, mode: int)
    ensures var u := SetMode(t, mode, true);
            && u.history == t.history && (t.s.alt ==> u.s.alt)
            && (if t.s.alt then u.s.mainGrid == t.s.mainGrid && u.s.saved == t.s.saved
                else if u.s.alt then u.s.mainGrid == t.s.grid && u.s.saved == Cursor(t.s.x, t.s.y, t.s.attr)
                else u.s.grid == t.s.grid && Cursor(u.s.x, u.s.y, u.s.attr) == Cursor(t.s.x, t.s.y, t.s.attr))
  {
    hide Cleared;
  }

  lemma {:induction false} ResetModesStayMain(t: Term, modes: seq<int>, n: nat)
    requires !t.s.alt && n <= |modes|
    ensures !SetModes(t, modes, n, false).s.alt
  {
    if n > 0 {
      ResetModesStayMain(t, modes, n - 1);
    }
  }

  lemma GroundByteStaysMain(t: Term, c: Byte)
    requires !t.s.alt && Sized(t.s)
    ensures !GroundByte(t, c).s.alt
  {
  }

  lemma EscapeByteStaysMain(t: Term, c: Byte)
    requires !t.s.alt && Sized(t.s) && ParserOk(t.p)
    ensures !EscapeByte(t, c).s.alt
  {
  }

  lemma Enters(t: Term, c: Byte)
    requires InMemory(t) && !t.s.alt && PutByte(t, c).s.alt
    ensures var u := PutByte(t, c);
            u.history == t.history && u.s.mainGrid == t.s.grid && u.s.saved == Cursor(t.s.x, t.s.y, t.s.attr)
  {
    hide GroundByte, EscapeByte, SetModes, EditScreen, MoveCursor;
    GroundByteStaysMain(t, c);
    EscapeByteStaysMain(t, c);
    if t.p.mode == Csi {
      EditScreenFrame(t.s, t.p, c);
      SetModesEnters(t, t.p.args, if t.p.argc == 0 then 1 else t.p.argc);
      ResetModesStayMain(t, t.p.args, if t.p.argc == 0 then 1 else t.p.argc);
      MoveCursorFrame(t.s, c, Arg(t.p, 0), Arg(t.p, 1));
    }
  }

  lemma MoveCursorFrame(s: Screen, f: Byte, a: int, b: int)
    ensures MoveCursor(s, f, a, b).alt == s.alt
  {
  }

  /** An excursion to the alternate screen: byte `enter` switches to it, `bytes` runs on it
      with no full reset, and the last of them switches back.  Whatever the program drew, the
      main grid is restored cell for cell, nothing entered the history, and the cursor and
      attributes are back too unless the program saved a cursor of its own. */
  lemma AlternateScreenRestores(t: Term, enter: Byte, bytes: seq<Byte>)
    requires InMemory(t) && !t.s.alt && Run(t, [enter]).s.alt
    requires OnAlt(Run(t, [enter]), bytes) && !Run(Run(t, [enter]), bytes).s.alt
    ensures var u := Run(Run(t, [enter]), bytes);
            && u.s.grid == t.s.grid
            && u.history == t.history
            && (NeverSaves(Run(t, [enter]), bytes) ==> u.s.x == t.s.x && u.s.y == t.s.y && u.s.attr == t.s.attr)
  {
    hide PutByte, Run;
    RunOne(t, enter);
    Enters(t, enter);
    AltRun(Run(t, [enter]), bytes);
  }

  // The same with the window resized in between.

  ghost predicate OnAltInputs(t: Term, inputs: seq<Input>, charW: nat, charH: nat)
    requires InMemory(t) && charW > 0 && charH > 0
  {
    forall k :: 0 <= k < |inputs| ==>
      var u := RunInputs(t, inputs[..k], charW, charH); u.s.alt && !(inputs[k].Byte? && Resets(u, inputs[k].c))
  }

  ghost predicate NeverSavesInputs(t: Term, inputs: seq<Input>, charW: nat, charH: nat)
    requires InMemory(t) && charW > 0 && charH > 0
  {
    forall k :: 0 <= k < |inputs| ==>
      !(inputs[k].Byte? && Saves(RunInputs(t, inputs[..k], charW, charH), inputs[k].c))
  }

  lemma AcceptFrame(t: Term, i: Input, charW: nat, charH: nat)
    requires InMemory(t) && charW > 0 && charH > 0 && t.s.alt && !(i.Byte? && Resets(t, i.c))
    ensures AltFrame(t, Accept(t, i, charW, charH), !(i.Byte? && Saves(t, i.c)))
  {
    hide PutByte;
    if i.Byte? {
      PutByteFrame(t, i.c);
    }
  }

  lemma {:induction false} AltRunInputs(t: Term, inputs: seq<Input>, charW: nat, charH: nat)
    requires InMemory(t) && charW > 0 && charH > 0 && t.s.alt && OnAltInputs(t, inputs, charW, charH)
    ensures AltFrame(t, RunInputs(t, inputs, charW, charH), NeverSavesInputs(t, inputs, charW, charH))
  {
    hide Accept, InMemory;
    if inputs != [] {
      var n := |inputs| - 1;
      PrefixOf(inputs, n);
      assert OnAltInputs(t, inputs[..n], charW, charH);
      AltRunInputs(t, inputs[..n], charW, charH);
      assert NeverSavesInputs(t, inputs, charW, charH) ==> NeverSavesInputs(t, inputs[..n], charW, charH);
      AcceptFrame(RunInputs(t, inputs[..n], charW, charH), inputs[n], charW, charH);
    }
  }

  /** A visit to the alternate screen during which the window is resized any number of times
      still gives back the main grid, the history, and the cursor unless the program saved
      one; only the size is the new one. */
  lemma AlternateScreenSurvivesResizes(t: Term, enter: Byte, inputs: seq<Input>, charW: nat, charH: nat)
    requires InMemory(t) && charW > 0 && charH > 0 && !t.s.alt && Run(t, [enter]).s.alt
    requires OnAltInputs(Run(t, [enter]), inputs, charW, charH)
    requires !RunInputs(Run(t, [enter]), inputs, charW, charH).s.alt
    ensures var u := RunInputs(Run(t, [enter]), inputs, charW, charH);
            && u.s.grid == t.s.grid
            && u.history == t.history
            && (NeverSavesInputs(Run(t, [enter]), inputs, charW, charH) ==>
                  u.s.x == t.s.x && u.s.y == t.s.y && u.s.attr == t.s.attr)
  {
    hide PutByte, Run, RunInputs;
    RunOne(t, enter);
    Enters(t, enter);
    AltRunInputs(Run(t, [enter]), inputs, charW, charH);
  }
}
