/** Modes, single-byte controls and two-byte escapes (section 5.3 of ECMA-48), each from its
    bytes to its effect, and told by the control sequences that do the same.
 */
module TerminalBytes {
  import opened Basics
  import opened TerminalModel
  import opened TerminalRuns
  import opened TerminalLines
  import opened TerminalEdits
  import opened TerminalSequences
  import opened TerminalControls

  /** The same screen and history, with the parser ready for the next byte. */
  ghost predicate SameScreen(u: Term, v: Term) {
    u.s == v.s && u.history == v.history && u.p.mode == v.p.mode == Ground
  }

  // ---------------------------------------------------------------------------
  // Modes.

  /** DECSET and DECRST: the modes 1, 7 and 25 are flags; 47, 1047 and 1049 all switch the
      screen; any other number does nothing. */
  lemma ModeSet(t: Term, m: nat, enable: bool)
    requires InMemory(t) && t.p.mode == Ground
    ensures var f: Byte := if enable then 'h' as int else 'l' as int;
            var u := Run(t, Sequence(true, [m], f));
            if m == 1 then SameScreen(u, t.(s := t.s.(appCursor := enable)))
            else if m == 7 then SameScreen(u, t.(s := t.s.(autoWrap := enable)))
            else if m == 25 then SameScreen(u, t.(s := t.s.(visible := enable)))
            else if m == 47 || m == 1047 || m == 1049 then SameScreen(u, Run(t, if enable then ENTER_ALT else LEAVE_ALT))
            else SameScreen(u, t)
  {
    hide Run, Sequence, InMemory;
    var f: Byte := if enable then 'h' as int else 'l' as int;
    SequenceReadsBack(t, true, [m], f);
    SwitchRead(t, enable);
    var u := t.(p := Collected(t.p, true, [m]));
    assert u.p.args[0] == m;
    assert SetModes(u, u.p.args, 0, enable) == u;
  }

  /** Without automatic wrapping a glyph after a full line replaces the line's last cell. */
  lemma NoWrap(t: Term, c: Byte)
    requires InMemory(t) && t.p.mode == Ground && IsPrintable(c)
    requires !t.s.autoWrap && t.s.x == t.s.cols && t.s.y < t.s.rows
    ensures var u := Run(t, [c]);
            SameScreen(u, t.(s := t.s.(grid := t.s.grid[t.s.y := t.s.grid[t.s.y][t.s.cols - 1 :=
                                                Cell(c, t.s.attr.fg, t.s.attr.bg, t.s.attr.flags)]])))
  {
    hide Run, PutGlyph;
    RunOne(t, c);
    GlyphReplaces(t, c);
  }

  lemma GlyphReplaces(t: Term, c: Byte)
    requires Sized(t.s) && !t.s.autoWrap && t.s.x == t.s.cols && 0 <= t.s.y < t.s.rows
    ensures var cell := Cell(c, t.s.attr.fg, t.s.attr.bg, t.s.attr.flags);
            PutGlyph(t, c) == t.(s := t.s.(grid := t.s.grid[t.s.y := t.s.grid[t.s.y][t.s.cols - 1 := cell]]))
  {
  }

  // ---------------------------------------------------------------------------
  // Single-byte controls.

  predicate TabStop(x: int) {
    x % 8 == 0
  }

  /** CR and BS: the first column, and one column back but not past it. */
  lemma ReturnAndBackspace(t: Term)
    requires InMemory(t) && t.p.mode == Ground
    ensures SameScreen(Run(t, [13]), t.(s := t.s.(x := 0)))
    ensures SameScreen(Run(t, [8]), t.(s := t.s.(x := if t.s.x == 0 then 0 else t.s.x - 1)))
  {
    hide Run;
    RunOne(t, 13);
    RunOne(t, 8);
  }

  lemma StopAfter(x: int, k: int)
    ensures var next := (x + 8) / 8 * 8;
            TabStop(next) && x < next <= x + 8 && (x < k < next ==> !TabStop(k))
  {
    var q := (x + 8) / 8;
    assert q * 8 - 8 <= x < q * 8;
    if q * 8 - 8 < k < q * 8 {
      assert k % 8 == k - (q - 1) * 8;
    }
  }

  lemma TabColumn(s: Screen, k: int)
    requires Sized(s)
    ensures var x := NextColumn(s, 9);
            && x < s.cols && (s.x < s.cols - 1 ==> s.x < x)
            && (TabStop(x) || x == s.cols - 1) && (s.x < k < x ==> !TabStop(k))
  {
    hide TabStop;
    StopAfter(s.x, k);
  }

  /** HT: the next tab stop to the right, or the last column if there is none. */
  lemma Tab(t: Term)
    requires InMemory(t) && t.p.mode == Ground
    ensures var u := Run(t, [9]);
            && SameScreen(u, t.(s := t.s.(x := u.s.x)))
            && u.s.x < t.s.cols && (t.s.x < t.s.cols - 1 ==> t.s.x < u.s.x)
            && (TabStop(u.s.x) || u.s.x == t.s.cols - 1)
            && forall k :: t.s.x < k < u.s.x ==> !TabStop(k)
  {
    hide Run, NextColumn, TabStop;
    RunOne(t, 9);
    TabColumn(t.s, 0);
    forall k | t.s.x < k < NextColumn(t.s, 9)
      ensures !TabStop(k)
    {
      TabColumn(t.s, k);
    }
  }

  // ---------------------------------------------------------------------------
  // Two-byte escapes.

  lemma EscapeRead(t: Term, c: Byte)
    requires InMemory(t) && t.p.mode == Ground
    ensures Run(t, [ESC, c]) == EscapeByte(SetParserMode(t, Escape), c)
  {
    hide Run, EscapeByte;
    RunAppend(t, [ESC], [c]);
    assert [ESC] + [c] == [ESC, c];
    RunOne(t, ESC);
    RunOne(Run(t, [ESC]), c);
  }

  const IND: seq<Byte> := [ESC, 'D' as int]
  const RI: seq<Byte> := [ESC, 'M' as int]
  const NEL: seq<Byte> := [ESC, 'E' as int]
  const DECSC: seq<Byte> := [ESC, '7' as int]
  const DECRC: seq<Byte> := [ESC, '8' as int]
  const RIS: seq<Byte> := [ESC, 'c' as int]

  lemma EscapeCases(t: Term)
    requires Sized(t.s) && ParserOk(t.p) && t.p.mode == Ground
    ensures var u := SetParserMode(t, Escape);
            && EscapeByte(u, 'D' as int) == Index(t)
            && EscapeByte(u, 'E' as int) == Index(t.(s := t.s.(x := 0)))
            && EscapeByte(u, 'M' as int) == t.(s := ReverseIndex(t.s))
            && EscapeByte(u, '7' as int) == t.(s := SaveCursor(t.s))
            && EscapeByte(u, '8' as int) == t.(s := RestoreCursor(t.s))
            && EscapeByte(u, '(' as int) == EscapeByte(u, ')' as int) == SetParserMode(t, Charset)
  {
    hide Index, ReverseIndex, SaveCursor, RestoreCursor, Reset;
  }

  lemma EscapesDo(t: Term)
    requires InMemory(t) && t.p.mode == Ground
    ensures Sized(t.s) && Run(t, IND) == Index(t)
    ensures Run(t, NEL) == Index(t.(s := t.s.(x := 0)))
    ensures Run(t, RI) == t.(s := ReverseIndex(t.s))
    ensures Run(t, DECSC) == t.(s := SaveCursor(t.s))
    ensures Run(t, DECRC) == t.(s := RestoreCursor(t.s))
    ensures Run(t, [ESC, '(' as int]) == Run(t, [ESC, ')' as int]) == SetParserMode(t, Charset)
  {
    hide Run, InMemory, EscapeByte, Index, ReverseIndex, SaveCursor, RestoreCursor;
    MemoryHolds(t);
    EscapeCases(t);
    EscapeRead(t, 'D' as int);
    EscapeRead(t, 'E' as int);
    EscapeRead(t, 'M' as int);
    EscapeRead(t, '7' as int);
    EscapeRead(t, '8' as int);
    EscapeRead(t, '(' as int);
    EscapeRead(t, ')' as int);
  }

  lemma CsiCases(t: Term)
    requires Sized(t.s) && ParserOk(t.p) && !t.p.private_
    ensures HandleCsi(t, 's' as int) == t.(s := SaveCursor(t.s))
    ensures HandleCsi(t, 'u' as int) == t.(s := RestoreCursor(t.s))
    ensures t.p.argc == 1 && t.p.args[0] == 1 ==>
              && HandleCsi(t, 'S' as int) == ScrollUp(t, 1)
              && HandleCsi(t, 'T' as int) == t.(s := ScrollDown(t.s, 1))
  {
    hide ScrollUp, ScrollDown, SaveCursor, RestoreCursor, EraseDisplay, EraseLine, Sgr, SetRegion, MoveCursor;
  }

  lemma ScrollAlike(t: Term, u: Term)
    requires Sized(t.s) && t.s == u.s && t.history == u.history
    ensures ScrollUp(t, 1).s == ScrollUp(u, 1).s && ScrollUp(t, 1).history == ScrollUp(u, 1).history
    ensures ScrollUp(t, 1).p == t.p
  {
  }

  lemma SequencesDo(t: Term)
    requires InMemory(t) && t.p.mode == Ground
    ensures Sized(t.s)
    ensures SameScreen(Run(t, Sequence(false, [1], 'S' as int)), ScrollUp(t, 1))
    ensures SameScreen(Run(t, Sequence(false, [1], 'T' as int)), t.(s := ScrollDown(t.s, 1)))
    ensures SameScreen(Run(t, Sequence(false, [], 's' as int)), t.(s := SaveCursor(t.s)))
    ensures SameScreen(Run(t, Sequence(false, [], 'u' as int)), t.(s := RestoreCursor(t.s)))
  {
    hide Run, InMemory, Sequence, HandleCsi, ScrollUp, ScrollDown, SaveCursor, RestoreCursor;
    MemoryHolds(t);
    var one, none := t.(p := Collected(t.p, false, [1])), t.(p := Collected(t.p, false, []));
    SequenceReadsBack(t, false, [1], 'S' as int);
    SequenceReadsBack(t, false, [1], 'T' as int);
    SequenceReadsBack(t, false, [], 's' as int);
    SequenceReadsBack(t, false, [], 'u' as int);
    CsiCases(one);
    CsiCases(none);
    ScrollAlike(t, one);
  }

  /** IND: one line down, except that at the bottom margin the region scrolls up by one. */
  lemma IndexSpelled(t: Term)
    requires InMemory(t) && t.p.mode == Ground
    ensures SameScreen(Run(t, IND), if t.s.y < t.s.bottom then t.(s := t.s.(y := t.s.y + 1))
                                    else Run(t, Sequence(false, [1], 'S' as int)))
  {
    hide Run, Sequence, InMemory, ScrollUp;
    EscapesDo(t);
    SequencesDo(t);
    ScrollAlike(t, t);
  }

  /** RI: one line up, except that at the top margin the region scrolls down by one. */
  lemma ReverseIndexSpelled(t: Term)
    requires InMemory(t) && t.p.mode == Ground
    ensures SameScreen(Run(t, RI), if t.s.y > t.s.top then t.(s := t.s.(y := t.s.y - 1))
                                   else Run(t, Sequence(false, [1], 'T' as int)))
  {
    hide Run, Sequence, InMemory, ScrollDown;
    EscapesDo(t);
    SequencesDo(t);
  }

  /** Between the margins RI undoes IND. */
  lemma IndexUndone(t: Term)
    requires InMemory(t) && t.p.mode == Ground && t.s.top <= t.s.y < t.s.bottom
    ensures SameScreen(Run(t, IND + RI), t)
  {
    hide Run, Sequence, InMemory;
    RunAppend(t, IND, RI);
    IndexSpelled(t);
    ReverseIndexSpelled(Run(t, IND));
  }

  /** NEL is CR and then IND; LF, VT and FF do the same as NEL unless the cursor is below the
      bottom margin. */
  lemma NextLine(t: Term, c: Byte)
    requires InMemory(t) && t.p.mode == Ground && 10 <= c <= 12
    ensures SameScreen(Run(t, NEL), Run(t, [13] + IND))
    ensures t.s.y <= t.s.bottom ==> SameScreen(Run(t, [c]), Run(t, NEL))
  {
    hide Run, InMemory, ScrollUp;
    RunAppend(t, [13], IND);
    ReturnAndBackspace(t);
    var u := Run(t, [13]);
    EscapesDo(t);
    EscapesDo(u);
    ScrollAlike(t.(s := t.s.(x := 0)), u);
    ScrollAlike(u, u);
    LineFeedDoes(t, c);
  }

  lemma LineFeedDoes(t: Term, c: Byte)
    requires InMemory(t) && t.p.mode == Ground && 10 <= c <= 12
    ensures Sized(t.s) && (t.s.y <= t.s.bottom ==> Run(t, [c]) == Index(t.(s := t.s.(x := 0))))
  {
    hide Run, ScrollUp;
    RunOne(t, c);
  }

  /** DECSC keeps the cursor and the attributes, DECRC brings them back, and the sequences
      ending in s and u do the same. */
  lemma SaveAndRestore(t: Term)
    requires InMemory(t) && t.p.mode == Ground
    ensures var saved := t.(s := t.s.(saved := Cursor(t.s.x, t.s.y, t.s.attr)));
            SameScreen(Run(t, DECSC), saved) && SameScreen(Run(t, Sequence(false, [], 's' as int)), saved)
    ensures var back := t.(s := t.s.(x := t.s.saved.x, y := t.s.saved.y, attr := t.s.saved.attr));
            SameScreen(Run(t, DECRC), back) && SameScreen(Run(t, Sequence(false, [], 'u' as int)), back)
  {
    hide Run, Sequence, InMemory;
    EscapesDo(t);
    SequencesDo(t);
  }

  /** A cursor that is saved, moved and given other attributes comes back as it was. */
  lemma CursorComesBack(t: Term, f: Byte, n: nat, ps: seq<nat>)
    requires InMemory(t) && t.p.mode == Ground && Moves(f) && |ps| <= MAX_ARGS
    ensures var u := Run(t, DECSC + Sequence(false, [n], f) + Sequence(false, ps, 'm' as int) + DECRC);
            SameScreen(u, t.(s := t.s.(saved := Cursor(t.s.x, t.s.y, t.s.attr))))
  {
    hide Run, Sequence, InMemory, Sgr, MoveCursor;
    var move, paint := Sequence(false, [n], f), Sequence(false, ps, 'm' as int);
    RunAppend(t, DECSC, move);
    RunAppend(t, DECSC + move, paint);
    RunAppend(t, DECSC + move + paint, DECRC);
    SaveAndRestore(t);
    MoveSpelled(Run(t, DECSC), f, n);
    RenditionSpelled(Run(t, DECSC + move), ps);
    SaveAndRestore(Run(t, DECSC + move + paint));
  }

  /** RIS: an empty main screen of 80 columns and 25 rows, no margins, the cursor home with
      default attributes and automatic wrapping; the history stays. */
  lemma FullReset(t: Term)
    requires InMemory(t) && t.p.mode == Ground
    ensures var u := Run(t, RIS);
            && u.history == t.history && u.p.mode == Ground && !u.s.alt
            && u.s.cols == 80 && u.s.rows == 25 && VisibleRows(u.s) == Blanks(25, 80)
            && FullRegion(u.s) && u.s.x == u.s.y == 0 && u.s.attr == DEFAULT_ATTR
            && u.s.autoWrap && u.s.visible && !u.s.appCursor
  {
    hide Run;
    EscapeRead(t, 'c' as int);
    var u := Run(t, RIS);
    forall r | 0 <= r < 25
      ensures VisibleRows(u.s)[r] == BlankLine(80)
    {
      ClearedRowIsBlank(ZeroGrid()[r], 80);
    }
  }

  /** A character set designation changes nothing on the screen. */
  lemma CharsetSwallowed(t: Term, c: Byte)
    requires InMemory(t) && t.p.mode == Ground
    ensures SameScreen(Run(t, [ESC, '(' as int] + [c]), t) && SameScreen(Run(t, [ESC, ')' as int] + [c]), t)
  {
    hide Run, InMemory;
    RunAppend(t, [ESC, '(' as int], [c]);
    RunAppend(t, [ESC, ')' as int], [c]);
    EscapesDo(t);
    RunOne(Run(t, [ESC, '(' as int]), c);
    RunOne(Run(t, [ESC, ')' as int]), c);
    MemoryHolds(SetParserMode(t, Charset));
  }

  /** Neither does an operating system command, up to its BEL. */
  lemma CommandSwallowed(t: Term, text: seq<Byte>)
    requires InMemory(t) && t.p.mode == Ground
    requires forall i :: 0 <= i < |text| ==> text[i] != BEL && text[i] != ESC
    ensures SameScreen(Run(t, [ESC, ']' as int] + text + [BEL]), t)
  {
    hide Run;
    EscapeRead(t, ']' as int);
    RunAppend(t, [ESC, ']' as int], text);
    RunAppend(t, [ESC, ']' as int] + text, [BEL]);
    TitleRead(Run(t, [ESC, ']' as int]), text);
    RunOne(Run(t, [ESC, ']' as int] + text), BEL);
  }

  lemma {:induction false} TitleRead(t: Term, text: seq<Byte>)
    requires InMemory(t) && t.p.mode == Osc
    requires forall i :: 0 <= i < |text| ==> text[i] != BEL && text[i] != ESC
    ensures var u := Run(t, text); u.s == t.s && u.history == t.history && u.p.mode == Osc
  {
    if text != [] {
      var n := |text| - 1;
      TitleRead(t, text[..n]);
    }
  }
}
