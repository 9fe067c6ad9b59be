/** Control functions from the bytes a program sends to what the user sees: editing, scrolling,
    margins, renditions, modes and the single-byte controls, each spelled out in full.
 */
module TerminalControls {
  import opened Basics
  import opened TerminalModel
  import opened TerminalRuns
  import opened TerminalLines
  import opened TerminalEdits
  import opened TerminalSequences

  /** A parameter that counts: zero stands for one. */
  function Times(n: nat): nat {
    if n == 0 then 1 else n
  }

  /** Only the grid differs: the cursor, the margins, the modes and the history stay, and the
      parser is ready for the next byte. */
  ghost predicate OnlyGrid(t: Term, u: Term) {
    u.s == t.s.(grid := u.s.grid) && u.history == t.history && u.p.mode == Ground
  }

  lemma EditSpelled(t: Term, n: nat, f: Byte)
    requires InMemory(t) && t.p.mode == Ground && IsFinal(f)
    requires f == 'L' as int || f == 'M' as int || f == '@' as int || f == 'P' as int || f == 'X' as int || f == 'T' as int
    ensures var u := Run(t, Sequence(false, [n], f));
            OnlyGrid(t, u) && u.s == EditGrid(t.s, Collected(t.p, false, [n]), f)
  {
    hide Run, Sequence, EditGrid, EraseDisplay, EraseLine;
    SequenceReadsBack(t, false, [n], f);
    var p := Collected(t.p, false, [n]);
    assert HandleCsi(t.(p := p), f) == t.(p := p, s := EditGrid(t.s, p, f));
    EditKeeps(t.s, p, f);
  }

  lemma EditKeeps(s: Screen, p: Parser, f: Byte)
    requires Sized(s) && ParserOk(p) && f != 'J' as int
    ensures EditGrid(s, p, f) == s.(grid := EditGrid(s, p, f).grid)
  {
  }

  // ---------------------------------------------------------------------------
  // Lines.

  /** IL: from the cursor's line to the bottom margin the lines move down and blank ones open;
      those pushed past the margin are lost.  Outside the margins nothing happens. */
  lemma LinesInserted(t: Term, n: nat)
    requires InMemory(t) && t.p.mode == Ground
    ensures var u := Run(t, Sequence(false, [n], 'L' as int));
            && OnlyGrid(t, u)
            && (if InRegion(t.s)
                then VisibleRows(u.s) == OpenLines(VisibleRows(t.s), t.s.y, t.s.bottom, Times(n), t.s.cols)
                else u.s == t.s)
  {
    hide Run, Sequence, VisibleRows, OpenLines;
    EditSpelled(t, n, 'L' as int);
    if InRegion(t.s) {
      InsertOpens(t.s, Times(n));
    }
  }

  /** DL: the lines from the cursor's line on are cut out, and blank ones enter at the bottom
      margin. */
  lemma LinesDeleted(t: Term, n: nat)
    requires InMemory(t) && t.p.mode == Ground
    ensures var u := Run(t, Sequence(false, [n], 'M' as int));
            && OnlyGrid(t, u)
            && (if InRegion(t.s)
                then VisibleRows(u.s) == CutLines(VisibleRows(t.s), t.s.y, t.s.bottom, Times(n), t.s.cols)
                else u.s == t.s)
  {
    hide Run, Sequence, VisibleRows, CutLines;
    EditSpelled(t, n, 'M' as int);
    if InRegion(t.s) {
      DeleteCuts(t.s, Times(n));
    }
  }

  /** SD: the lines between the margins move down. */
  lemma ScrolledDown(t: Term, n: nat)
    requires InMemory(t) && t.p.mode == Ground
    ensures var u := Run(t, Sequence(false, [n], 'T' as int));
            && OnlyGrid(t, u)
            && VisibleRows(u.s) == OpenLines(VisibleRows(t.s), t.s.top, t.s.bottom, Times(n), t.s.cols)
  {
    hide Run, Sequence, VisibleRows, OpenLines;
    EditSpelled(t, n, 'T' as int);
    ScrollsCut(t, Times(n));
  }

  /** SU: the lines between the margins move up; those of a main screen without margins go to
      the history, and of any other screen they are lost. */
  lemma ScrolledUp(t: Term, n: nat)
    requires InMemory(t) && t.p.mode == Ground
    ensures var u := Run(t, Sequence(false, [n], 'S' as int));
            var m := Times(n);
            && u.s == t.s.(grid := u.s.grid) && u.p.mode == Ground
            && VisibleRows(u.s) == CutLines(VisibleRows(t.s), t.s.top, t.s.bottom, m, t.s.cols)
            && u.history == if FullRegion(t.s) && !t.s.alt
                            then LastLines(t.history + (VisibleRows(t.s) + Blanks(m, t.s.cols))[..m], SCROLLBACK_MAX)
                            else t.history
  {
    hide Run, Sequence, VisibleRows, CutLines, RowsUp, LinesOff, Blanks;
    SequenceReadsBack(t, false, [n], 'S' as int);
    var p := Collected(t.p, false, [n]);
    var m := Times(n);
    assert HandleCsi(t.(p := p), 'S' as int) == ScrollUp(t.(p := p), m);
    ScrollsCut(t, m);
    if FullRegion(t.s) {
      LinesShift(t, m);
      assert (LinesOff(t.s.grid, t.s.rows, t.s.cols, m) + VisibleRows(ScrollUp(t, m).s))[..m]
          == LinesOff(t.s.grid, t.s.rows, t.s.cols, m);
    }
  }

  // ---------------------------------------------------------------------------
  // Characters.

  /** The cursor's line alone changes, into `line`. */
  ghost predicate OnlyLine(t: Term, u: Term, line: Line)
    requires Sized(t.s) && 0 <= t.s.y < t.s.rows && u.s.cols == t.s.cols
  {
    && VisibleRow(u.s, t.s.y) == line
    && forall r :: 0 <= r < t.s.rows && r != t.s.y ==> VisibleRow(u.s, r) == VisibleRow(t.s, r)
  }

  /** ICH, DCH and ECH: on the cursor's line, blanks are put in before the cell at the cursor,
      cells are taken out from it on, or cells are blanked; the line keeps its length.  With
      the cursor past the end of the line nothing happens. */
  lemma CharsEdited(t: Term, n: nat)
    requires InMemory(t) && t.p.mode == Ground
    ensures var i := Run(t, Sequence(false, [n], '@' as int));
            var d := Run(t, Sequence(false, [n], 'P' as int));
            var e := Run(t, Sequence(false, [n], 'X' as int));
            && OnlyGrid(t, i) && OnlyGrid(t, d) && OnlyGrid(t, e)
            && (if CursorInGrid(t.s) then
                  var line, m := VisibleRow(t.s, t.s.y), Min(Times(n), t.s.cols - t.s.x);
                  var blanks := BlankCells(m, t.s.attr);
                  && OnlyLine(t, i, line[..t.s.x] + blanks + line[t.s.x..t.s.cols - m])
                  && OnlyLine(t, d, line[..t.s.x] + line[t.s.x + m..] + blanks)
                  && OnlyLine(t, e, line[..t.s.x] + blanks + line[t.s.x + m..])
                else i.s == d.s == e.s == t.s)
  {
    hide Run, Sequence, VisibleRow, BlankCells;
    EditSpelled(t, n, '@' as int);
    EditSpelled(t, n, 'P' as int);
    EditSpelled(t, n, 'X' as int);
    if CursorInGrid(t.s) {
      CharsCut(t.s, Times(n));
    }
  }

  // ---------------------------------------------------------------------------
  // Margins.

  /** DECSTBM: the margins are the two lines named, counted from one, the second cut to the
      screen, a zero standing for the first and the last line; margins that do not leave two
      lines are the whole screen.  The cursor goes home. */
  lemma MarginsSet(t: Term, first: nat, last: nat)
    requires InMemory(t) && t.p.mode == Ground
    ensures var u := Run(t, Sequence(false, [first, last], 'r' as int));
            var a := Times(first);
            var b := if last == 0 || last > t.s.rows then t.s.rows else last;
            && u.history == t.history && u.p.mode == Ground
            && u.s == t.s.(top := if a < b then a - 1 else 0, bottom := if a < b then b - 1 else t.s.rows - 1,
                           x := 0, y := 0)
  {
    hide Run, Sequence;
    SequenceReadsBack(t, false, [first, last], 'r' as int);
    var p := Collected(t.p, false, [first, last]);
    assert p.args[0] == first && p.args[1] == last;
  }

  // ---------------------------------------------------------------------------
  // Renditions.

  /** SGR with these parameters turns the attributes `a` into `b`, and does nothing else. */
  ghost predicate Renders(t: Term, ps: seq<nat>, b: Attr)
    requires InMemory(t) && |ps| <= MAX_ARGS
  {
    var u := Run(t, Sequence(false, ps, 'm' as int));
    u.s == t.s.(attr := b) && u.history == t.history && u.p.mode == Ground
  }

  lemma RenditionSpelled(t: Term, ps: seq<nat>)
    requires InMemory(t) && t.p.mode == Ground && |ps| <= MAX_ARGS
    ensures var p := Collected(t.p, false, ps);
            Renders(t, ps, if ps == [] then DEFAULT_ATTR else Sgr(p.args, |ps|, 0, t.s.attr))
  {
    hide Run, Sequence, Sgr;
    SequenceReadsBack(t, false, ps, 'm' as int);
  }

  /** A code that stands by itself. */
  predicate Alone(c: nat) {
    c != 38 && c != 48
  }

  lemma OneCode(t: Term, c: nat)
    requires InMemory(t) && t.p.mode == Ground && Alone(c)
    ensures Renders(t, [c], SgrOne(c, t.s.attr))
  {
    hide Run, Sequence, SgrOne, Renders;
    RenditionSpelled(t, [c]);
    var p := Collected(t.p, false, [c]);
    assert p.args[0] == c;
    assert Sgr(p.args, 1, 1, SgrOne(c, t.s.attr)) == SgrOne(c, t.s.attr);
  }

  /** The codes of the four flags, of their ends, and of the default colours. */
  lemma FlagCodes(t: Term)
    requires InMemory(t) && t.p.mode == Ground
    ensures var a := t.s.attr;
            var f := a.flags;
            && Renders(t, [], DEFAULT_ATTR) && Renders(t, [0], DEFAULT_ATTR)
            && Renders(t, [1], a.(flags := f.(bold := true))) && Renders(t, [2], a.(flags := f.(dim := true)))
            && Renders(t, [4], a.(flags := f.(underline := true))) && Renders(t, [7], a.(flags := f.(reverse := true)))
            && Renders(t, [22], a.(flags := f.(bold := false, dim := false)))
            && Renders(t, [24], a.(flags := f.(underline := false)))
            && Renders(t, [27], a.(flags := f.(reverse := false)))
            && Renders(t, [39], a.(fg := 0xFFF8FAFC)) && Renders(t, [49], a.(bg := 0xFF0F172A))
  {
    hide Renders;
    RenditionSpelled(t, []);
    OneCode(t, 0);
    OneCode(t, 1);
    OneCode(t, 2);
    OneCode(t, 4);
    OneCode(t, 7);
    OneCode(t, 22);
    OneCode(t, 24);
    OneCode(t, 27);
    OneCode(t, 39);
    OneCode(t, 49);
  }

  /** The sixteen colours: eight normal and eight bright ones, each for the text and for the
      background, are the first sixteen of the 256-colour palette. */
  lemma ColourCodes(t: Term, k: nat)
    requires InMemory(t) && t.p.mode == Ground && k < 8
    ensures var a := t.s.attr;
            && Renders(t, [30 + k], a.(fg := Color256(k))) && Renders(t, [40 + k], a.(bg := Color256(k)))
            && Renders(t, [90 + k], a.(fg := Color256(8 + k))) && Renders(t, [100 + k], a.(bg := Color256(8 + k)))
  {
    hide Renders, Palette;
    OneCode(t, 30 + k);
    OneCode(t, 40 + k);
    OneCode(t, 90 + k);
    OneCode(t, 100 + k);
  }

  /** An opaque colour with these three channels. */
  function Opaque(r: Byte, g: Byte, b: Byte): int {
    ((255 * 256 + r) * 256 + g) * 256 + b
  }

  const LEVELS: seq<Byte> := [0, 95, 135, 175, 215, 255]

  lemma Channels(r: Byte, g: Byte, b: Byte)
    ensures Rgb(r, g, b) == Opaque(r, g, b)
  {
  }

  lemma CubeParts(r: nat, g: nat, b: nat)
    requires r < 6 && g < 6 && b < 6
    ensures var n := 36 * r + 6 * g + b; n < 216 && n / 36 == r && n / 6 % 6 == g && n % 6 == b
  {
    var n := 36 * r + 6 * g + b;
    assert n / 6 == 6 * r + g;
  }

  /** The sixteen fixed colours, normal and bright, each from black to white. */
  const FIXED := [0x181825, 0xF87171, 0x4ADE80, 0xFBBF24, 0x60A5FA, 0xF472B6, 0x38BDF8, 0xE2E8F0,
                  0x64748B, 0xEF4444, 0x22C55E, 0xF59E0B, 0x3B82F6, 0xEC4899, 0x06B6D4, 0xFFFFFF]

  lemma FixedColours(k: nat)
    requires k < 16
    ensures Color256(k) == 0xFF000000 + FIXED[k]
  {
  }

  /** The palette: sixteen fixed colours, a cube of six levels a channel, and a ramp of
      greys. */
  lemma Palette256(r: nat, g: nat, b: nat, k: nat)
    requires r < 6 && g < 6 && b < 6 && k < 24
    ensures k < 16 ==> Color256(k) == 0xFF000000 + FIXED[k]
    ensures Color256(16 + 36 * r + 6 * g + b) == Opaque(LEVELS[r], LEVELS[g], LEVELS[b])
    ensures Color256(232 + k) == Opaque(8 + 10 * k, 8 + 10 * k, 8 + 10 * k)
  {
    hide Rgb, Opaque, Palette;
    if k < 16 {
      FixedColours(k);
    }
    CubeParts(r, g, b);
    var n := 36 * r + 6 * g + b;
    assert Color256(16 + n) == Rgb(Level(n / 36), Level(n / 6 % 6), Level(n % 6));
    assert Level(r) == LEVELS[r] && Level(g) == LEVELS[g] && Level(b) == LEVELS[b];
    Channels(LEVELS[r], LEVELS[g], LEVELS[b]);
    Channels(8 + 10 * k, 8 + 10 * k, 8 + 10 * k);
  }

  /** Extended colours: one of the palette by number, or three channels. */
  lemma ExtendedCodes(t: Term, k: nat, r: Byte, g: Byte, b: Byte)
    requires InMemory(t) && t.p.mode == Ground
    ensures var a := t.s.attr;
            && Renders(t, [38, 5, k], a.(fg := Color256(k))) && Renders(t, [48, 5, k], a.(bg := Color256(k)))
            && Renders(t, [38, 2, r, g, b], a.(fg := Opaque(r, g, b)))
            && Renders(t, [48, 2, r, g, b], a.(bg := Opaque(r, g, b)))
  {
    hide Renders;
    RenditionSpelled(t, [38, 5, k]);
    RenditionSpelled(t, [48, 5, k]);
    RenditionSpelled(t, [38, 2, r, g, b]);
    RenditionSpelled(t, [48, 2, r, g, b]);
  }

  lemma {:induction false} SgrShifted(xs: seq<int>, n: nat, ys: seq<int>, m: nat, i: nat, a: Attr)
    requires m <= n <= |xs| && m <= |ys| && xs[n - m..n] == ys[..m]
    ensures Sgr(xs, n, n - m + i, a) == Sgr(ys, m, i, a)
    decreases |ys| - i
  {
    if i < m {
      hide SgrOne;
      assert forall j :: 0 <= j < m ==> xs[n - m + j] == xs[n - m..n][j] == ys[j];
      var c := ys[i];
      assert xs[n - m + i] == c;
      if c == 38 || c == 48 {
        assert ExtendedColor(xs, n, n - m + i) == ExtendedColor(ys, m, i);
        var (color, used) := ExtendedColor(ys, m, i);
        SgrShifted(xs, n, ys, m, i + 1 + used, if used == 0 then a else if c == 38 then a.(fg := color) else a.(bg := color));
      } else {
        SgrShifted(xs, n, ys, m, i + 1, SgrOne(c, a));
      }
    }
  }

  lemma {:induction false} SgrSplit(xs: seq<int>, n: nat, ys: seq<int>, m: nat, i: nat, a: Attr)
    requires i <= m <= n <= |xs| && m <= |ys| && xs[..m] == ys[..m]
    requires forall j :: 0 <= j < m ==> ys[j] != 38 && ys[j] != 48
    ensures Sgr(xs, n, i, a) == Sgr(xs, n, m, Sgr(ys, m, i, a))
    decreases m - i
  {
    if i < m {
      hide SgrOne, ExtendedColor;
      assert xs[i] == xs[..m][i] == ys[i];
      SgrSplit(xs, n, ys, m, i + 1, SgrOne(ys[i], a));
    }
  }

  /** Codes are taken in turn: the attributes after a list of codes are those after its first
      part and then the rest, sent one after the other. */
  lemma CodesInTurn(t: Term, ps: seq<nat>, qs: seq<nat>)
    requires InMemory(t) && t.p.mode == Ground && ps != [] && qs != [] && |ps + qs| <= MAX_ARGS
    requires forall j :: 0 <= j < |ps| ==> Alone(ps[j])
    ensures var one := Run(t, Sequence(false, ps + qs, 'm' as int));
            var two := Run(Run(t, Sequence(false, ps, 'm' as int)), Sequence(false, qs, 'm' as int));
            one.s == two.s && one.history == two.history
  {
    hide Run, Sequence, Sgr;
    var mid := Run(t, Sequence(false, ps, 'm' as int));
    RenditionSpelled(t, ps + qs);
    RenditionSpelled(t, ps);
    RenditionSpelled(mid, qs);
    var p, q, all := Collected(t.p, false, ps).args, Collected(mid.p, false, qs).args, Collected(t.p, false, ps + qs).args;
    SgrSplit(all, |ps + qs|, p, |ps|, 0, t.s.attr);
    SgrShifted(all, |ps + qs|, q, |qs|, 0, mid.s.attr);
  }

  // ---------------------------------------------------------------------------
  // Resizing.

  /** A resized screen shows what both sizes have in common and blanks elsewhere; the history
      stays and the cursor is moved onto the screen. */
  lemma ResizeShows(t: Term, cols: nat, rows: nat)
    requires InMemory(t) && MIN_COLS <= cols <= MAX_COLS && MIN_ROWS <= rows <= MAX_ROWS
    ensures var u := Resize(t, cols, rows);
            && u.s.cols == cols && u.s.rows == rows && u.history == t.history && FullRegion(u.s)
            && u.s.x == Min(t.s.x, cols - 1) && u.s.y == Min(t.s.y, rows - 1)
            && forall r, c :: 0 <= r < rows && 0 <= c < cols ==>
                 VisibleRow(u.s, r)[c] == if r < t.s.rows && c < t.s.cols then VisibleRow(t.s, r)[c] else BLANK
  {
  }

  /** As many cells as fit between the paddings, within the limits. */
  lemma CellsFit(size: int, pad: nat, cell: nat, least: nat, most: nat)
    requires cell > 0 && 0 < least <= most
    ensures var n := CellsIn(size, pad, cell, least, most);
            && least <= n <= most
            && (n > least ==> n * cell + pad * 2 <= size)
            && (n < most ==> size < (n + 1) * cell + pad * 2)
  {
    CellsInRange(size, pad, cell, least, most);
    var px := if size < least * cell + pad * 2 then least * cell + pad * 2 else size;
    var q := (px - pad * 2) / cell;
    FloorOf(px - pad * 2, cell);
    if size < least * cell + pad * 2 && q > least {
      Grows(least + 1, q, cell);
    }
    if q > most {
      Grows(most, q, cell);
    }
  }

  lemma FloorOf(a: int, k: nat)
    requires a >= 0 && k > 0
    ensures a / k * k <= a < (a / k + 1) * k
  {
    assert a == a / k * k + a % k;
  }

  lemma Grows(a: nat, b: nat, k: nat)
    requires a <= b
    ensures a * k <= b * k
  {
  }
}
