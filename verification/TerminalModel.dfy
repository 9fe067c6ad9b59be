/** The terminal emulator as a state machine over bytes, on values: what every control
    function does to the cell grid, stated in closed form, and the escape-sequence parser.
 */
module TerminalModel {
  import opened Basics

  const MAX_COLS: nat := 256
  const MAX_ROWS: nat := 128
  const MIN_COLS: nat := 24
  const MIN_ROWS: nat := 6
  const DEFAULT_COLS: nat := 80
  const DEFAULT_ROWS: nat := 25
  const SCROLLBACK_MAX: nat := 2000
  const MAX_ARGS: nat := 16
  const OSC_SIZE: nat := 256

  const COLOR_FG := 0xFFF8FAFC
  const COLOR_BG := 0xFF0F172A

  datatype Flags = Flags(bold: bool, underline: bool, reverse: bool, dim: bool)
  const PLAIN := Flags(false, false, false, false)

  datatype Attr = Attr(fg: int, bg: int, flags: Flags)
  const DEFAULT_ATTR := Attr(COLOR_FG, COLOR_BG, PLAIN)

  datatype Cell = Cell(ch: Byte, fg: int, bg: int, flags: Flags)
  const BLANK := Cell(32, COLOR_FG, COLOR_BG, PLAIN)
  const ZERO := Cell(0, 0, 0, PLAIN)

  type Row = r: seq<Cell> | |r| == MAX_COLS witness seq(MAX_COLS, _ => ZERO)
  type Grid = g: seq<Row> | |g| == MAX_ROWS witness seq(MAX_ROWS, _ => seq(MAX_COLS, _ => ZERO))

  datatype Cursor = Cursor(x: int, y: int, attr: Attr)

  datatype Mode = Ground | Escape | Csi | Osc | Charset

  /** The escape-sequence parser. */
  datatype Parser = Parser(mode: Mode, args: seq<int>, argc: nat, private_: bool, osc: seq<Byte>, oscLen: nat)

  /** The screen: both grids, the cursor, the scrolling region and the modes. */
  datatype Screen = Screen(
    grid: Grid,
    mainGrid: Grid,
    alt: bool,
    cols: nat,
    rows: nat,
    x: int,
    y: int,
    attr: Attr,
    top: int,
    bottom: int,
    saved: Cursor,
    visible: bool,
    appCursor: bool,
    autoWrap: bool)

  /** The lines scrolled off, oldest first, each as wide as the screen was, and how far back
      the view is scrolled. */
  datatype Term = Term(s: Screen, p: Parser, history: seq<seq<Cell>>, offset: nat)

  // ---------------------------------------------------------------------------
  // Invariants.

  ghost predicate Sized(s: Screen) {
    && MIN_COLS <= s.cols <= MAX_COLS
    && MIN_ROWS <= s.rows <= MAX_ROWS
    && 0 <= s.top < s.bottom < s.rows
  }

  ghost predicate ParserOk(p: Parser) {
    |p.args| == MAX_ARGS && p.argc <= MAX_ARGS && |p.osc| == OSC_SIZE && p.oscLen < OSC_SIZE
  }

  ghost predicate HistoryOk(h: seq<seq<Cell>>) {
    |h| <= SCROLLBACK_MAX && forall i :: 0 <= i < |h| ==> |h[i]| <= MAX_COLS
  }

  /** Enough for every buffer access to be in bounds; kept even when the window is resized. */
  ghost predicate InMemory(t: Term) {
    && Sized(t.s) && ParserOk(t.p) && HistoryOk(t.history)
    && 0 <= t.s.x <= MAX_COLS && 0 <= t.s.y < MAX_ROWS
    && 0 <= t.s.saved.x <= MAX_COLS && 0 <= t.s.saved.y < MAX_ROWS
  }

  /** The cursor and the saved cursor are on the screen, or just past the end of a row. */
  ghost predicate OnScreen(t: Term) {
    && InMemory(t)
    && t.s.x <= t.s.cols && t.s.y < t.s.rows
    && t.s.saved.x <= t.s.cols && t.s.saved.y < t.s.rows
  }

  // ---------------------------------------------------------------------------
  // Rows and grids.

  function BlankOf(a: Attr): Cell {
    Cell(32, a.fg, a.bg, PLAIN)
  }

  function Fill(r: Row, from: int, to: int, c: Cell): Row {
    seq(MAX_COLS, k requires 0 <= k < MAX_COLS => if from <= k < to then c else r[k])
  }

  /** Columns `from` to `to`, clipped to the screen, of one row are overwritten. */
  function ClearLine(s: Screen, row: int, from: int, to: int, c: Cell): (u: Screen)
    requires s.cols <= MAX_COLS && s.rows <= MAX_ROWS
    ensures u == s.(grid := u.grid)
  {
    if 0 <= row < s.rows
    then s.(grid := s.grid[row := Fill(s.grid[row], from, if to > s.cols then s.cols else to, c)])
    else s
  }

  /** Row `r` after rows `top` to `bot` move up by `n`; those exposed at the bottom are
      cleared. */
  function RowUp(g: Grid, top: nat, bot: nat, n: nat, cols: nat, r: nat): Row
    requires bot < MAX_ROWS && r < MAX_ROWS
  {
    if r < top || bot < r then g[r] else if r + n <= bot then g[r + n] else Fill(g[bot], 0, cols, BLANK)
  }

  function RowsUp(g: Grid, top: nat, bot: nat, n: nat, cols: nat): Grid
    requires bot < MAX_ROWS
  {
    seq(MAX_ROWS, r requires 0 <= r < MAX_ROWS => RowUp(g, top, bot, n, cols, r))
  }

  /** Row `r` after rows `top` to `bot` move down by `n`; those exposed at the top are
      cleared. */
  function RowDown(g: Grid, top: nat, bot: nat, n: nat, cols: nat, r: nat): Row
    requires top < MAX_ROWS && r < MAX_ROWS
  {
    if r < top || bot < r then g[r] else if top + n <= r then g[r - n] else Fill(g[top], 0, cols, BLANK)
  }

  function RowsDown(g: Grid, top: nat, bot: nat, n: nat, cols: nat): Grid
    requires top < MAX_ROWS
  {
    seq(MAX_ROWS, r requires 0 <= r < MAX_ROWS => RowDown(g, top, bot, n, cols, r))
  }

  /** Every row below `rows` cleared over the width of the screen. */
  function Cleared(g: Grid, rows: nat, cols: nat): Grid {
    seq(MAX_ROWS, r requires 0 <= r < MAX_ROWS => if r < rows then Fill(g[r], 0, cols, BLANK) else g[r])
  }

  /** Rows `from` to `to` of the screen cleared with the current colours. */
  function ClearRows(s: Screen, from: int, to: int): (u: Screen)
    ensures u == s.(grid := u.grid)
  {
    s.(grid := seq(MAX_ROWS, r requires 0 <= r < MAX_ROWS =>
      if from <= r < to && r < s.rows then Fill(s.grid[r], 0, s.cols, BlankOf(s.attr)) else s.grid[r]))
  }

  function AtLeastOne(count: int): nat {
    if count <= 0 then 1 else count
  }

  function LastLines(h: seq<seq<Cell>>, n: nat): seq<seq<Cell>> {
    if |h| <= n then h else h[|h| - n..]
  }

  function BlankLine(cols: nat): seq<Cell> {
    seq(cols, _ => BLANK)
  }

  /** The lines that leave the top of a full-screen scroll by `n`. */
  function LinesOff(g: Grid, rows: nat, cols: nat, n: nat): (lines: seq<seq<Cell>>)
    requires rows <= MAX_ROWS && cols <= MAX_COLS
    ensures |lines| == n && forall i :: 0 <= i < n ==> |lines[i]| == cols
  {
    seq(n, i requires 0 <= i < n => LineOff(g, rows, cols, i))
  }

  function LineOff(g: Grid, rows: nat, cols: nat, i: nat): (line: seq<Cell>)
    requires rows <= MAX_ROWS && cols <= MAX_COLS
    ensures |line| == cols
  {
    if i < rows then var r: Row := g[i]; r[..cols] else BlankLine(cols)
  }

  predicate FullRegion(s: Screen) {
    s.top == 0 && s.bottom == s.rows - 1
  }

  function ScrollUp(t: Term, count: int): Term
    requires Sized(t.s)
  {
    var n := AtLeastOne(count);
    var g := RowsUp(t.s.grid, t.s.top, t.s.bottom, n, t.s.cols);
    t.(s := t.s.(grid := g),
       history := if FullRegion(t.s) && !t.s.alt
                  then LastLines(t.history + LinesOff(t.s.grid, t.s.rows, t.s.cols, n), SCROLLBACK_MAX)
                  else t.history)
  }

  function ScrollDown(s: Screen, count: int): (u: Screen)
    requires Sized(s)
    ensures u == s.(grid := u.grid)
  {
    s.(grid := RowsDown(s.grid, s.top, s.bottom, AtLeastOne(count), s.cols))
  }

  function InsertLines(s: Screen, count: int): (u: Screen)
    requires Sized(s)
    ensures u == s.(grid := u.grid)
  {
    if s.y < s.top || s.y > s.bottom then s
    else s.(grid := RowsDown(s.grid, s.y, s.bottom, AtLeastOne(count), s.cols))
  }

  function DeleteLines(s: Screen, count: int): (u: Screen)
    requires Sized(s)
    ensures u == s.(grid := u.grid)
  {
    if s.y < s.top || s.y > s.bottom then s
    else s.(grid := RowsUp(s.grid, s.y, s.bottom, AtLeastOne(count), s.cols))
  }

  predicate CursorInGrid(s: Screen) {
    0 <= s.y < s.rows && 0 <= s.x < s.cols
  }

  function Clip(count: int, room: nat): nat {
    if AtLeastOne(count) > room then room else AtLeastOne(count)
  }

  function RowInsert(r: Row, c: nat, n: nat, cols: nat, blank: Cell): Row
    requires c + n <= cols <= MAX_COLS
  {
    seq(MAX_COLS, k requires 0 <= k < MAX_COLS =>
      if k < c || cols <= k then r[k] else if k < c + n then blank else r[k - n])
  }

  function RowDelete(r: Row, c: nat, n: nat, cols: nat, blank: Cell): Row
    requires c + n <= cols <= MAX_COLS
  {
    seq(MAX_COLS, k requires 0 <= k < MAX_COLS =>
      if k < c || cols <= k then r[k] else if k + n < cols then r[k + n] else blank)
  }

  function InsertChars(s: Screen, count: int): (u: Screen)
    requires Sized(s)
    ensures u == s.(grid := u.grid)
  {
    if !CursorInGrid(s) then s
    else s.(grid := s.grid[s.y := RowInsert(s.grid[s.y], s.x, Clip(count, s.cols - s.x), s.cols, BlankOf(s.attr))])
  }

  function DeleteChars(s: Screen, count: int): (u: Screen)
    requires Sized(s)
    ensures u == s.(grid := u.grid)
  {
    if !CursorInGrid(s) then s
    else s.(grid := s.grid[s.y := RowDelete(s.grid[s.y], s.x, Clip(count, s.cols - s.x), s.cols, BlankOf(s.attr))])
  }

  function EraseChars(s: Screen, count: int): (u: Screen)
    requires Sized(s)
    ensures u == s.(grid := u.grid)
  {
    if !CursorInGrid(s) then s
    else ClearLine(s, s.y, s.x, s.x + AtLeastOne(count), BlankOf(s.attr))
  }

  // ---------------------------------------------------------------------------
  // Cursor, modes, attributes.

  function SaveCursor(s: Screen): Screen {
    s.(saved := Cursor(s.x, s.y, s.attr))
  }

  function RestoreCursor(s: Screen): Screen {
    s.(x := s.saved.x, y := s.saved.y, attr := s.saved.attr)
  }

  function SetAlt(t: Term, enable: bool): Term {
    if t.s.alt == enable then t
    else if enable then
      var s := SaveCursor(t.s);
      t.(s := s.(alt := true, mainGrid := s.grid, grid := Cleared(s.grid, s.rows, s.cols), x := 0, y := 0), offset := 0)
    else
      t.(s := RestoreCursor(t.s).(alt := false, grid := t.s.mainGrid), offset := 0)
  }

  function ZeroGrid(): Grid {
    seq(MAX_ROWS, _ => seq(MAX_COLS, _ => ZERO))
  }

  function FreshScreen(): Screen {
    Screen(Cleared(ZeroGrid(), DEFAULT_ROWS, DEFAULT_COLS), ZeroGrid(), false, DEFAULT_COLS, DEFAULT_ROWS, 0, 0,
           DEFAULT_ATTR, 0, DEFAULT_ROWS - 1, Cursor(0, 0, Attr(0, 0, PLAIN)), true, false, true)
  }

  function FreshParser(): Parser {
    Parser(Ground, seq(MAX_ARGS, _ => 0), 0, false, seq(OSC_SIZE, _ => 0), 0)
  }

  /** term_init: everything but the history and the view. */
  function Reset(t: Term): Term {
    t.(s := FreshScreen(), p := FreshParser())
  }

  function Clamp(v: int, low: int, high: int): int {
    if v > high then high else if v < low then low else v
  }

  /** Row `r` after a resize: newly exposed cells are blank. */
  function Exposed(s: Screen, cols: nat, rows: nat, r: nat): Row
    requires r < MAX_ROWS
  {
    var row: Row := s.grid[r];
    seq(MAX_COLS, c requires 0 <= c < MAX_COLS =>
      if r < rows && c < cols && (r >= s.rows || c >= s.cols) then BLANK else row[c])
  }

  function ExposedGrid(s: Screen, cols: nat, rows: nat): Grid {
    seq(MAX_ROWS, r requires 0 <= r < MAX_ROWS => Exposed(s, cols, rows, r))
  }

  /** Newly exposed cells become blank, the region is the whole screen, and the cursor is
      moved onto the screen; the saved cursor is not. */
  function Resize(t: Term, cols: nat, rows: nat): Term
    requires MIN_COLS <= cols <= MAX_COLS && MIN_ROWS <= rows <= MAX_ROWS
  {
    var s := t.s;
    t.(s := s.(grid := ExposedGrid(s, cols, rows), cols := cols, rows := rows, top := 0, bottom := rows - 1,
               x := Clamp(s.x, 0, cols - 1), y := Clamp(s.y, 0, rows - 1)))
  }

  /** The number of cells that fit: `size` pixels less the padding on both sides, at least
      `least` cells and at most `most`. */
  function CellsIn(size: int, pad: nat, cell: nat, least: nat, most: nat): int
    requires cell > 0
  {
    var px := if size < least * cell + pad * 2 then least * cell + pad * 2 else size;
    var n := (px - pad * 2) / cell;
    if n > most then most else n
  }

  function Palette(i: int): int {
    if i == 0 then 0xFF181825 else if i == 1 then 0xFFF87171 else if i == 2 then 0xFF4ADE80
    else if i == 3 then 0xFFFBBF24 else if i == 4 then 0xFF60A5FA else if i == 5 then 0xFFF472B6
    else if i == 6 then 0xFF38BDF8 else if i == 7 then 0xFFE2E8F0 else if i == 8 then 0xFF64748B
    else if i == 9 then 0xFFEF4444 else if i == 10 then 0xFF22C55E else if i == 11 then 0xFFF59E0B
    else if i == 12 then 0xFF3B82F6 else if i == 13 then 0xFFEC4899 else if i == 14 then 0xFF06B6D4
    else 0xFFFFFFFF
  }

  function Rgb(r: int, g: int, b: int): int {
    0xFF000000 + (r % 256) * 0x10000 + (g % 256) * 0x100 + b % 256
  }

  function Level(v: int): int {
    if v == 0 then 0 else v * 40 + 55
  }

  function Color256(i: int): int {
    if i < 0 then COLOR_FG
    else if i < 16 then Palette(i)
    else if i < 232 then Rgb(Level((i - 16) / 36), Level((i - 16) / 6 % 6), Level((i - 16) % 6))
    else if i < 256 then Rgb((i - 232) * 10 + 8, (i - 232) * 10 + 8, (i - 232) * 10 + 8)
    else COLOR_FG
  }

  /** The extended colour at parameter `i` (38 or 48), if complete, and how many further
      parameters it uses. */
  function ExtendedColor(args: seq<int>, argc: nat, i: nat): (int, nat)
    requires i < argc <= |args|
  {
    if i + 2 < argc && args[i + 1] == 5 then (Color256(args[i + 2]), 2)
    else if i + 4 < argc && args[i + 1] == 2 then (Rgb(args[i + 2], args[i + 3], args[i + 4]), 4)
    else (0, 0)
  }

  /** Select Graphic Rendition, from parameter `i` on. */
  function Sgr(args: seq<int>, argc: nat, i: nat, a: Attr): Attr
    requires argc <= |args|
    decreases |args| - i
  {
    if i >= argc then a else
    var c := args[i];
    if c == 38 || c == 48 then
      var (color, used) := ExtendedColor(args, argc, i);
      Sgr(args, argc, i + 1 + used, if used == 0 then a else if c == 38 then a.(fg := color) else a.(bg := color))
    else Sgr(args, argc, i + 1, SgrOne(c, a))
  }

  function SgrOne(c: int, a: Attr): Attr {
    if c == 0 then DEFAULT_ATTR
    else if c == 1 then a.(flags := a.flags.(bold := true))
    else if c == 2 then a.(flags := a.flags.(dim := true))
    else if c == 4 then a.(flags := a.flags.(underline := true))
    else if c == 7 then a.(flags := a.flags.(reverse := true))
    else if c == 22 then a.(flags := a.flags.(bold := false, dim := false))
    else if c == 24 then a.(flags := a.flags.(underline := false))
    else if c == 27 then a.(flags := a.flags.(reverse := false))
    else if 30 <= c <= 37 then a.(fg := Palette(c - 30))
    else if c == 39 then a.(fg := COLOR_FG)
    else if 40 <= c <= 47 then a.(bg := Palette(c - 40))
    else if c == 49 then a.(bg := COLOR_BG)
    else if 90 <= c <= 97 then a.(fg := Palette(c - 90 + 8))
    else if 100 <= c <= 107 then a.(bg := Palette(c - 100 + 8))
    else a
  }

  predicate AltMode(mode: int) {
    mode == 47 || mode == 1047 || mode == 1049
  }

  function SetMode(t: Term, mode: int, enable: bool): Term {
    if mode == 1 then t.(s := t.s.(appCursor := enable))
    else if mode == 7 then t.(s := t.s.(autoWrap := enable))
    else if mode == 25 then t.(s := t.s.(visible := enable))
    else if AltMode(mode) then SetAlt(t, enable)
    else t
  }

  /** DECSET and DECRST over the first `n` parameters. */
  function SetModes(t: Term, modes: seq<int>, n: nat, enable: bool): Term
    requires n <= |modes|
    decreases n
  {
    if n == 0 then t else SetMode(SetModes(t, modes, n - 1, enable), modes[n - 1], enable)
  }

  // ---------------------------------------------------------------------------
  // Control sequences.

  function Arg(p: Parser, i: nat): int
    requires i < |p.args|
  {
    if p.argc > i && p.args[i] > 0 then p.args[i] else 1
  }

  /** Cursor movement: CUU CUD CUF CUB CNL CPL CHA VPA CUP HVP. */
  function MoveCursor(s: Screen, f: Byte, a: int, b: int): (u: Screen)
    ensures u == s.(x := u.x, y := u.y)
  {
    if f == 'A' as int then s.(y := if s.y - a < s.top then s.top else s.y - a)
    else if f == 'B' as int then s.(y := if s.y + a > s.bottom then s.bottom else s.y + a)
    else if f == 'C' as int then s.(x := if s.x + a >= s.cols then s.cols - 1 else s.x + a)
    else if f == 'D' as int then s.(x := if s.x - a < 0 then 0 else s.x - a)
    else if f == 'E' as int then s.(x := 0, y := if s.y + a > s.bottom then s.bottom else s.y + a)
    else if f == 'F' as int then s.(x := 0, y := if s.y - a < s.top then s.top else s.y - a)
    else if f == 'G' as int || f == '`' as int then s.(x := Clamp(a - 1, 0, s.cols - 1))
    else if f == 'd' as int then s.(y := Clamp(a - 1, 0, s.rows - 1))
    else s.(x := Clamp(b - 1, 0, s.cols - 1), y := Clamp(a - 1, 0, s.rows - 1))
  }

  predicate Moves(f: Byte) {
    'A' as int <= f <= 'H' as int || f == '`' as int || f == 'd' as int || f == 'f' as int
  }

  /** Erase in Display. */
  function EraseDisplay(s: Screen, p: Parser): (u: Screen)
    requires Sized(s) && ParserOk(p)
    ensures u == s.(grid := u.grid) || u == s.(grid := u.grid, x := 0, y := 0)
  {
    var blank := BlankOf(s.attr);
    if p.argc == 0 || p.args[0] == 0 then
      ClearRows(ClearLine(s, s.y, s.x, s.cols, blank), s.y + 1, s.rows)
    else if p.args[0] == 1 then
      ClearLine(ClearRows(s, 0, s.y), s.y, 0, s.x + 1, blank)
    else if p.args[0] == 2 || p.args[0] == 3 then
      s.(grid := Cleared(s.grid, s.rows, s.cols), x := 0, y := 0)
    else s
  }

  /** Erase in Line. */
  function EraseLine(s: Screen, p: Parser): (u: Screen)
    requires Sized(s) && ParserOk(p)
    ensures u == s.(grid := u.grid)
  {
    var blank := BlankOf(s.attr);
    if p.argc == 0 || p.args[0] == 0 then ClearLine(s, s.y, s.x, s.cols, blank)
    else if p.args[0] == 1 then ClearLine(s, s.y, 0, s.x + 1, blank)
    else if p.args[0] == 2 then ClearLine(s, s.y, 0, s.cols, blank)
    else s
  }

  /** DECSTBM. */
  function SetRegion(s: Screen, p: Parser): (u: Screen)
    requires Sized(s) && ParserOk(p)
    ensures u == s.(top := u.top, bottom := u.bottom, x := 0, y := 0) && Sized(u)
  {
    var top := Arg(p, 0) - 1;
    var wanted := if p.argc > 1 && p.args[1] > 0 then p.args[1] - 1 else s.rows - 1;
    var bottom := if wanted >= s.rows then s.rows - 1 else wanted;
    if top >= bottom then s.(top := 0, bottom := s.rows - 1, x := 0, y := 0)
    else s.(top := top, bottom := bottom, x := 0, y := 0)
  }

  /** Erasing, inserting, deleting and scrolling down: ED EL IL DL ICH DCH ECH SD. */
  function EditGrid(s: Screen, p: Parser, f: Byte): (u: Screen)
    requires Sized(s) && ParserOk(p)
    ensures u == s.(grid := u.grid) || u == s.(grid := u.grid, x := 0, y := 0)
  {
    var n := Arg(p, 0);
    if f == 'J' as int then EraseDisplay(s, p)
    else if f == 'K' as int then EraseLine(s, p)
    else if f == 'L' as int then InsertLines(s, n)
    else if f == 'M' as int then DeleteLines(s, n)
    else if f == '@' as int then InsertChars(s, n)
    else if f == 'P' as int then DeleteChars(s, n)
    else if f == 'X' as int then EraseChars(s, n)
    else if f == 'T' as int then ScrollDown(s, n)
    else s
  }

  function EditScreen(s: Screen, p: Parser, f: Byte): Screen
    requires Sized(s) && ParserOk(p)
  {
    if f == 'r' as int then SetRegion(s, p)
    else if f == 'm' as int then s.(attr := if p.argc == 0 then DEFAULT_ATTR else Sgr(p.args, p.argc, 0, s.attr))
    else if f == 's' as int then SaveCursor(s)
    else if f == 'u' as int then RestoreCursor(s)
    else EditGrid(s, p, f)
  }

  /** term_handle_csi. */
  function HandleCsi(t: Term, f: Byte): Term
    requires Sized(t.s) && ParserOk(t.p)
  {
    if t.p.private_ then
      if f == 'h' as int then SetModes(t, t.p.args, if t.p.argc == 0 then 1 else t.p.argc, true)
      else if f == 'l' as int then SetModes(t, t.p.args, if t.p.argc == 0 then 1 else t.p.argc, false)
      else t
    else if f == 'S' as int then ScrollUp(t, Arg(t.p, 0))
    else if Moves(f) then t.(s := MoveCursor(t.s, f, Arg(t.p, 0), Arg(t.p, 1)))
    else t.(s := EditScreen(t.s, t.p, f))
  }

  // ---------------------------------------------------------------------------
  // Bytes.

  function LineFeed(t: Term): Term
    requires Sized(t.s)
  {
    if t.s.y + 1 > t.s.bottom then ScrollUp(t.(s := t.s.(y := t.s.bottom)), 1)
    else t.(s := t.s.(y := t.s.y + 1))
  }

  /** Room for one more glyph: a line that is full is wrapped now, not when it filled up. */
  function MakeRoom(t: Term): (u: Term)
    requires Sized(t.s)
    ensures Sized(u.s)
  {
    if t.s.x < t.s.cols then t
    else if t.s.autoWrap then LineFeed(t.(s := t.s.(x := 0)))
    else t.(s := t.s.(x := t.s.cols - 1))
  }

  function StoreGlyph(s: Screen, c: Byte): Screen
    requires Sized(s)
  {
    if CursorInGrid(s) then
      var cell := Cell(c, s.attr.fg, s.attr.bg, s.attr.flags);
      s.(grid := s.grid[s.y := s.grid[s.y][s.x := cell]], x := s.x + 1)
    else s
  }

  function PutGlyph(t: Term, c: Byte): Term
    requires Sized(t.s)
  {
    var u := MakeRoom(t);
    u.(s := StoreGlyph(u.s, c))
  }

  function SetParserMode(t: Term, m: Mode): Term {
    t.(p := t.p.(mode := m))
  }

  const ESC := 0x1b
  const BEL := 0x07
  const DEL := 0x7f

  predicate IsNewline(c: Byte) {
    c == 10 || c == 11 || c == 12
  }

  predicate IsPrintable(c: Byte) {
    c >= 32 && c != DEL
  }

  predicate IsColumnControl(c: Byte) {
    c == 13 || c == 8 || c == 9
  }

  /** Carriage return, backspace and tab; tab stops are eight columns apart. */
  function NextColumn(s: Screen, c: Byte): int {
    if c == 13 then 0
    else if c == 8 then (if s.x > 0 then s.x - 1 else s.x)
    else
      var next := (s.x + 8) / 8 * 8;
      if next >= s.cols then s.cols - 1 else next
  }

  function GroundByte(t: Term, c: Byte): Term
    requires Sized(t.s)
  {
    if c == ESC then SetParserMode(t, Escape)
    else if IsNewline(c) then LineFeed(t.(s := t.s.(x := 0)))
    else if IsColumnControl(c) then t.(s := t.s.(x := NextColumn(t.s, c)))
    else if IsPrintable(c) then PutGlyph(t, c)
    else t
  }

  /** IND and the vertical part of NEL. */
  function Index(t: Term): Term
    requires Sized(t.s)
  {
    if t.s.y >= t.s.bottom then ScrollUp(t, 1) else t.(s := t.s.(y := t.s.y + 1))
  }

  function ReverseIndex(s: Screen): Screen
    requires Sized(s)
  {
    if s.y <= s.top then ScrollDown(s, 1) else s.(y := s.y - 1)
  }

  function EscapeByte(t: Term, c: Byte): Term
    requires Sized(t.s) && ParserOk(t.p)
  {
    if c == '[' as int then t.(p := t.p.(mode := Csi, argc := 0, args := seq(MAX_ARGS, _ => 0), private_ := false))
    else if c == ']' as int then t.(p := t.p.(mode := Osc, oscLen := 0, osc := t.p.osc[0 := 0]))
    else if c == '(' as int || c == ')' as int then SetParserMode(t, Charset)
    else if c == 'c' as int then Reset(t)
    else
      var u := SetParserMode(t, Ground);
      if c == '7' as int then u.(s := SaveCursor(u.s))
      else if c == '8' as int then u.(s := RestoreCursor(u.s))
      else if c == 'M' as int then u.(s := ReverseIndex(u.s))
      else if c == 'D' as int then Index(u)
      else if c == 'E' as int then Index(u.(s := u.s.(x := 0)))
      else u
  }

  predicate IsDigit(c: Byte) {
    '0' as int <= c <= '9' as int
  }

  /** The first parameter exists from the first digit or separator on. */
  function FirstArg(p: Parser): Parser
    requires ParserOk(p)
  {
    if p.argc == 0 then p.(argc := 1, args := p.args[0 := 0]) else p
  }

  function CsiByte(t: Term, c: Byte): Term
    requires Sized(t.s) && ParserOk(t.p)
  {
    if c == '?' as int then t.(p := t.p.(private_ := true))
    else if IsDigit(c) then
      var p := FirstArg(t.p);
      t.(p := p.(args := p.args[p.argc - 1 := p.args[p.argc - 1] * 10 + (c - '0' as int)]))
    else if c == ';' as int then
      var p := FirstArg(t.p);
      t.(p := if p.argc < MAX_ARGS then p.(args := p.args[p.argc := 0], argc := p.argc + 1) else p)
    else SetParserMode(HandleCsi(t, c), Ground)
  }

  function OscByte(p: Parser, c: Byte): Parser
    requires ParserOk(p)
  {
    if c == BEL || c == ESC then p.(osc := p.osc[p.oscLen := 0], mode := Ground)
    else if p.oscLen < OSC_SIZE - 1 then p.(osc := p.osc[p.oscLen := c], oscLen := p.oscLen + 1)
    else p
  }

  /** term_put_char. */
  function PutByte(t: Term, c: Byte): Term
    requires Sized(t.s) && ParserOk(t.p)
  {
    match t.p.mode
    case Ground => GroundByte(t, c)
    case Escape => EscapeByte(t, c)
    case Charset => SetParserMode(t, Ground)
    case Csi => CsiByte(t, c)
    case Osc => t.(p := OscByte(t.p, c))
  }
}
