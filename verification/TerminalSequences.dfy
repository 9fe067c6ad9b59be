/** Control sequences as a program spells them (section 5.4 of ECMA-48): the parser, fed byte
    by byte, collects exactly the parameters that were written.
 */
module TerminalSequences {
  import opened Basics
  import opened TerminalModel
  import opened TerminalRuns
  import opened TerminalLines

  /** A parameter in decimal. */
  function Spelled(n: nat): (bytes: seq<Byte>)
    ensures bytes != []
  {
    if n < 10 then ['0' as int + n] else Spelled(n / 10) + ['0' as int + n % 10]
  }

  function Parameters(ps: seq<nat>): seq<Byte> {
    if ps == [] then []
    else
      var n := |ps| - 1;
      (if n == 0 then [] else Parameters(ps[..n]) + [';' as int]) + Spelled(ps[n])
  }

  /** The sequence introducer, a question mark if private, the parameters and the final
      byte. */
  function Sequence(private_: bool, ps: seq<nat>, f: Byte): seq<Byte> {
    [ESC, '[' as int] + (if private_ then ['?' as int] else []) + Parameters(ps) + [f]
  }

  predicate IsFinal(f: Byte) {
    !IsDigit(f) && f != '?' as int && f != ';' as int
  }

  /** The parser with the parameters `ps` collected. */
  function Collected(p: Parser, private_: bool, ps: seq<nat>): Parser
    requires |ps| <= MAX_ARGS
  {
    p.(mode := Csi, private_ := private_, args := ps + seq(MAX_ARGS - |ps|, _ => 0), argc := |ps|)
  }

  lemma {:induction false} RunAppend(t: Term, a: seq<Byte>, b: seq<Byte>)
    requires InMemory(t)
    ensures Run(t, a + b) == Run(Run(t, a), b)
  {
    hide PutByte;
    if b == [] {
      assert a + b == a;
    } else {
      var n := |b| - 1;
      RunAppend(t, a, b[..n]);
      assert (a + b)[..|a + b| - 1] == a + b[..n];
    }
  }

  lemma CsiByteRead(t: Term, c: Byte)
    requires InMemory(t) && t.p.mode == Csi
    ensures Run(t, [c]) == CsiByte(t, c)
  {
    hide CsiByte;
    RunOne(t, c);
  }

  lemma DigitRead(t: Term, d: nat)
    requires InMemory(t) && t.p.mode == Csi && d < 10
    ensures var p := FirstArg(t.p);
            CsiByte(t, '0' as int + d) ==
            t.(p := p.(args := p.args[p.argc - 1 := p.args[p.argc - 1] * 10 + d]))
  {
  }

  lemma SeparatorRead(t: Term)
    requires InMemory(t) && t.p.mode == Csi && 0 < t.p.argc < MAX_ARGS
    ensures CsiByte(t, ';' as int) == t.(p := t.p.(args := t.p.args[t.p.argc := 0], argc := t.p.argc + 1))
  {
  }

  /** The digits of a number end up as the value of the last parameter. */
  lemma {:induction false} NumberCollected(t: Term, n: nat)
    requires InMemory(t) && t.p.mode == Csi
    requires var p := FirstArg(t.p); p.args[p.argc - 1] == 0
    ensures var p := FirstArg(t.p);
            Run(t, Spelled(n)) == t.(p := p.(args := p.args[p.argc - 1 := n]))
    decreases n
  {
    hide Run, InMemory, CsiByte;
    ParserFits(t);
    if n < 10 {
      CsiByteRead(t, '0' as int + n);
      DigitRead(t, n);
    } else {
      NumberCollected(t, n / 10);
      var u := Run(t, Spelled(n / 10));
      RunAppend(t, Spelled(n / 10), ['0' as int + n % 10]);
      CsiByteRead(u, '0' as int + n % 10);
      DigitRead(u, n % 10);
      var p := FirstArg(t.p);
      assert p.args[p.argc - 1 := n / 10][p.argc - 1 := n] == p.args[p.argc - 1 := n];
    }
  }

  lemma ParserFits(t: Term)
    requires InMemory(t)
    ensures ParserOk(t.p)
  {
  }

  /** One more parameter, with the separator before it if it is not the first. */
  lemma ParameterCollected(t: Term, private_: bool, ps: seq<nat>, n: nat)
    requires InMemory(t) && |ps| < MAX_ARGS && t.p == Collected(t.p, private_, ps)
    ensures Run(t, (if ps == [] then [] else [';' as int]) + Spelled(n)) == t.(p := Collected(t.p, private_, ps + [n]))
  {
    hide Run, InMemory, Spelled, CsiByte;
    ParserFits(t);
    if ps == [] {
      assert [] + Spelled(n) == Spelled(n);
      NumberCollected(t, n);
    } else {
      RunAppend(t, [';' as int], Spelled(n));
      CsiByteRead(t, ';' as int);
      SeparatorRead(t);
      NumberCollected(Run(t, [';' as int]), n);
    }
    assert t.p.args[|ps| := 0][|ps| := n] == Collected(t.p, private_, ps + [n]).args;
  }

  lemma {:induction false} ParametersCollected(t: Term, private_: bool, ps: seq<nat>)
    requires InMemory(t) && |ps| <= MAX_ARGS && t.p == Collected(t.p, private_, [])
    ensures Run(t, Parameters(ps)) == t.(p := Collected(t.p, private_, ps))
    decreases |ps|
  {
    hide InMemory, Spelled, PutByte;
    if ps != [] {
      var n := |ps| - 1;
      var last := (if n == 0 then [] else [';' as int]) + Spelled(ps[n]);
      ParametersCollected(t, private_, ps[..n]);
      RunAppend(t, Parameters(ps[..n]), last);
      ParameterCollected(Run(t, Parameters(ps[..n])), private_, ps[..n], ps[n]);
      assert Parameters(ps) == Parameters(ps[..n]) + last;
      assert ps[..n] + [ps[n]] == ps;
    }
  }

  /** Parser round trip: a control sequence spelled with any parameters that fit is handled
      with exactly those parameters, and the parser is back on the ground. */
  lemma SequenceReadsBack(t: Term, private_: bool, ps: seq<nat>, f: Byte)
    requires InMemory(t) && t.p.mode == Ground && |ps| <= MAX_ARGS && IsFinal(f)
    ensures var u := t.(p := Collected(t.p, private_, ps));
            Run(t, Sequence(private_, ps, f)) == SetParserMode(HandleCsi(u, f), Ground)
  {
    hide Run, HandleCsi, Parameters;
    var intro := [ESC, '[' as int];
    var mark := if private_ then ['?' as int] else [];
    RunAppend(t, [ESC], ['[' as int]);
    assert [ESC] + ['[' as int] == intro;
    RunOne(t, ESC);
    RunOne(Run(t, [ESC]), '[' as int);
    RunAppend(t, intro, mark);
    MarkCollected(Run(t, intro), private_);
    RunAppend(t, intro + mark, Parameters(ps));
    ParametersCollected(Run(t, intro + mark), private_, ps);
    RunAppend(t, intro + mark + Parameters(ps), [f]);
    RunOne(Run(t, intro + mark + Parameters(ps)), f);
  }

  lemma MarkCollected(t: Term, private_: bool)
    requires InMemory(t) && t.p.mode == Csi && !t.p.private_
    ensures Run(t, if private_ then ['?' as int] else []) == t.(p := t.p.(private_ := private_))
  {
    RunOne(t, '?' as int);
    assert Run(t, []) == t;
  }

  // ---------------------------------------------------------------------------
  // Control functions from their bytes to the cells and the cursor.

  /** The cell at row `r`, column `c` is one that Erase in Display with parameter `k` erases:
      from the cursor on, up to the cursor, or all. */
  predicate Erased(s: Screen, k: nat, r: int, c: int) {
    if k == 0 then r > s.y || (r == s.y && c >= s.x)
    else if k == 1 then r < s.y || (r == s.y && c <= s.x)
    else k == 2 || k == 3
  }

  /** ED, spelled with its parameter: exactly the cells in that part of reading order become
      blank, nothing reaches the history, and the cursor goes home only when all is erased. */
  lemma EraseDisplayCells(t: Term, k: nat)
    requires InMemory(t) && t.p.mode == Ground
    ensures var u := Run(t, Sequence(false, [k], 'J' as int));
            && u.history == t.history
            && u.s == t.s.(grid := u.s.grid, x := if k == 2 || k == 3 then 0 else t.s.x, y := if k == 2 || k == 3 then 0 else t.s.y)
            && forall r, c :: 0 <= r < t.s.rows && 0 <= c < t.s.cols ==>
                 u.s.grid[r][c] ==
                 if Erased(t.s, k, r, c) then (if k < 2 then BlankOf(t.s.attr) else BLANK) else t.s.grid[r][c]
  {
    hide Run, Sequence, EraseDisplay, Erased;
    SequenceReadsBack(t, false, [k], 'J' as int);
    var p := Collected(t.p, false, [k]);
    assert HandleCsi(t.(p := p), 'J' as int) == t.(p := p, s := EraseDisplay(t.s, p));
    DisplayErased(t.s, p, k);
  }

  lemma DisplayErased(s: Screen, p: Parser, k: nat)
    requires Sized(s) && ParserOk(p) && p.argc == 1 && p.args[0] == k
    ensures var u := EraseDisplay(s, p);
            && u == s.(grid := u.grid, x := if k == 2 || k == 3 then 0 else s.x, y := if k == 2 || k == 3 then 0 else s.y)
            && forall r, c :: 0 <= r < s.rows && 0 <= c < s.cols ==>
                 u.grid[r][c] ==
                 if Erased(s, k, r, c) then (if k < 2 then BlankOf(s.attr) else BLANK) else s.grid[r][c]
  {
  }

  /** EL, spelled with its parameter: exactly the cells of the cursor's row from the cursor on,
      up to the cursor, or all of them become blank; nothing else changes. */
  lemma EraseLineCells(t: Term, k: nat)
    requires InMemory(t) && t.p.mode == Ground
    ensures var u := Run(t, Sequence(false, [k], 'K' as int));
            && u.history == t.history && u.s == t.s.(grid := u.s.grid)
            && forall r, c :: 0 <= r < t.s.rows && 0 <= c < t.s.cols ==>
                 u.s.grid[r][c] ==
                 if r == t.s.y && (if k == 0 then c >= t.s.x else if k == 1 then c <= t.s.x else k == 2)
                 then BlankOf(t.s.attr) else t.s.grid[r][c]
  {
    hide Run, Sequence;
    SequenceReadsBack(t, false, [k], 'K' as int);
    var p := Collected(t.p, false, [k]);
    assert HandleCsi(t.(p := p), 'K' as int) == t.(p := p, s := EraseLine(t.s, p));
  }

  predicate Relative(f: Byte) {
    'A' as int <= f <= 'D' as int
  }

  /** The final byte that moves the other way. */
  function Opposite(f: Byte): Byte
    requires Relative(f)
  {
    if f == 'A' as int then 'B' as int
    else if f == 'B' as int then 'A' as int
    else if f == 'C' as int then 'D' as int
    else 'C' as int
  }

  /** `n` places in the direction of `f` are inside the margins, or the screen. */
  predicate HasRoom(s: Screen, f: Byte, n: int) {
    if f == 'A' as int then s.top <= s.y - n && s.y <= s.bottom
    else if f == 'B' as int then s.top <= s.y && s.y + n <= s.bottom
    else if f == 'C' as int then 0 <= s.x && s.x + n < s.cols
    else 0 <= s.x - n && s.x < s.cols
  }

  /** CUU CUD CUF CUB on the screen: two moves one way are one move by the sum, a move with
      room is undone by the opposite move, and a cursor between the margins stays between
      them. */
  lemma MovesCompose(s: Screen, f: Byte, a: nat, b: nat)
    requires Sized(s) && Relative(f) && a >= 1 && b >= 1
    ensures MoveCursor(MoveCursor(s, f, a, 1), f, b, 1) == MoveCursor(s, f, a + b, 1)
    ensures HasRoom(s, f, a) ==> MoveCursor(MoveCursor(s, f, a, 1), Opposite(f), a, 1) == s != MoveCursor(s, f, a, 1)
    ensures s.top <= s.y <= s.bottom ==> s.top <= MoveCursor(s, f, a, 1).y <= s.bottom
    ensures 0 <= s.x <= s.cols ==> 0 <= MoveCursor(s, f, a, 1).x <= s.cols
  {
    hide MoveCursor, HasRoom, Opposite;
    MovesAdd(s, f, a, b);
    MoveUndone(s, f, a);
    MoveStays(s, f, a);
  }

  lemma MovesAdd(s: Screen, f: Byte, a: nat, b: nat)
    requires Sized(s) && Relative(f) && a >= 1 && b >= 1
    ensures MoveCursor(MoveCursor(s, f, a, 1), f, b, 1) == MoveCursor(s, f, a + b, 1)
  {
  }

  lemma MoveUndone(s: Screen, f: Byte, a: nat)
    requires Sized(s) && Relative(f) && a >= 1
    ensures HasRoom(s, f, a) ==> MoveCursor(MoveCursor(s, f, a, 1), Opposite(f), a, 1) == s != MoveCursor(s, f, a, 1)
  {
  }

  lemma MoveStays(s: Screen, f: Byte, a: nat)
    requires Sized(s) && Relative(f) && a >= 1
    ensures s.top <= s.y <= s.bottom ==> s.top <= MoveCursor(s, f, a, 1).y <= s.bottom
    ensures 0 <= s.x <= s.cols ==> 0 <= MoveCursor(s, f, a, 1).x <= s.cols
  {
  }

  /** The other movements by those and by CUP: CNL and CPL move down and up to the first
      column, CHA and VPA address one coordinate, and a horizontal move is a CHA to a column
      counted from the cursor. */
  lemma MovesRelate(s: Screen, a: nat)
    requires Sized(s) && 0 <= s.x < s.cols && 0 <= s.y < s.rows && a >= 1
    ensures MoveCursor(s, 'E' as int, a, 1) == MoveCursor(s, 'B' as int, a, 1).(x := 0)
    ensures MoveCursor(s, 'F' as int, a, 1) == MoveCursor(s, 'A' as int, a, 1).(x := 0)
    ensures MoveCursor(s, 'G' as int, a, 1) == MoveCursor(s, 'H' as int, s.y + 1, a) == MoveCursor(s, '`' as int, a, 1)
    ensures MoveCursor(s, 'd' as int, a, 1) == MoveCursor(s, 'H' as int, a, s.x + 1)
    ensures MoveCursor(s, 'f' as int, a, s.x + 1) == MoveCursor(s, 'H' as int, a, s.x + 1)
    ensures MoveCursor(s, 'C' as int, a, 1) == MoveCursor(s, 'G' as int, s.x + 1 + a, 1)
    ensures MoveCursor(s, 'D' as int, a, 1) == MoveCursor(s, 'G' as int, s.x + 1 - a, 1)
    ensures FullRegion(s) ==>
              && MoveCursor(s, 'B' as int, a, 1) == MoveCursor(s, 'd' as int, s.y + 1 + a, 1)
              && MoveCursor(s, 'A' as int, a, 1) == MoveCursor(s, 'd' as int, s.y + 1 - a, 1)
  {
  }

  /** A movement spelled with its parameter moves the cursor by it, a zero counting as one, and
      changes nothing else. */
  lemma MoveSpelled(t: Term, f: Byte, n: nat)
    requires InMemory(t) && t.p.mode == Ground && Moves(f)
    ensures var u := Run(t, Sequence(false, [n], f));
            u.s == MoveCursor(t.s, f, AtLeastOne(n), 1) && u.history == t.history && u.p.mode == Ground
  {
    hide Run, Sequence, MoveCursor;
    SequenceReadsBack(t, false, [n], f);
  }

  /** A move with room and the opposite move, spelled out, leave the screen as it was. */
  lemma MovedAndBack(t: Term, f: Byte, n: nat)
    requires InMemory(t) && t.p.mode == Ground && Relative(f) && n >= 1 && HasRoom(t.s, f, n)
    ensures var u := Run(t, Sequence(false, [n], f) + Sequence(false, [n], Opposite(f)));
            u.s == t.s && u.history == t.history
  {
    hide Run, Sequence, MoveCursor, InMemory;
    var there := Run(t, Sequence(false, [n], f));
    RunAppend(t, Sequence(false, [n], f), Sequence(false, [n], Opposite(f)));
    MoveSpelled(t, f, n);
    MoveSpelled(there, Opposite(f), n);
    MemoryHolds(t);
    MovesCompose(t.s, f, n, 1);
  }

  /** CUP, spelled with row and column counted from one, puts the cursor there or at the edge
      of the screen, and a missing or zero coordinate means the first; nothing else changes. */
  lemma CursorAddressed(t: Term, row: nat, col: nat)
    requires InMemory(t) && t.p.mode == Ground
    ensures var u := Run(t, Sequence(false, [row, col], 'H' as int));
            var home := Run(t, Sequence(false, [], 'H' as int));
            && u.history == t.history && u.s == t.s.(x := u.s.x, y := u.s.y)
            && (1 <= row <= t.s.rows ==> u.s.y == row - 1) && (row > t.s.rows ==> u.s.y == t.s.rows - 1)
            && (1 <= col <= t.s.cols ==> u.s.x == col - 1) && (col > t.s.cols ==> u.s.x == t.s.cols - 1)
            && (row == 0 ==> u.s.y == 0) && (col == 0 ==> u.s.x == 0)
            && home.s == t.s.(x := 0, y := 0) && home.history == t.history
  {
    hide Run, Sequence;
    SequenceReadsBack(t, false, [row, col], 'H' as int);
    SequenceReadsBack(t, false, [], 'H' as int);
    var p, q := Collected(t.p, false, [row, col]), Collected(t.p, false, []);
    assert p.args[0] == row && p.args[1] == col;
  }

  // ---------------------------------------------------------------------------
  // A visit to the alternate screen, spelled out.

  const ENTER_ALT: seq<Byte> := Sequence(true, [1049], 'h' as int)
  const LEAVE_ALT: seq<Byte> := Sequence(true, [1049], 'l' as int)

  /** The mode sequence switches screens and leaves the parser on the ground. */
  lemma SwitchRead(t: Term, enable: bool)
    requires InMemory(t) && t.p.mode == Ground
    ensures var u := Run(t, if enable then ENTER_ALT else LEAVE_ALT);
            u.s == SetAlt(t, enable).s && u.history == t.history && u.p.mode == Ground
  {
    hide Run, InMemory, Sequence;
    var f: Byte := if enable then 'h' as int else 'l' as int;
    SequenceReadsBack(t, true, [1049], f);
    var u := t.(p := Collected(t.p, true, [1049]));
    SetModesOnce(u, enable);
  }

  lemma SetModesOnce(u: Term, enable: bool)
    requires |u.p.args| > 0 && u.p.args[0] == 1049
    ensures SetModes(u, u.p.args, 1, enable) == SetAlt(u, enable)
  {
    assert SetModes(u, u.p.args, 0, enable) == u;
  }

  /** Text drawn on the alternate screen stays there. */
  lemma {:induction false} TextStaysOnAlt(t: Term, text: seq<Byte>)
    requires InMemory(t) && t.p.mode == Ground && t.s.alt && IsText(text)
    ensures var u := Run(t, text); u.s.alt && u.p.mode == Ground && AltFrame(t, u, true)
  {
    hide InMemory, GroundByte;
    if text != [] {
      var n := |text| - 1;
      TextStaysOnAlt(t, text[..n]);
      var u := Run(t, text[..n]);
      MemoryHolds(u);
      GroundByteFrame(u, text[n]);
      TextKeepsGround(u, text[n]);
    }
  }

  lemma MemoryHolds(t: Term)
    requires InMemory(t)
    ensures Sized(t.s) && ParserOk(t.p)
  {
  }

  lemma TextKeepsGround(t: Term, c: Byte)
    requires Sized(t.s) && t.p.mode == Ground && (IsPrintable(c) || IsNewline(c))
    ensures GroundByte(t, c).p.mode == Ground
  {
  }

  /** A program that enters the alternate screen, prints any text and leaves gives the user
      the screen, the history, the cursor and the attributes back as they were. */
  lemma VisitLeavesNoTrace(t: Term, text: seq<Byte>)
    requires InMemory(t) && t.p.mode == Ground && !t.s.alt && IsText(text)
    ensures var u := Run(t, ENTER_ALT + text + LEAVE_ALT);
            && u.s.grid == t.s.grid && u.history == t.history && !u.s.alt && u.p.mode == Ground
            && u.s.x == t.s.x && u.s.y == t.s.y && u.s.attr == t.s.attr
  {
    hide Run, InMemory, Sequence;
    RunAppend(t, ENTER_ALT, text);
    RunAppend(t, ENTER_ALT + text, LEAVE_ALT);
    SwitchRead(t, true);
    TextStaysOnAlt(Run(t, ENTER_ALT), text);
    SwitchRead(Run(t, ENTER_ALT + text), false);
  }
}
