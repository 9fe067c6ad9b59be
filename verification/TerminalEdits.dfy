/** What the line and character editing functions do to the lines on display, told by cutting
    and joining lists: ECMA-48 IL, DL, SU, SD, ICH and DCH.
 */
module TerminalEdits {
  import opened Basics
  import opened TerminalModel
  import opened TerminalLines

  /** Lines `top` to `bot` lose their first `n` and gain as many blank ones at the end. */
  function CutLines(v: seq<Line>, top: nat, bot: nat, n: nat, cols: nat): (w: seq<Line>)
    requires top <= bot < |v|
    ensures |w| == |v|
  {
    var m := Min(n, bot + 1 - top);
    v[..top] + v[top + m..bot + 1] + Blanks(m, cols) + v[bot + 1..]
  }

  /** Lines `top` to `bot` gain `n` blank ones at the start and lose as many at the end. */
  function OpenLines(v: seq<Line>, top: nat, bot: nat, n: nat, cols: nat): (w: seq<Line>)
    requires top <= bot < |v|
    ensures |w| == |v|
  {
    var m := Min(n, bot + 1 - top);
    v[..top] + Blanks(m, cols) + v[top..bot + 1 - m] + v[bot + 1..]
  }

  lemma RowsUpCuts(s: Screen, top: nat, bot: nat, n: nat)
    requires Sized(s) && top <= bot < s.rows
    ensures var u := s.(grid := RowsUp(s.grid, top, bot, n, s.cols));
            VisibleRows(u) == CutLines(VisibleRows(s), top, bot, n, s.cols)
  {
    var u := s.(grid := RowsUp(s.grid, top, bot, n, s.cols));
    ClearedRowIsBlank(s.grid[bot], s.cols);
    forall r | 0 <= r < s.rows
      ensures VisibleRows(u)[r] == CutLines(VisibleRows(s), top, bot, n, s.cols)[r]
    {
      assert VisibleRows(u)[r] == VisibleRow(u, r);
      if top <= r && r + n <= bot {
        assert VisibleRows(s)[r + n] == VisibleRow(s, r + n);
      } else {
        assert VisibleRows(s)[r] == VisibleRow(s, r);
      }
    }
  }

  lemma RowsDownOpens(s: Screen, top: nat, bot: nat, n: nat)
    requires Sized(s) && top <= bot < s.rows
    ensures var u := s.(grid := RowsDown(s.grid, top, bot, n, s.cols));
            VisibleRows(u) == OpenLines(VisibleRows(s), top, bot, n, s.cols)
  {
    var u := s.(grid := RowsDown(s.grid, top, bot, n, s.cols));
    ClearedRowIsBlank(s.grid[top], s.cols);
    forall r | 0 <= r < s.rows
      ensures VisibleRows(u)[r] == OpenLines(VisibleRows(s), top, bot, n, s.cols)[r]
    {
      assert VisibleRows(u)[r] == VisibleRow(u, r);
      if top + n <= r && r <= bot {
        assert VisibleRows(s)[r - n] == VisibleRow(s, r - n);
      } else {
        assert VisibleRows(s)[r] == VisibleRow(s, r);
      }
    }
  }

  predicate InRegion(s: Screen) {
    s.top <= s.y <= s.bottom
  }

  /** Deleting the lines just inserted gives back every line of the region but those pushed
      off its end, and inserting where lines were deleted leaves only the deleted ones blank;
      outside the region both do nothing. */
  lemma InsertDeleteLines(s: Screen, count: int)
    requires Sized(s)
    ensures InRegion(s) ==>
              var v, n := VisibleRows(s), Min(AtLeastOne(count), s.bottom + 1 - s.y);
              && VisibleRows(DeleteLines(InsertLines(s, count), count)) ==
                 v[..s.bottom + 1 - n] + Blanks(n, s.cols) + v[s.bottom + 1..]
              && VisibleRows(InsertLines(DeleteLines(s, count), count)) ==
                 v[..s.y] + Blanks(n, s.cols) + v[s.y + n..]
    ensures !InRegion(s) ==> InsertLines(s, count) == s == DeleteLines(s, count)
  {
    if InRegion(s) {
      InsertThenDelete(s, count);
      DeleteThenInsert(s, count);
    }
  }

  lemma InsertOpens(s: Screen, count: int)
    requires Sized(s) && InRegion(s)
    ensures VisibleRows(InsertLines(s, count)) == OpenLines(VisibleRows(s), s.y, s.bottom, AtLeastOne(count), s.cols)
  {
    hide VisibleRows, RowsDown, OpenLines;
    RowsDownOpens(s, s.y, s.bottom, AtLeastOne(count));
  }

  lemma DeleteCuts(s: Screen, count: int)
    requires Sized(s) && InRegion(s)
    ensures VisibleRows(DeleteLines(s, count)) == CutLines(VisibleRows(s), s.y, s.bottom, AtLeastOne(count), s.cols)
  {
    hide VisibleRows, RowsUp, CutLines;
    RowsUpCuts(s, s.y, s.bottom, AtLeastOne(count));
  }

  lemma InsertThenDelete(s: Screen, count: int)
    requires Sized(s) && InRegion(s)
    ensures var v, n := VisibleRows(s), Min(AtLeastOne(count), s.bottom + 1 - s.y);
            VisibleRows(DeleteLines(InsertLines(s, count), count)) ==
            v[..s.bottom + 1 - n] + Blanks(n, s.cols) + v[s.bottom + 1..]
  {
    hide VisibleRows, CutLines, OpenLines, InsertLines, DeleteLines, Blanks;
    InsertOpens(s, count);
    DeleteCuts(InsertLines(s, count), count);
    OpenThenCut(VisibleRows(s), s.y, s.bottom, AtLeastOne(count), s.cols);
  }

  lemma DeleteThenInsert(s: Screen, count: int)
    requires Sized(s) && InRegion(s)
    ensures var v, n := VisibleRows(s), Min(AtLeastOne(count), s.bottom + 1 - s.y);
            VisibleRows(InsertLines(DeleteLines(s, count), count)) == v[..s.y] + Blanks(n, s.cols) + v[s.y + n..]
  {
    hide VisibleRows, CutLines, OpenLines, InsertLines, DeleteLines, Blanks;
    DeleteCuts(s, count);
    InsertOpens(DeleteLines(s, count), count);
    CutThenOpen(VisibleRows(s), s.y, s.bottom, AtLeastOne(count), s.cols);
  }

  lemma OpenThenCut(v: seq<Line>, top: nat, bot: nat, n: nat, cols: nat)
    requires top <= bot < |v|
    ensures var m := Min(n, bot + 1 - top);
            CutLines(OpenLines(v, top, bot, n, cols), top, bot, n, cols) == v[..bot + 1 - m] + Blanks(m, cols) + v[bot + 1..]
  {
    var m := Min(n, bot + 1 - top);
    var w := OpenLines(v, top, bot, n, cols);
    assert w[..top] == v[..top];
    assert w[top + m..bot + 1] == v[top..bot + 1 - m];
    assert w[bot + 1..] == v[bot + 1..];
    assert v[..top] + v[top..bot + 1 - m] == v[..bot + 1 - m];
  }

  lemma CutThenOpen(v: seq<Line>, top: nat, bot: nat, n: nat, cols: nat)
    requires top <= bot < |v|
    ensures var m := Min(n, bot + 1 - top);
            OpenLines(CutLines(v, top, bot, n, cols), top, bot, n, cols) == v[..top] + Blanks(m, cols) + v[top + m..]
  {
    var m := Min(n, bot + 1 - top);
    var w := CutLines(v, top, bot, n, cols);
    assert w[..top] == v[..top];
    assert w[top..bot + 1 - m] == v[top + m..bot + 1];
    assert w[bot + 1..] == v[bot + 1..];
    assert v[top + m..bot + 1] + v[bot + 1..] == v[top + m..];
  }

  /** The scrolling functions on any region, by the same two cuts. */
  lemma ScrollsCut(t: Term, count: int)
    requires Sized(t.s)
    ensures VisibleRows(ScrollUp(t, count).s) ==
            CutLines(VisibleRows(t.s), t.s.top, t.s.bottom, AtLeastOne(count), t.s.cols)
    ensures VisibleRows(ScrollDown(t.s, count)) ==
            OpenLines(VisibleRows(t.s), t.s.top, t.s.bottom, AtLeastOne(count), t.s.cols)
  {
    RowsUpCuts(t.s, t.s.top, t.s.bottom, AtLeastOne(count));
    RowsDownOpens(t.s, t.s.top, t.s.bottom, AtLeastOne(count));
  }

  function BlankCells(n: nat, a: Attr): seq<Cell> {
    seq(n, _ => BlankOf(a))
  }

  /** Characters inserted and deleted at the cursor: the rest of the line moves, the line
      keeps its length, and no other line changes. */
  lemma CharsCut(s: Screen, count: int)
    requires Sized(s) && CursorInGrid(s)
    ensures var line, n := VisibleRow(s, s.y), Min(AtLeastOne(count), s.cols - s.x);
            && VisibleRow(InsertChars(s, count), s.y) == line[..s.x] + BlankCells(n, s.attr) + line[s.x..s.cols - n]
            && VisibleRow(DeleteChars(s, count), s.y) == line[..s.x] + line[s.x + n..] + BlankCells(n, s.attr)
            && VisibleRow(EraseChars(s, count), s.y) == line[..s.x] + BlankCells(n, s.attr) + line[s.x + n..]
    ensures forall r :: 0 <= r < s.rows && r != s.y ==>
              VisibleRow(InsertChars(s, count), r) == VisibleRow(DeleteChars(s, count), r)
              == VisibleRow(EraseChars(s, count), r) == VisibleRow(s, r)
  {
  }
}
