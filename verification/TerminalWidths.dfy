/** The width of the history: over any byte stream the lines in the history keep the width of
    the screen, and the view stays within them, as long as the width itself does not change.
 */
module TerminalWidths {
  import opened Basics
  import opened TerminalModel
  import opened TerminalRuns
  import opened TerminalLines

  /** The view is scrolled back no further than the history reaches. */
  predicate ViewInHistory(t: Term) {
    t.offset <= |t.history|
  }

  /** The width is the same, the history has not become shorter or uneven, and the view has
      not moved except to the live screen. */
  ghost predicate Steady(t: Term, u: Term) {
    && u.s.cols == t.s.cols && (Uniform(t) ==> Uniform(u))
    && |t.history| <= |u.history| && (u.offset == t.offset || u.offset == 0)
  }

  lemma SteadyTwice(t: Term, u: Term, v: Term)
    requires Steady(t, u) && Steady(u, v)
    ensures Steady(t, v)
  {
  }

  lemma ScrollUpSteady(t: Term, count: int)
    requires Sized(t.s) && |t.history| <= SCROLLBACK_MAX
    ensures Steady(t, ScrollUp(t, count))
  {
    hide RowsUp;
  }

  lemma LineFeedSteady(t: Term)
    requires Sized(t.s) && |t.history| <= SCROLLBACK_MAX
    ensures Steady(t, LineFeed(t))
  {
    hide ScrollUp;
    ScrollUpSteady(t.(s := t.s.(y := t.s.bottom)), 1);
  }

  lemma GroundByteSteady(t: Term, c: Byte)
    requires Sized(t.s) && |t.history| <= SCROLLBACK_MAX
    ensures Steady(t, GroundByte(t, c))
  {
    hide LineFeed;
    LineFeedSteady(t.(s := t.s.(x := 0)));
  }

  lemma EscapeByteSteady(t: Term, c: Byte)
    requires Sized(t.s) && ParserOk(t.p) && |t.history| <= SCROLLBACK_MAX && c != 'c' as int
    ensures Steady(t, EscapeByte(t, c))
  {
    hide ScrollUp, RowsDown;
    var u := SetParserMode(t, Ground);
    ScrollUpSteady(u, 1);
    ScrollUpSteady(u.(s := u.s.(x := 0)), 1);
  }

  lemma {:induction false} SetModesSteady(t: Term, modes: seq<int>, n: nat, enable: bool)
    requires n <= |modes|
    ensures Steady(t, SetModes(t, modes, n, enable))
  {
    hide Cleared;
    if n > 0 {
      SetModesSteady(t, modes, n - 1, enable);
    }
  }

  lemma EditScreenWidth(s: Screen, p: Parser, f: Byte)
    requires Sized(s) && ParserOk(p)
    ensures EditScreen(s, p, f).cols == s.cols
  {
    hide EditGrid, SetRegion, Sgr;
  }

  lemma CsiByteSteady(t: Term, c: Byte)
    requires Sized(t.s) && ParserOk(t.p) && |t.history| <= SCROLLBACK_MAX
    ensures Steady(t, CsiByte(t, c))
  {
    hide ScrollUp, SetModes, EditScreen, MoveCursor;
    var n := if t.p.argc == 0 then 1 else t.p.argc;
    SetModesSteady(t, t.p.args, n, true);
    SetModesSteady(t, t.p.args, n, false);
    ScrollUpSteady(t, Arg(t.p, 0));
    EditScreenWidth(t.s, t.p, c);
  }

  lemma PutByteSteady(t: Term, c: Byte)
    requires InMemory(t) && (t.s.cols == DEFAULT_COLS || !Resets(t, c))
    ensures Steady(t, PutByte(t, c))
  {
    hide GroundByte, EscapeByte, CsiByte;
    match t.p.mode
    case Ground => GroundByteSteady(t, c);
    case Escape =>
      if c == 'c' as int {
        ResetSteady(t);
      } else {
        EscapeByteSteady(t, c);
      }
    case Charset =>
    case Csi => CsiByteSteady(t, c);
    case Osc =>
  }

  lemma ResetSteady(t: Term)
    requires Sized(t.s) && ParserOk(t.p) && t.s.cols == DEFAULT_COLS
    ensures Steady(t, EscapeByte(t, 'c' as int))
  {
    hide ZeroGrid, Cleared;
  }

  /** No byte of the stream completes a full reset. */
  ghost predicate NeverResets(t: Term, bytes: seq<Byte>)
    requires InMemory(t)
  {
    forall k :: 0 <= k < |bytes| ==> !Resets(Run(t, bytes[..k]), bytes[k])
  }

  /** Over every byte stream without full reset, or any stream at all on a screen of the width
      that a reset sets, the history keeps the width of the screen and the view stays in it. */
  lemma {:induction false} RunSteady(t: Term, bytes: seq<Byte>)
    requires InMemory(t) && (t.s.cols == DEFAULT_COLS || NeverResets(t, bytes))
    ensures Steady(t, Run(t, bytes))
    ensures ViewInHistory(t) ==> ViewInHistory(Run(t, bytes))
  {
    hide PutByte;
    if bytes != [] {
      var n := |bytes| - 1;
      PrefixOf(bytes, n);
      RunSteady(t, bytes[..n]);
      var u := Run(t, bytes[..n]);
      PutByteSteady(u, bytes[n]);
      SteadyTwice(t, u, PutByte(u, bytes[n]));
    }
  }

  /** A resize keeps the history as wide as the screen exactly if it does not change the width
      or there is no history. */
  lemma ResizeWidth(t: Term, cols: nat, rows: nat)
    requires Uniform(t) && MIN_COLS <= cols <= MAX_COLS && MIN_ROWS <= rows <= MAX_ROWS
    ensures Uniform(Resize(t, cols, rows)) <==> cols == t.s.cols || t.history == []
  {
    if t.history != [] {
      assert |t.history[0]| == t.s.cols;
    }
  }

  /** So does a full reset, which sets the default width and keeps the history. */
  lemma ResetWidth(t: Term)
    requires Uniform(t)
    ensures Uniform(Reset(t)) <==> t.s.cols == DEFAULT_COLS || t.history == []
  {
    if t.history != [] {
      assert |t.history[0]| == t.s.cols;
    }
  }

  /** With an even history every line in the window has the width of the screen. */
  lemma UniformView(t: Term)
    requires t.s.cols <= MAX_COLS && t.s.rows <= MAX_ROWS && Uniform(t) && ViewInHistory(t)
    ensures forall i :: 0 <= i < t.s.rows ==> |View(t)[i]| == t.s.cols
  {
  }
}
