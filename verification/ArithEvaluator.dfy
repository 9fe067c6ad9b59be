/** The one-pass evaluator: it lexes, parses by precedence climbing and evaluates at the
    same time over mutable globals, with a `noeval` flag for the operands that
    short-circuiting skips.  Every method is proved against the reference parser of
    `ArithGrammar` and the meaning of `ArithSemantics`.
 */
module ArithEvaluator {
  import opened Basics
  import opened ArithWords
  import opened ArithGrammar
  import opened ArithText
  import opened ArithSemantics

  /** union yystype: reading `val` of a name yields an arbitrary bit pattern. */
  datatype YYVal = YYVal(val: Arith, name: string)

  /** How a routine ends: a value, or one of the errors that abandon the evaluation. */
  datatype Status = Ok(v: Arith) | SyntaxError | RuntimeError(e: Error)

  /** The stream whose first token is `code` with value `val`, then `rest`. */
  function Push(code: int, val: YYVal, rest: Toks): Toks {
    if code == EOF then End
    else if code == NUM then Cons(Num(val.val), rest)
    else if code == VAR then Cons(Name(val.name), rest)
    else if 1 <= code <= 38 && code != BAD then Cons(Sym(code), rest)
    else Junk
  }

  /** The verdict that a routine ending with `r` and the variables `after` stands for. */
  function Ended(r: Status, after: Vars): Verdict {
    match r
    case Ok(v) => Value(v, after)
    case SyntaxError => Syntax(after)
    case RuntimeError(e) => Error(e, after)
  }

  /** A routine that ended with `r`, leaving the stream `rest` and the variables `after`,
      did what the parse `p` asks for: it accepts exactly what `p` accepts and consumes the
      same tokens; when evaluating, it ends as the parse is judged, with the same value or the
      same first error and the assignments made by then; with `noeval` it touches no variable
      and cannot fail for any other reason than syntax. */
  ghost predicate Agrees(u: bool, p: Parsed, noeval: bool, before: Vars, r: Status, rest: Toks, after: Vars) {
    && (r.Ok? ==> p.Got? && p.rest == rest)
    && (if noeval then after == before && r.Ok? == p.Got? && !r.RuntimeError? else Judge(u, p, before) == Ended(r, after))
  }

  // ---------------------------------------------------------------------------
  // Precedence climbing against the stratified grammar.

  /** Levels `j+1` to `k` of the grammar applied in turn to an operand already read. */
  function Climb(j: nat, k: nat, acc: Expr, t: Toks): Parsed
    decreases if j < k then k - j else 0
  {
    if j >= k then Got(acc, t)
    else
      var p := BinaryLoop(j + 1, acc, t);
      if p.Got? then Climb(j + 1, k, p.e, p.rest) else p
  }

  lemma {:induction false} ClimbSplit(i: nat, j: nat, k: nat, acc: Expr, t: Toks)
    requires i <= j <= k
    ensures var p := Climb(i, j, acc, t);
            Climb(i, k, acc, t) == if p.Got? then Climb(j, k, p.e, p.rest) else p
    decreases j - i
  {
    if i < j {
      var p := BinaryLoop(i + 1, acc, t);
      if p.Got? {
        ClimbSplit(i + 1, j, k, p.e, p.rest);
      }
    }
  }

  /** A whole level of the grammar is a primary and then the climb from the bottom. */
  lemma {:induction false} LevelIsClimb(k: nat, t: Toks)
    ensures var p := ParsePrimary(t);
            ParseBinary(k, t) == if p.Got? then Climb(0, k, p.e, p.rest) else p
  {
    var p := ParsePrimary(t);
    if k > 0 {
      LevelIsClimb(k - 1, t);
      if p.Got? {
        ClimbSplit(0, k - 1, k, p.e, p.rest);
        assert forall e, rest :: Climb(k - 1, k, e, rest) == BinaryLoop(k, e, rest) by {
          forall e, rest ensures Climb(k - 1, k, e, rest) == BinaryLoop(k, e, rest) {
            ClimbOne(k - 1, e, rest);
          }
        }
      }
    }
  }

  lemma {:induction false} ClimbOne(j: nat, acc: Expr, t: Toks)
    ensures Climb(j, j + 1, acc, t) == BinaryLoop(j + 1, acc, t)
  {
    var p := BinaryLoop(j + 1, acc, t);
    if p.Got? {
      assert Climb(j + 1, j + 1, p.e, p.rest) == p;
    }
  }

  /** Levels tighter than the next operator change nothing. */
  lemma {:induction false} ClimbSkips(i: nat, j: nat, k: nat, acc: Expr, t: Toks)
    requires i <= j <= k
    requires !Tighter(t, j)
    ensures Climb(i, k, acc, t) == Climb(j, k, acc, t)
    decreases j - i
  {
    if i < j {
      assert BinaryLoop(i + 1, acc, t) == Got(acc, t);
      ClimbSkips(i + 1, j, k, acc, t);
    }
  }

  /** After the climb the next operator does not bind tighter than the bound. */
  lemma {:induction false} LoopLeaves(k: nat, acc: Expr, t: Toks)
    requires k > 0
    requires !Tighter(t, k - 1)
    ensures var p := BinaryLoop(k, acc, t); p.Got? ==> !Tighter(p.rest, k)
    decreases Size(t), 0
  {
    if AtBinOp(t) && Prec(t.head.code) == k - 1 {
      var p := ParseBinary(k - 1, t.tail);
      if p.Got? {
        BinaryLeaves(k - 1, t.tail);
        LoopLeaves(k, Binary(t.head.code, acc, p.e), p.rest);
      }
    }
  }

  lemma {:induction false} BinaryLeaves(k: nat, t: Toks)
    ensures var p := ParseBinary(k, t); p.Got? ==> !Tighter(p.rest, k)
    decreases Size(t), k + 1
  {
    if k > 0 {
      BinaryLeaves(k - 1, t);
      var p := ParseBinary(k - 1, t);
      if p.Got? {
        LoopLeaves(k, p.e, p.rest);
      }
    }
  }

  /** An error in the leftmost operand is the error of everything folded onto it. */
  lemma {:induction false} LoopKeepsError(u: bool, k: nat, acc: Expr, t: Toks, vars: Vars)
    requires k > 0 && Eval(u, acc, vars).Failed?
    ensures Judge(u, BinaryLoop(k, acc, t), vars) == Judged(Eval(u, acc, vars))
    decreases Size(t)
  {
    if AtBinOp(t) && Prec(t.head.code) == k - 1 {
      var p := ParseBinary(k - 1, t.tail);
      if p.Got? {
        LoopKeepsError(u, k, Binary(t.head.code, acc, p.e), p.rest, vars);
      }
    }
  }

  lemma {:induction false} ClimbKeepsError(u: bool, j: nat, k: nat, acc: Expr, t: Toks, vars: Vars)
    requires Eval(u, acc, vars).Failed?
    ensures Judge(u, Climb(j, k, acc, t), vars) == Judged(Eval(u, acc, vars))
    decreases if j < k then k - j else 0
  {
    if j < k {
      LoopKeepsError(u, j + 1, acc, t, vars);
      var p := BinaryLoop(j + 1, acc, t);
      if p.Got? {
        ClimbKeepsError(u, j + 1, k, p.e, p.rest, vars);
      }
    }
  }

  /** One round of the climb: with `op` next, its right operand is a whole level below it,
      and the climb goes on from the combined tree. */
  lemma {:induction false} ClimbStep(k: nat, acc: Expr, t: Toks)
    requires AtBinOp(t) && Prec(t.head.code) < k
    ensures var q := ParseBinary(Prec(t.head.code), t.tail);
            Climb(Prec(t.head.code), k, acc, t) ==
              if q.Got? then Climb(Prec(t.head.code), k, Binary(t.head.code, acc, q.e), q.rest)
              else Cut(InRight(t.head.code, acc, q.at))
  {
  }

  lemma {:induction false} ClimbEnds(u: bool, k: nat, acc: Expr, t: Toks, start: Vars)
    ensures Climb(k, k, acc, t) == Got(acc, t) && Judge(u, Climb(k, k, acc, t), start) == Judged(Eval(u, acc, start))
  {
    hide Eval;
  }

  /** How the climb is judged after one round: by the right operand if that gives no value, by
      the operator if it fails on the two values, and otherwise further on. */
  lemma RoundJudged(u: bool, k: nat, op: BinOp, acc: Expr, t: Toks, start: Vars)
    requires Prec(op) < k && Eval(u, acc, start).Done?
    ensures var a, q := Eval(u, acc, start), ParseBinary(Prec(op), t);
            var b, all := Judge(u, q, a.vars), Climb(Prec(op), k, acc, Cons(Sym(op), t));
            if b.Value? then
              && q.Got? && Eval(u, q.e, a.vars) == Done(b.v, b.vars)
              && var w := DoBinop(op, a.v, b.v);
              && if w.Good? then Eval(u, Binary(op, acc, q.e), start) == Done(w.v, b.vars)
                 else Judge(u, all, start) == Error(w.e, b.vars)
            else Judge(u, all, start) == b
  {
    hide DoBinop, LookupVar, AssignedValue, Format, ParseBinary, Climb;
    var a, q := Eval(u, acc, start), ParseBinary(Prec(op), t);
    ClimbStep(k, acc, Cons(Sym(op), t));
    if q.Cut? {
      CutGivesNoValue(u, q.at, a.vars);
    } else if Eval(u, Binary(op, acc, q.e), start).Failed? {
      ClimbKeepsError(u, Prec(op), k, Binary(op, acc, q.e), q.rest, start);
    }
  }

  lemma {:induction false} EvalCond(u: bool, e: Expr, vars: Vars)
    requires e.Cond?
    ensures var a := Eval(u, e.c, vars);
            Eval(u, e, vars) == if a.Failed? then a else Eval(u, if a.v != 0 then e.l else e.r, a.vars)
  {
  }

  lemma {:induction false} PlusChangesNothing(u: bool, t: Toks)
    requires AtSym(t, ADD)
    ensures var p, q := ParsePrimary(t), ParsePrimary(t.tail);
            && p.Got? == q.Got? && (p.Got? ==> p.rest == q.rest)
            && forall vars :: Judge(u, p, vars) == Judge(u, q, vars)
  {
    hide DoBinop, LookupVar, AssignedValue, Format;
  }

  class Evaluator {
    const uflag: bool
    var buf: string
    var yylval: YYVal
    var lastToken: int
    var vars: Vars

    constructor (text: string, vars: Vars, uflag: bool)
      ensures buf == text && this.vars == vars && this.uflag == uflag
    {
      this.buf, this.vars, this.uflag := text, vars, uflag;
      yylval, lastToken := YYVal(0, ""), EOF;
    }

    /** The stream from the pending token on. */
    ghost function Rest(): Toks
      reads this
    {
      Push(lastToken, yylval, Tokens(buf))
    }

    /** strtoarith_t at the cursor. */
    method StrToArith(nptr: string) returns (val: Arith, end: string, erange: bool)
      ensures Converted(val, end, erange) == ReadArith(nptr)
    {
      var p := nptr;
      while p != [] && IsSpace(p[0])
        invariant SkipSpace(p) == SkipSpace(nptr)
      {
        p := p[1..];
      }
      erange := false;
      if At(p) == '-' {
        var n := ReadUnsigned(p[1..]);
        return Wrap(0 - n.acc as int), n.end, false;
      }
      var n := ReadUnsigned(p);
      val, end := Wrap(n.acc), n.end;
      if At(p) != '0' && val < 0 {
        erange := true;
        val := if val == ARITH_MIN then ARITH_MIN else ARITH_MAX;
      }
    }

    /** yylex: reads one token off the text.  At end of input and at a character that
        starts no token it stays where it is, so the answer repeats for ever. */
    method Yylex() returns (value: int)
      modifies this`buf, this`yylval
      ensures Tokens(old(buf)) == Push(value, yylval, Tokens(buf))
      ensures value == EOF || value == BAD ==> Tokens(buf) == Tokens(old(buf))
      ensures value != NUM && value != VAR ==> yylval == old(yylval)
      ensures 0 <= value <= 38
    {
      var b := buf;
      while b != [] && IsBlank(b[0])
        invariant SkipBlanks(b) == SkipBlanks(buf)
      {
        b := b[1..];
      }
      assert b == SkipBlanks(buf);
      var c := At(b);
      if c == '\0' {
        buf := b;
        return EOF;
      } else if IsDigit(c) {
        var val, end, _ := StrToArith(b);
        yylval := YYVal(val, "");
        buf := end;
        return NUM;
      } else if IsInName(c) {
        var p := b;
        while b != [] && IsInName(b[0])
          invariant |b| <= |p| && b == p[|p| - |b|..]
          invariant |p| - |b| + NameLength(b) == NameLength(p)
          decreases |b|
        {
          b := b[1..];
        }
        var address: Arith := *;
        yylval := YYVal(address, p[..|p| - |b|]);
        buf := b;
        return VAR;
      }
      value, b := LexSymbol(b);
      if value != BAD {
        buf := b;
      }
    }

    /** The operator branches of yylex.  `checkeq` is the shared tail that turns an operator
        followed by '=' into its compound assignment by adding 11 to the code. */
    method LexSymbol(b: string) returns (value: int, rest: string)
      requires At(b) != '\0'
      ensures value == Munch(b).0
      ensures value != BAD ==> rest == b[Munch(b).1..] && 1 <= value <= 38 && value != NUM && value != VAR
    {
      var c, d := At(b), At(b[1..]);
      var p := b[1..];
      rest := p;
      value := BAD;
      if c == '=' {
        value, rest := CheckEq(ASS, p);
      } else if c == '>' {
        if d == '=' {
          value, rest := GE, p[1..];
        } else if d == '>' {
          value, rest := CheckEq(RSHIFT, p[1..]);
        } else {
          value := GT;
        }
      } else if c == '<' {
        if d == '=' {
          value, rest := LE, p[1..];
        } else if d == '<' {
          value, rest := CheckEq(LSHIFT, p[1..]);
        } else {
          value := LT;
        }
      } else if c == '|' {
        if d != '|' {
          value, rest := CheckEq(BOR, p);
        } else {
          value, rest := OR, p[1..];
        }
      } else if c == '&' {
        if d != '&' {
          value, rest := CheckEq(BAND, p);
        } else {
          value, rest := AND, p[1..];
        }
      } else if c == '!' {
        if d != '=' {
          value := NOT;
        } else {
          value, rest := NE, p[1..];
        }
      } else if c == '(' {
        value := LPAREN;
      } else if c == ')' {
        value := RPAREN;
      } else if c == '*' {
        value, rest := CheckEq(MUL, p);
      } else if c == '/' {
        value, rest := CheckEq(DIV, p);
      } else if c == '%' {
        value, rest := CheckEq(REM, p);
      } else if c == '+' {
        if d != '+' {
          value, rest := CheckEq(ADD, p);
        }
      } else if c == '-' {
        if d != '-' {
          value, rest := CheckEq(SUB, p);
        }
      } else if c == '~' {
        value := BNOT;
      } else if c == '^' {
        value, rest := CheckEq(BXOR, p);
      } else if c == '?' {
        value := QMARK;
      } else if c == ':' {
        value := COLON;
      }
    }

    method CheckEq(value: int, p: string) returns (value': int, rest: string)
      ensures At(p) == '=' ==> value' == value + ASS_OFFSET && rest == p[1..]
      ensures At(p) != '=' ==> value' == value && rest == p
    {
      value', rest := value, p;
      if At(p) == '=' {
        value', rest := value + ASS_OFFSET, p[1..];
      }
    }

    method Primary(token0: int, val0: YYVal, op0: int, noeval: bool) returns (r: Status)
      modifies this
      ensures Agrees(uflag, ParsePrimary(old(Push(token0, val0, Push(op0, yylval, Tokens(buf))))), noeval, old(vars), r, Rest(), vars)
      decreases Size(Push(token0, val0, Push(op0, yylval, Tokens(buf)))), 1
    {
      hide Tokens, ParsePrimary, Judge;
      var token, val, op := SkipPlus(token0, val0, op0);
      r := SimplePrimary(token, val, op, noeval);
    }

    /** Unary plus: the loop at the head of primary. */
    method SkipPlus(token0: int, val0: YYVal, op0: int) returns (token: int, val: YYVal, op: int)
      modifies this`buf, this`yylval
      ensures token != ADD
      ensures var p := ParsePrimary(old(Push(token0, val0, Push(op0, yylval, Tokens(buf)))));
              var q := ParsePrimary(Push(token, val, Push(op, yylval, Tokens(buf))));
              && p.Got? == q.Got? && (p.Got? ==> p.rest == q.rest)
              && forall vs :: Judge(uflag, p, vs) == Judge(uflag, q, vs)
      ensures Size(Push(token, val, Push(op, yylval, Tokens(buf)))) <= Size(old(Push(token0, val0, Push(op0, yylval, Tokens(buf)))))
    {
      hide Tokens, ParsePrimary, Judge;
      token, val, op := token0, val0, op0;
      ghost var all := Push(token0, val0, Push(op0, yylval, Tokens(buf)));
      ghost var here := all;
      while token == ADD
        invariant here == Push(token, val, Push(op, yylval, Tokens(buf)))
        invariant Size(here) <= Size(all)
        invariant ParsePrimary(here).Got? == ParsePrimary(all).Got?
        invariant ParsePrimary(here).Got? ==> ParsePrimary(here).rest == ParsePrimary(all).rest
        invariant forall vs :: Judge(uflag, ParsePrimary(all), vs) == Judge(uflag, ParsePrimary(here), vs)
        decreases Size(here)
      {
        PlusChangesNothing(uflag, here);
        token := op;
        val := yylval;
        op := Yylex();
        here := here.tail;
        assert here == Push(token, val, Push(op, yylval, Tokens(buf)));
      }
    }

    /** primary after any unary plus. */
    method SimplePrimary(token: int, val0: YYVal, op: int, noeval: bool) returns (r: Status)
      requires token != ADD
      modifies this
      ensures Agrees(uflag, ParsePrimary(old(Push(token, val0, Push(op, yylval, Tokens(buf))))), noeval, old(vars), r, Rest(), vars)
      decreases Size(Push(token, val0, Push(op, yylval, Tokens(buf)))), 0
    {
      hide Tokens, DoBinop, LookupVar, AssignedValue, Format;
      ghost var here := Push(token, val0, Push(op, yylval, Tokens(buf)));
      if token == LPAREN {
        r := Assignment(op, noeval);
        if r.Ok? {
          if lastToken != RPAREN {
            return SyntaxError;
          }
          lastToken := Yylex();
        }
      } else if token == NUM {
        lastToken := op;
        r := Ok(val0.val);
      } else if token == VAR {
        lastToken := op;
        if noeval {
          r := Ok(val0.val);
        } else {
          var w := LookupVar(uflag, vars, val0.name);
          r := if w.Good? then Ok(w.v) else RuntimeError(w.e);
        }
      } else if token == SUB || token == NOT || token == BNOT {
        var val := yylval;
        var op' := Yylex();
        assert here.tail == Push(op, val, Push(op', yylval, Tokens(buf)));
        r := Primary(op, val, op', noeval);
        if r.Ok? {
          r := Ok(DoUnary(token, r.v));
        }
      } else {
        r := SyntaxError;
      }
    }

    /** The first half of a round of binop2: the right operand of `op`, with every operator
        that binds tighter than `op`. */
    method RightOperand(op: BinOp, noeval: bool) returns (r: Status)
      modifies this
      ensures Agrees(uflag, ParseBinary(Prec(op), Tokens(old(buf))), noeval, old(vars), r, Rest(), vars)
      ensures r.Ok? ==> !Tighter(Rest(), Prec(op))
      decreases Size(Tokens(buf)), 31
    {
      hide Tokens;
      ghost var here := Tokens(buf);
      var k := Prec(op);
      LevelIsClimb(k, here);
      ghost var p := ParsePrimary(here);
      var token := Yylex();
      var val := yylval;
      var next := Yylex();
      assert here == Push(token, val, Push(next, yylval, Tokens(buf)));
      r := Primary(token, val, next, noeval);
      if !r.Ok? {
        if p.Got? && !noeval {
          ClimbKeepsError(uflag, 0, k, p.e, p.rest, old(vars));
        }
        return;
      }
      var op2 := lastToken;
      if IsBinOp(op2) && Prec(op2) < k {
        ClimbSkips(0, Prec(op2), k, p.e, p.rest);
        r := Binop2(r.v, op2, k, noeval, p.e, old(vars));
      } else {
        ClimbSkips(0, k, k, p.e, p.rest);
      }
    }

    /** binop2: `acc0` is the tree of the operand already evaluated to `a0`, `start` the
        variables before it. */
    method Binop2(a0: Arith, op0: BinOp, precedence: nat, noeval: bool, ghost acc0: Expr, ghost start: Vars) returns (r: Status)
      requires Prec(op0) < precedence <= MAX_PREC
      requires !noeval ==> Eval(uflag, acc0, start) == Done(a0, vars)
      modifies this
      ensures Agrees(uflag, Climb(Prec(op0), precedence, acc0, Cons(Sym(op0), Tokens(old(buf)))), noeval,
                     if noeval then old(vars) else start, r, Rest(), vars)
      ensures r.Ok? ==> !Tighter(Rest(), precedence)
      decreases Size(Tokens(buf)), 32
    {
      hide Tokens, DoBinop, ParseBinary, Climb, Eval, Judge;
      var a: Arith, op: BinOp := a0, op0;
      ghost var acc := acc0;
      ghost var goal := Climb(Prec(op0), precedence, acc0, Cons(Sym(op0), Tokens(buf)));
      while true
        invariant Prec(op) < precedence
        invariant Climb(Prec(op), precedence, acc, Cons(Sym(op), Tokens(buf))) == goal
        invariant noeval ==> vars == old(vars)
        invariant !noeval ==> Eval(uflag, acc, start) == Done(a, vars)
        invariant Size(Tokens(buf)) <= Size(Tokens(old(buf)))
        decreases Size(Tokens(buf))
      {
        var k := Prec(op);
        ghost var q := ParseBinary(k, Tokens(buf));
        ClimbStep(precedence, acc, Cons(Sym(op), Tokens(buf)));
        if !noeval {
          RoundJudged(uflag, precedence, op, acc, Tokens(buf), start);
        }
        var sb := RightOperand(op, noeval);
        if !sb.Ok? {
          return sb;
        }
        acc := Binary(op, acc, q.e);
        var w := if noeval then Good(sb.v) else DoBinop(op, a, sb.v);
        if w.Bad? {
          return RuntimeError(w.e);
        }
        a := w.v;
        var op2 := lastToken;
        if !IsBinOp(op2) || Prec(op2) >= precedence {
          ClimbSkips(k, precedence, precedence, acc, Rest());
          ClimbEnds(uflag, precedence, acc, Rest(), start);
          return Ok(a);
        }
        ClimbSkips(k, Prec(op2), precedence, acc, Rest());
        op := op2;
      }
    }

    method Binop(token: int, val: YYVal, op0: int, noeval: bool) returns (r: Status)
      modifies this
      ensures Agrees(uflag, ParseBinary(MAX_PREC, old(Push(token, val, Push(op0, yylval, Tokens(buf))))), noeval, old(vars), r, Rest(), vars)
      ensures r.Ok? ==> !AtBinOp(Rest())
      decreases Size(Push(token, val, Push(op0, yylval, Tokens(buf)))), 10
    {
      hide Tokens;
      ghost var all := Push(token, val, Push(op0, yylval, Tokens(buf)));
      LevelIsClimb(MAX_PREC, all);
      ghost var p := ParsePrimary(all);
      r := Primary(token, val, op0, noeval);
      if !r.Ok? {
        if p.Got? && !noeval {
          ClimbKeepsError(uflag, 0, MAX_PREC, p.e, p.rest, old(vars));
        }
        return;
      }
      var op := lastToken;
      if !IsBinOp(op) {
        ClimbSkips(0, MAX_PREC, MAX_PREC, p.e, p.rest);
        return;
      }
      ClimbSkips(0, Prec(op), MAX_PREC, p.e, p.rest);
      r := Binop2(r.v, op, MAX_PREC, noeval, p.e, old(vars));
    }

    method And(token: int, val: YYVal, op0: int, noeval: bool) returns (r: Status)
      modifies this
      ensures Agrees(uflag, ParseAnd(old(Push(token, val, Push(op0, yylval, Tokens(buf))))), noeval, old(vars), r, Rest(), vars)
      decreases Size(Push(token, val, Push(op0, yylval, Tokens(buf)))), 20
    {
      hide Tokens, DoBinop, LookupVar, AssignedValue, Format, ParseBinary;
      r := Binop(token, val, op0, noeval);
      if !r.Ok? || lastToken != AND {
        return;
      }
      var a := r.v;
      var t := Yylex();
      var v := yylval;
      var op := Yylex();
      r := And(t, v, op, noeval || a == 0);
      if r.Ok? {
        r := Ok(Truth(a != 0 && r.v != 0));
      }
    }

    method Or(token: int, val: YYVal, op0: int, noeval: bool) returns (r: Status)
      modifies this
      ensures Agrees(uflag, ParseOr(old(Push(token, val, Push(op0, yylval, Tokens(buf))))), noeval, old(vars), r, Rest(), vars)
      decreases Size(Push(token, val, Push(op0, yylval, Tokens(buf)))), 21
    {
      hide Tokens, DoBinop, LookupVar, AssignedValue, Format, ParseAnd;
      r := And(token, val, op0, noeval);
      if !r.Ok? || lastToken != OR {
        return;
      }
      var a := r.v;
      var t := Yylex();
      var v := yylval;
      var op := Yylex();
      r := Or(t, v, op, noeval || a != 0);
      if r.Ok? {
        r := Ok(Truth(a != 0 || r.v != 0));
      }
    }

    method Cond(token: int, val: YYVal, op0: int, noeval: bool) returns (r: Status)
      modifies this
      ensures Agrees(uflag, ParseCond(old(Push(token, val, Push(op0, yylval, Tokens(buf))))), noeval, old(vars), r, Rest(), vars)
      decreases Size(Push(token, val, Push(op0, yylval, Tokens(buf)))), 22
    {
      hide Tokens, DoBinop, LookupVar, AssignedValue, Format, ParseOr, ParseAssign, Eval;
      ghost var all := Push(token, val, Push(op0, yylval, Tokens(buf)));
      r := Or(token, val, op0, noeval);
      if !r.Ok? || lastToken != QMARK {
        if ParseCond(all).Got? && ParseCond(all).e.Cond? {
          EvalCond(uflag, ParseCond(all).e, old(vars));
        }
        return;
      }
      var a := r.v;
      var t := Yylex();
      r := Assignment(t, noeval || a == 0);
      if !r.Ok? {
        if ParseCond(all).Got? {
          EvalCond(uflag, ParseCond(all).e, old(vars));
        }
        return;
      }
      var b := r.v;
      if lastToken != COLON {
        return SyntaxError;
      }
      t := Yylex();
      var v := yylval;
      var op := Yylex();
      r := Cond(t, v, op, noeval || a != 0);
      if ParseCond(all).Got? {
        EvalCond(uflag, ParseCond(all).e, old(vars));
      }
      if r.Ok? {
        r := Ok(if a != 0 then b else r.v);
      }
    }

    method Assignment(token: int, noeval: bool) returns (r: Status)
      modifies this
      ensures Agrees(uflag, ParseAssign(old(Push(token, yylval, Tokens(buf)))), noeval, old(vars), r, Rest(), vars)
      decreases Size(Push(token, yylval, Tokens(buf))), 23
    {
      hide Tokens, DoBinop, LookupVar, AssignedValue, Format, ParseCond;
      ghost var all := Push(token, yylval, Tokens(buf));
      var val := yylval;
      var op := Yylex();
      assert all == Push(token, val, Push(op, yylval, Tokens(buf)));
      if token != VAR || !IsAssign(op) {
        r := Cond(token, val, op, noeval);
        return;
      }
      assert Size(all) == 1 + Size(all.tail);
      var t := Yylex();
      r := Assignment(t, noeval);
      if noeval || !r.Ok? {
        return;
      }
      var w := AssignedValue(uflag, vars, op, val.name, r.v);
      if w.Bad? {
        return RuntimeError(w.e);
      }
      vars := vars[val.name := Format(w.v)];
      r := Ok(w.v);
    }

    /** arith: evaluate a whole text. */
    method Arith() returns (r: Status)
      modifies this
      ensures var p := ParseAssign(Tokens(old(buf)));
              Ended(r, vars) == if p.Got? && p.rest != End then Before(Eval(uflag, p.e, old(vars))) else Judge(uflag, p, old(vars))
    {
      hide Tokens;
      var t := Yylex();
      r := Assignment(t, false);
      if r.Ok? && lastToken != EOF {
        r := SyntaxError;
      }
    }
  }
}
