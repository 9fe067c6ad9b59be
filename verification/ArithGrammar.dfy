/** The expression language of shell arithmetic: tokens, syntax trees, the stratified
    grammar, and a reference parser proved to accept exactly the sentences of the grammar.

    Token streams are linked lists so that a tree followed by a continuation is one
    list: `Emit(e, rest)` is the tokens of `e` followed by `rest`.
 */
module ArithGrammar {
  import opened ArithWords

  // Remaining token codes of arith_yacc.h.
  const EOF := 0
  const ASS := 1
  const OR := 2
  const AND := 3
  const BAD := 4
  const NUM := 5
  const VAR := 6
  const NOT := 7
  const ASS_MIN := 24
  const ASS_MAX := 34
  const LPAREN := 34
  const RPAREN := 35
  const BNOT := 36
  const QMARK := 37
  const COLON := 38

  /** Distance from a binary operator's code to the code of its compound assignment. */
  const ASS_OFFSET := 11

  /** Codes of tokens that carry no value. */
  type Symbol = c: int | 1 <= c <= 38 && c != BAD && c != NUM && c != VAR witness ASS

  predicate IsAssign(code: int) {
    code == ASS || ASS_MIN <= code < ASS_MAX
  }

  type AssignOp = c: int | c == ASS || ASS_MIN <= c < ASS_MAX witness ASS

  predicate IsUnary(code: int) {
    code == ADD || code == SUB || code == NOT || code == BNOT
  }

  type UnaryOp = c: int | c == ADD || c == SUB || c == NOT || c == BNOT witness SUB

  datatype Token = Num(v: Arith) | Name(name: string) | Sym(code: Symbol)

  /** A token stream. `End` answers every further request with EOF and `Junk` with BAD:
      the lexer advances past neither. */
  datatype Toks = End | Junk | Cons(head: Token, tail: Toks)

  function Size(t: Toks): nat {
    match t
    case Cons(_, tail) => 1 + Size(tail)
    case _ => 0
  }

  datatype Expr =
    | Lit(v: Arith)
    | Var(name: string)
    | Paren(e: Expr)
    | Unary(op: UnaryOp, e: Expr)
    | Binary(bop: BinOp, l: Expr, r: Expr)
    | LogAnd(l: Expr, r: Expr)
    | LogOr(l: Expr, r: Expr)
    | Cond(c: Expr, l: Expr, r: Expr)
    | Assign(aop: AssignOp, name: string, e: Expr)

  // Strata of the grammar: 0 is a primary, 1..8 the binary levels of the precedence
  // table, then `&&`, `||`, `?:` and assignment.
  const AND_LEVEL := 9
  const OR_LEVEL := 10
  const COND_LEVEL := 11
  const ASSIGN_LEVEL := 12

  function Level(e: Expr): (k: nat)
    ensures k <= ASSIGN_LEVEL
  {
    match e
    case Binary(op, _, _) => Prec(op) + 1
    case LogAnd(_, _) => AND_LEVEL
    case LogOr(_, _) => OR_LEVEL
    case Cond(_, _, _) => COND_LEVEL
    case Assign(_, _, _) => ASSIGN_LEVEL
    case _ => 0
  }

  /** `e` is a derivation of the stratified grammar: binary levels associate to the left,
      `&&`, `||`, `?:`, assignment and unary operators to the right, and parentheses are
      explicit nodes. */
  predicate Derivation(e: Expr) {
    match e
    case Lit(_) => true
    case Var(_) => true
    case Paren(x) => Derivation(x)
    case Unary(_, x) => Derivation(x) && Level(x) == 0
    case Binary(op, l, r) => Derivation(l) && Derivation(r) && Level(l) <= Prec(op) + 1 && Level(r) <= Prec(op)
    case LogAnd(l, r) => Derivation(l) && Derivation(r) && Level(l) < AND_LEVEL && Level(r) <= AND_LEVEL
    case LogOr(l, r) => Derivation(l) && Derivation(r) && Level(l) < OR_LEVEL && Level(r) <= OR_LEVEL
    case Cond(c, l, r) => Derivation(c) && Derivation(l) && Derivation(r) && Level(c) < COND_LEVEL && Level(r) <= COND_LEVEL
    case Assign(_, _, x) => Derivation(x)
  }

  /** The tokens of `e` followed by `rest`. */
  function Emit(e: Expr, rest: Toks): Toks {
    match e
    case Lit(v) => Cons(Num(v), rest)
    case Var(x) => Cons(Name(x), rest)
    case Paren(x) => Cons(Sym(LPAREN), Emit(x, Cons(Sym(RPAREN), rest)))
    case Unary(op, x) => Cons(Sym(op), Emit(x, rest))
    case Binary(op, l, r) => Emit(l, Cons(Sym(op), Emit(r, rest)))
    case LogAnd(l, r) => Emit(l, Cons(Sym(AND), Emit(r, rest)))
    case LogOr(l, r) => Emit(l, Cons(Sym(OR), Emit(r, rest)))
    case Cond(c, l, r) => Emit(c, Cons(Sym(QMARK), Emit(l, Cons(Sym(COLON), Emit(r, rest)))))
    case Assign(op, x, y) => Cons(Name(x), Cons(Sym(op), Emit(y, rest)))
  }

  // ---------------------------------------------------------------------------
  // Reference parser: one function a stratum, a left-associating loop per binary level.

  /** What was read of an expression when it turned out not to be one: the finished operands
      to the left, down to the place where a token is missing. */
  datatype Fragment =
    | Missing
    | InUnary(op: UnaryOp, at: Fragment)
    | InParen(at: Fragment)
    | Unclosed(e: Expr)
    | InRight(bop: BinOp, l: Expr, at: Fragment)
    | InAnd(l: Expr, at: Fragment)
    | InOr(l: Expr, at: Fragment)
    | InThen(c: Expr, at: Fragment)
    | NoColon(c: Expr, l: Expr)
    | InElse(c: Expr, l: Expr, at: Fragment)
    | InAssign(aop: AssignOp, name: string, at: Fragment)

  datatype Parsed = Cut(at: Fragment) | Got(e: Expr, rest: Toks)

  predicate AtSym(t: Toks, code: int) {
    t.Cons? && t.head.Sym? && t.head.code == code
  }

  predicate AtBinOp(t: Toks) {
    t.Cons? && t.head.Sym? && IsBinOp(t.head.code)
  }

  /** The next token is a binary operator of precedence below `k`. */
  predicate Tighter(t: Toks, k: nat) {
    AtBinOp(t) && Prec(t.head.code) < k
  }

  function ParsePrimary(t: Toks): (p: Parsed)
    decreases Size(t), 0
    ensures p.Got? ==> Size(p.rest) < Size(t)
  {
    if !t.Cons? then Cut(Missing) else
    match t.head
    case Num(v) => Got(Lit(v), t.tail)
    case Name(x) => Got(Var(x), t.tail)
    case Sym(c) =>
      if c == LPAREN then
        var p := ParseAssign(t.tail);
        if p.Cut? then Cut(InParen(p.at))
        else if AtSym(p.rest, RPAREN) then Got(Paren(p.e), p.rest.tail)
        else Cut(Unclosed(p.e))
      else if IsUnary(c) then
        var p := ParsePrimary(t.tail);
        if p.Got? then Got(Unary(c, p.e), p.rest) else Cut(InUnary(c, p.at))
      else Cut(Missing)
  }

  function ParseBinary(k: nat, t: Toks): (p: Parsed)
    decreases Size(t), k + 1
    ensures p.Got? ==> Size(p.rest) < Size(t)
  {
    if k == 0 then ParsePrimary(t) else
    var p := ParseBinary(k - 1, t);
    if p.Got? then BinaryLoop(k, p.e, p.rest) else p
  }

  /** Fold the operators of level `k` onto `acc`, to the left. */
  function BinaryLoop(k: nat, acc: Expr, t: Toks): (p: Parsed)
    requires k > 0
    decreases Size(t), 0
    ensures p.Got? ==> Size(p.rest) <= Size(t)
  {
    if AtBinOp(t) && Prec(t.head.code) == k - 1 then
      var p := ParseBinary(k - 1, t.tail);
      if p.Got? then BinaryLoop(k, Binary(t.head.code, acc, p.e), p.rest)
      else Cut(InRight(t.head.code, acc, p.at))
    else Got(acc, t)
  }

  function ParseAnd(t: Toks): (p: Parsed)
    decreases Size(t), 20
    ensures p.Got? ==> Size(p.rest) < Size(t)
  {
    var p := ParseBinary(MAX_PREC, t);
    if p.Got? && AtSym(p.rest, AND) then
      var q := ParseAnd(p.rest.tail);
      if q.Got? then Got(LogAnd(p.e, q.e), q.rest) else Cut(InAnd(p.e, q.at))
    else p
  }

  function ParseOr(t: Toks): (p: Parsed)
    decreases Size(t), 21
    ensures p.Got? ==> Size(p.rest) < Size(t)
  {
    var p := ParseAnd(t);
    if p.Got? && AtSym(p.rest, OR) then
      var q := ParseOr(p.rest.tail);
      if q.Got? then Got(LogOr(p.e, q.e), q.rest) else Cut(InOr(p.e, q.at))
    else p
  }

  function ParseCond(t: Toks): (p: Parsed)
    decreases Size(t), 22
    ensures p.Got? ==> Size(p.rest) < Size(t)
  {
    var p := ParseOr(t);
    if p.Got? && AtSym(p.rest, QMARK) then
      var q := ParseAssign(p.rest.tail);
      if q.Cut? then Cut(InThen(p.e, q.at))
      else if AtSym(q.rest, COLON) then
        var s := ParseCond(q.rest.tail);
        if s.Got? then Got(Cond(p.e, q.e, s.e), s.rest) else Cut(InElse(p.e, q.e, s.at))
      else Cut(NoColon(p.e, q.e))
    else p
  }

  predicate AtAssign(t: Toks) {
    t.Cons? && t.head.Name? && t.tail.Cons? && t.tail.head.Sym? && IsAssign(t.tail.head.code)
  }

  function ParseAssign(t: Toks): (p: Parsed)
    decreases Size(t), 23
    ensures p.Got? ==> Size(p.rest) < Size(t)
  {
    if AtAssign(t) then
      assert Size(t) == 1 + Size(t.tail);
      var p := ParseAssign(t.tail.tail);
      if p.Got? then Got(Assign(t.tail.head.code, t.head.name, p.e), p.rest)
      else Cut(InAssign(t.tail.head.code, t.head.name, p.at))
    else ParseCond(t)
  }

  // ---------------------------------------------------------------------------
  // Completeness: every derivation, followed by a token that does not extend it, is
  // parsed back to itself.

  /** The first token of `t` cannot continue an expression of level `k`. */
  predicate Stops(t: Toks, k: nat) {
    && !Tighter(t, k)
    && (k >= AND_LEVEL ==> !AtSym(t, AND))
    && (k >= OR_LEVEL ==> !AtSym(t, OR))
    && (k >= COND_LEVEL ==> !AtSym(t, QMARK))
  }

  lemma {:induction false} PrimaryComplete(e: Expr, rest: Toks)
    requires Derivation(e) && Level(e) == 0
    ensures ParsePrimary(Emit(e, rest)) == Got(e, rest)
    decreases e, 0
  {
    match e
    case Lit(_) =>
    case Var(_) =>
    case Paren(x) => AssignComplete(x, Cons(Sym(RPAREN), rest));
    case Unary(_, x) => PrimaryComplete(x, rest);
  }

  /** A derivation of at most level `k` is folded by the level-`k` parser, which then goes
      on with whatever operators of that level follow. */
  lemma {:induction false} BinaryStep(k: nat, t: Toks)
    requires k > 0
    ensures var p := ParseBinary(k - 1, t);
            ParseBinary(k, t) == if p.Got? then BinaryLoop(k, p.e, p.rest) else p
  {
  }

  lemma {:induction false} LoopStep(k: nat, acc: Expr, t: Toks)
    requires k > 0
    ensures BinaryLoop(k, acc, t) ==
              if AtBinOp(t) && Prec(t.head.code) == k - 1 then
                var p := ParseBinary(k - 1, t.tail);
                if p.Got? then BinaryLoop(k, Binary(t.head.code, acc, p.e), p.rest) else Cut(InRight(t.head.code, acc, p.at))
              else Got(acc, t)
  {
  }

  lemma {:induction false} BinaryComplete(k: nat, e: Expr, rest: Toks)
    requires Derivation(e) && Level(e) <= k <= MAX_PREC
    requires k > 0 ==> !Tighter(rest, k - 1)
    ensures ParseBinary(k, Emit(e, rest)) == if k == 0 then Got(e, rest) else BinaryLoop(k, e, rest)
    decreases e, 2 * k + 1
  {
    hide ParsePrimary, ParseBinary, BinaryLoop;
    if k == 0 {
      PrimaryComplete(e, rest);
      BinaryIsPrimary(Emit(e, rest));
    } else if Level(e) == k {
      var t := Cons(Sym(e.bop), Emit(e.r, rest));
      BinaryComplete(k, e.l, t);
      LoopStep(k, e.l, t);
      OperandComplete(k - 1, e.r, rest);
    } else {
      OperandComplete(k - 1, e, rest);
      BinaryStep(k, Emit(e, rest));
    }
  }

  lemma {:induction false} BinaryIsPrimary(t: Toks)
    ensures ParseBinary(0, t) == ParsePrimary(t)
  {
  }

  /** A derivation of a lower level is read whole, before an operator that does not bind
      tighter. */
  lemma {:induction false} OperandComplete(k: nat, e: Expr, rest: Toks)
    requires Derivation(e) && Level(e) <= k <= MAX_PREC && !Tighter(rest, k)
    ensures ParseBinary(k, Emit(e, rest)) == Got(e, rest)
    decreases e, 2 * k + 2
  {
    hide ParsePrimary, ParseBinary, BinaryLoop;
    BinaryComplete(k, e, rest);
    if k > 0 {
      LoopStep(k, e, rest);
    }
  }

  lemma {:induction false} AndComplete(e: Expr, rest: Toks)
    requires Derivation(e) && Level(e) <= AND_LEVEL && Stops(rest, AND_LEVEL)
    ensures ParseAnd(Emit(e, rest)) == Got(e, rest)
    decreases e, 20
  {
    if Level(e) == AND_LEVEL {
      BinaryComplete(MAX_PREC, e.l, Cons(Sym(AND), Emit(e.r, rest)));
      AndComplete(e.r, rest);
    } else {
      BinaryComplete(MAX_PREC, e, rest);
    }
  }

  lemma {:induction false} OrComplete(e: Expr, rest: Toks)
    requires Derivation(e) && Level(e) <= OR_LEVEL && Stops(rest, OR_LEVEL)
    ensures ParseOr(Emit(e, rest)) == Got(e, rest)
    decreases e, 21
  {
    if Level(e) == OR_LEVEL {
      AndComplete(e.l, Cons(Sym(OR), Emit(e.r, rest)));
      OrComplete(e.r, rest);
    } else {
      AndComplete(e, rest);
    }
  }

  lemma {:induction false} CondComplete(e: Expr, rest: Toks)
    requires Derivation(e) && Level(e) <= COND_LEVEL && Stops(rest, COND_LEVEL)
    ensures ParseCond(Emit(e, rest)) == Got(e, rest)
    decreases e, 22
  {
    if Level(e) == COND_LEVEL {
      OrComplete(e.c, Cons(Sym(QMARK), Emit(e.l, Cons(Sym(COLON), Emit(e.r, rest)))));
      AssignComplete(e.l, Cons(Sym(COLON), Emit(e.r, rest)));
      CondComplete(e.r, rest);
    } else {
      OrComplete(e, rest);
    }
  }

  /** The first two tokens of a non-assignment never look like an assignment. */
  lemma {:induction false} NotAssign(e: Expr, rest: Toks)
    requires Derivation(e) && Level(e) < ASSIGN_LEVEL
    requires !(rest.Cons? && rest.head.Sym? && IsAssign(rest.head.code))
    ensures !AtAssign(Emit(e, rest))
  {
    match e
    case Lit(_) =>
    case Var(_) =>
    case Paren(_) =>
    case Unary(_, _) =>
    case Binary(op, l, r) => NotAssign(l, Cons(Sym(op), Emit(r, rest)));
    case LogAnd(l, r) => NotAssign(l, Cons(Sym(AND), Emit(r, rest)));
    case LogOr(l, r) => NotAssign(l, Cons(Sym(OR), Emit(r, rest)));
    case Cond(c, l, r) => NotAssign(c, Cons(Sym(QMARK), Emit(l, Cons(Sym(COLON), Emit(r, rest)))));
  }

  lemma {:induction false} AssignComplete(e: Expr, rest: Toks)
    requires Derivation(e) && Stops(rest, ASSIGN_LEVEL)
    requires !(rest.Cons? && rest.head.Sym? && IsAssign(rest.head.code))
    ensures ParseAssign(Emit(e, rest)) == Got(e, rest)
    decreases e, 23
  {
    if e.Assign? {
      AssignComplete(e.e, rest);
    } else {
      NotAssign(e, rest);
      CondComplete(e, rest);
    }
  }

  // ---------------------------------------------------------------------------
  // Soundness: whatever the parser accepts is a derivation whose tokens it consumed.

  predicate Sound(p: Parsed, t: Toks, k: nat) {
    p.Got? ==> Derivation(p.e) && Level(p.e) <= k && Emit(p.e, p.rest) == t
  }

  lemma {:induction false} PrimarySound(t: Toks)
    ensures Sound(ParsePrimary(t), t, 0)
    decreases Size(t), 0
  {
    if t.Cons? && t.head.Sym? {
      if t.head.code == LPAREN {
        AssignSound(t.tail);
      } else if IsUnary(t.head.code) {
        PrimarySound(t.tail);
      }
    }
  }

  lemma {:induction false} BinarySound(k: nat, t: Toks)
    requires k <= MAX_PREC
    ensures Sound(ParseBinary(k, t), t, k)
    decreases Size(t), k + 1
  {
    if k == 0 {
      PrimarySound(t);
    } else {
      BinarySound(k - 1, t);
      var p := ParseBinary(k - 1, t);
      if p.Got? {
        LoopSound(k, p.e, p.rest);
      }
    }
  }

  lemma {:induction false} LoopSound(k: nat, acc: Expr, t: Toks)
    requires 0 < k <= MAX_PREC
    requires Derivation(acc) && Level(acc) <= k
    ensures Sound(BinaryLoop(k, acc, t), Emit(acc, t), k)
    decreases Size(t), 0
  {
    if AtBinOp(t) && Prec(t.head.code) == k - 1 {
      BinarySound(k - 1, t.tail);
      var p := ParseBinary(k - 1, t.tail);
      if p.Got? {
        LoopSound(k, Binary(t.head.code, acc, p.e), p.rest);
      }
    }
  }

  lemma {:induction false} AndSound(t: Toks)
    ensures Sound(ParseAnd(t), t, AND_LEVEL)
    decreases Size(t), 20
  {
    BinarySound(MAX_PREC, t);
    var p := ParseBinary(MAX_PREC, t);
    if p.Got? && AtSym(p.rest, AND) {
      AndSound(p.rest.tail);
    }
  }

  lemma {:induction false} OrSound(t: Toks)
    ensures Sound(ParseOr(t), t, OR_LEVEL)
    decreases Size(t), 21
  {
    AndSound(t);
    var p := ParseAnd(t);
    if p.Got? && AtSym(p.rest, OR) {
      OrSound(p.rest.tail);
    }
  }

  lemma {:induction false} CondSound(t: Toks)
    ensures Sound(ParseCond(t), t, COND_LEVEL)
    decreases Size(t), 22
  {
    OrSound(t);
    var p := ParseOr(t);
    if p.Got? && AtSym(p.rest, QMARK) {
      AssignSound(p.rest.tail);
      var q := ParseAssign(p.rest.tail);
      if q.Got? && AtSym(q.rest, COLON) {
        CondSound(q.rest.tail);
      }
    }
  }

  lemma {:induction false} AssignSound(t: Toks)
    ensures Sound(ParseAssign(t), t, ASSIGN_LEVEL)
    decreases Size(t), 23
  {
    if AtAssign(t) {
      assert Size(t) == 1 + Size(t.tail);
      AssignSound(t.tail.tail);
    } else {
      CondSound(t);
    }
  }

  // ---------------------------------------------------------------------------

  /** The grammar is unambiguous and the parser decides it: a token stream is parsed to
      `e` with nothing left exactly when it spells the derivation `e`. */
  lemma ParserDecidesGrammar(t: Toks, e: Expr)
    ensures ParseAssign(t) == Got(e, End) <==> Derivation(e) && t == Emit(e, End)
  {
    AssignSound(t);
    if Derivation(e) && t == Emit(e, End) {
      AssignComplete(e, End);
    }
  }

  // ---------------------------------------------------------------------------
  // Fragments: what is cut short was read token by token, up to one that cannot stand there.

  /** The tokens of a fragment followed by `rest`. */
  function EmitCut(f: Fragment, rest: Toks): Toks {
    match f
    case Missing => rest
    case InUnary(op, g) => Cons(Sym(op), EmitCut(g, rest))
    case InParen(g) => Cons(Sym(LPAREN), EmitCut(g, rest))
    case Unclosed(e) => Cons(Sym(LPAREN), Emit(e, rest))
    case InRight(op, l, g) => Emit(l, Cons(Sym(op), EmitCut(g, rest)))
    case InAnd(l, g) => Emit(l, Cons(Sym(AND), EmitCut(g, rest)))
    case InOr(l, g) => Emit(l, Cons(Sym(OR), EmitCut(g, rest)))
    case InThen(c, g) => Emit(c, Cons(Sym(QMARK), EmitCut(g, rest)))
    case NoColon(c, l) => Emit(c, Cons(Sym(QMARK), Emit(l, rest)))
    case InElse(c, l, g) => Emit(c, Cons(Sym(QMARK), Emit(l, Cons(Sym(COLON), EmitCut(g, rest)))))
    case InAssign(op, x, g) => Cons(Name(x), Cons(Sym(op), EmitCut(g, rest)))
  }

  predicate StartsPrimary(t: Toks) {
    t.Cons? && (t.head.Sym? ==> t.head.code == LPAREN || IsUnary(t.head.code))
  }

  /** The next token is not the one that the fragment is waiting for. */
  predicate Stuck(f: Fragment, rest: Toks) {
    match f
    case Missing => !StartsPrimary(rest)
    case Unclosed(_) => !AtSym(rest, RPAREN)
    case NoColon(_, _) => !AtSym(rest, COLON)
    case _ => Stuck(f.at, rest)
  }

  predicate CutAt(p: Parsed, t: Toks, rest: Toks) {
    p.Cut? ==> t == EmitCut(p.at, rest) && Stuck(p.at, rest)
  }

  lemma {:induction false} PrimaryCut(t: Toks) returns (rest: Toks)
    ensures CutAt(ParsePrimary(t), t, rest)
    decreases Size(t), 0
  {
    rest := t;
    if t.Cons? && t.head.Sym? {
      if t.head.code == LPAREN {
        var p := ParseAssign(t.tail);
        AssignSound(t.tail);
        rest := AssignCut(t.tail);
        if p.Got? {
          rest := p.rest;
        }
      } else if IsUnary(t.head.code) {
        rest := PrimaryCut(t.tail);
      }
    }
  }

  lemma {:induction false} BinaryCut(k: nat, t: Toks) returns (rest: Toks)
    requires k <= MAX_PREC
    ensures CutAt(ParseBinary(k, t), t, rest)
    decreases Size(t), k + 1
  {
    if k == 0 {
      rest := PrimaryCut(t);
    } else {
      var p := ParseBinary(k - 1, t);
      rest := BinaryCut(k - 1, t);
      if p.Got? {
        BinarySound(k - 1, t);
        rest := LoopCut(k, p.e, p.rest);
      }
    }
  }

  lemma {:induction false} LoopCut(k: nat, acc: Expr, t: Toks) returns (rest: Toks)
    requires 0 < k <= MAX_PREC
    ensures CutAt(BinaryLoop(k, acc, t), Emit(acc, t), rest)
    decreases Size(t), 0
  {
    rest := t;
    if AtBinOp(t) && Prec(t.head.code) == k - 1 {
      var p := ParseBinary(k - 1, t.tail);
      rest := BinaryCut(k - 1, t.tail);
      if p.Got? {
        BinarySound(k - 1, t.tail);
        rest := LoopCut(k, Binary(t.head.code, acc, p.e), p.rest);
      }
    }
  }

  lemma {:induction false} AndCut(t: Toks) returns (rest: Toks)
    ensures CutAt(ParseAnd(t), t, rest)
    decreases Size(t), 20
  {
    var p := ParseBinary(MAX_PREC, t);
    BinarySound(MAX_PREC, t);
    rest := BinaryCut(MAX_PREC, t);
    if p.Got? && AtSym(p.rest, AND) {
      rest := AndCut(p.rest.tail);
    }
  }

  lemma {:induction false} OrCut(t: Toks) returns (rest: Toks)
    ensures CutAt(ParseOr(t), t, rest)
    decreases Size(t), 21
  {
    var p := ParseAnd(t);
    AndSound(t);
    rest := AndCut(t);
    if p.Got? && AtSym(p.rest, OR) {
      rest := OrCut(p.rest.tail);
    }
  }

  lemma {:induction false} CondCut(t: Toks) returns (rest: Toks)
    ensures CutAt(ParseCond(t), t, rest)
    decreases Size(t), 22
  {
    var p := ParseOr(t);
    OrSound(t);
    rest := OrCut(t);
    if p.Got? && AtSym(p.rest, QMARK) {
      var q := ParseAssign(p.rest.tail);
      AssignSound(p.rest.tail);
      rest := AssignCut(p.rest.tail);
      if q.Got? {
        rest := q.rest;
        if AtSym(q.rest, COLON) {
          rest := CondCut(q.rest.tail);
        }
      }
    }
  }

  /** A text that does not start with an expression is cut where the tokens read so far, its
      fragment, are followed by one that is not the one they wait for. */
  lemma {:induction false} AssignCut(t: Toks) returns (rest: Toks)
    ensures CutAt(ParseAssign(t), t, rest)
    decreases Size(t), 23
  {
    if AtAssign(t) {
      assert Size(t) == 1 + Size(t.tail);
      rest := AssignCut(t.tail.tail);
    } else {
      rest := CondCut(t);
    }
  }

  // ---------------------------------------------------------------------------
  // Parenthesising a tree only where grouping needs it.

  function Fit(e: Expr, k: nat): Expr {
    if Level(e) <= k then e else Paren(e)
  }

  /** A tree with parentheses added exactly at the operands that bind too loosely. */
  function Grouped(e: Expr): (g: Expr)
    ensures Level(g) == Level(e)
  {
    match e
    case Lit(_) => e
    case Var(_) => e
    case Paren(x) => Paren(Grouped(x))
    case Unary(op, x) => Unary(op, Fit(Grouped(x), 0))
    case Binary(op, l, r) => Binary(op, Fit(Grouped(l), Prec(op) + 1), Fit(Grouped(r), Prec(op)))
    case LogAnd(l, r) => LogAnd(Fit(Grouped(l), AND_LEVEL - 1), Fit(Grouped(r), AND_LEVEL))
    case LogOr(l, r) => LogOr(Fit(Grouped(l), OR_LEVEL - 1), Fit(Grouped(r), OR_LEVEL))
    case Cond(c, l, r) => Cond(Fit(Grouped(c), COND_LEVEL - 1), Grouped(l), Fit(Grouped(r), COND_LEVEL))
    case Assign(op, x, y) => Assign(op, x, Grouped(y))
  }

  /** Adding the needed parentheses makes every tree a derivation, and a tree that already
      is one is left alone. */
  lemma {:induction false} GroupedIsDerivation(e: Expr)
    ensures Derivation(Grouped(e))
    ensures Derivation(e) ==> Grouped(e) == e
  {
    match e
    case Lit(_) =>
    case Var(_) =>
    case Paren(x) => GroupedIsDerivation(x);
    case Unary(_, x) => GroupedIsDerivation(x);
    case Binary(_, l, r) => GroupedIsDerivation(l); GroupedIsDerivation(r);
    case LogAnd(l, r) => GroupedIsDerivation(l); GroupedIsDerivation(r);
    case LogOr(l, r) => GroupedIsDerivation(l); GroupedIsDerivation(r);
    case Cond(c, l, r) => GroupedIsDerivation(c); GroupedIsDerivation(l); GroupedIsDerivation(r);
    case Assign(_, _, x) => GroupedIsDerivation(x);
  }

  /** `d` is `e` with any number of parentheses put in anywhere. */
  ghost predicate Parenthesized(d: Expr, e: Expr)
    decreases d
  {
    || (d.Paren? && Parenthesized(d.e, e))
    || match (d, e)
       case (Lit(v), Lit(w)) => v == w
       case (Var(x), Var(y)) => x == y
       case (Paren(x), Paren(y)) => Parenthesized(x, y)
       case (Unary(op, x), Unary(op', y)) => op == op' && Parenthesized(x, y)
       case (Binary(op, l, r), Binary(op', l', r')) => op == op' && Parenthesized(l, l') && Parenthesized(r, r')
       case (LogAnd(l, r), LogAnd(l', r')) => Parenthesized(l, l') && Parenthesized(r, r')
       case (LogOr(l, r), LogOr(l', r')) => Parenthesized(l, l') && Parenthesized(r, r')
       case (Cond(c, l, r), Cond(c', l', r')) => Parenthesized(c, c') && Parenthesized(l, l') && Parenthesized(r, r')
       case (Assign(op, x, y), Assign(op', x', y')) => op == op' && x == x' && Parenthesized(y, y')
       case _ => false
  }

  /** How many pairs of parentheses a tree has. */
  function Parens(e: Expr): nat {
    match e
    case Lit(_) => 0
    case Var(_) => 0
    case Paren(x) => 1 + Parens(x)
    case Unary(_, x) => Parens(x)
    case Binary(_, l, r) => Parens(l) + Parens(r)
    case LogAnd(l, r) => Parens(l) + Parens(r)
    case LogOr(l, r) => Parens(l) + Parens(r)
    case Cond(c, l, r) => Parens(c) + Parens(l) + Parens(r)
    case Assign(_, _, x) => Parens(x)
  }

  /** Only a pair of parentheses around the whole changes the level. */
  lemma LevelKept(d: Expr, e: Expr)
    requires Parenthesized(d, e)
    ensures d.Paren? || Level(d) == Level(e)
  {
  }

  /** No way to put parentheses into a tree that makes it a derivation uses fewer of them. */
  lemma {:induction false} FewestParentheses(d: Expr, e: Expr)
    requires Parenthesized(d, e) && Derivation(d)
    ensures Parens(Grouped(e)) <= Parens(d)
    decreases d, 0
  {
    if d.Paren? && Parenthesized(d.e, e) {
      FewestParentheses(d.e, e);
    } else {
      match d
      case Lit(_) =>
      case Var(_) =>
      case Paren(x) => FewestParentheses(x, e.e);
      case Unary(_, x) => FewestFit(x, e.e, 0);
      case Binary(op, l, r) => FewestFit(l, e.l, Prec(op) + 1); FewestFit(r, e.r, Prec(op));
      case LogAnd(l, r) => FewestFit(l, e.l, AND_LEVEL - 1); FewestFit(r, e.r, AND_LEVEL);
      case LogOr(l, r) => FewestFit(l, e.l, OR_LEVEL - 1); FewestFit(r, e.r, OR_LEVEL);
      case Cond(c, l, r) =>
        FewestFit(c, e.c, COND_LEVEL - 1);
        FewestParentheses(l, e.l);
        FewestFit(r, e.r, COND_LEVEL);
      case Assign(_, _, x) => FewestParentheses(x, e.e);
    }
  }

  lemma {:induction false} FewestFit(d: Expr, e: Expr, k: nat)
    requires Parenthesized(d, e) && Derivation(d) && Level(d) <= k
    ensures Parens(Fit(Grouped(e), k)) <= Parens(d)
    decreases d, 1
  {
    FewestParentheses(d, e);
    LevelKept(d, e);
    if Level(e) > k && Parenthesized(d.e, e) {
      FewestParentheses(d.e, e);
    }
  }
}
