/** What a shell arithmetic expression means: its value and its effect on the shell
    variables, or the error that stops it.
 */
module ArithSemantics {
  import opened Basics
  import opened ArithWords
  import opened ArithGrammar
  import opened ArithText

  /** Shell variables and their texts. */
  type Vars = map<string, string>

  /** A value or an error, and the variables as they are by then. */
  datatype Outcome = Done(v: Arith, vars: Vars) | Failed(e: Error, vars: Vars)

  /** arith_lookupvarint: `u` is the shell's -u option. */
  function LookupVar(u: bool, vars: Vars, x: string): Value {
    if u && x !in vars then Bad(VariableNotSet)
    else if x !in vars || At(vars[x]) == '\0' then Good(0)
    else
      var c := ReadArith(vars[x]);
      if c.erange || At(c.end) != '\0' then Bad(VariableConversion) else Good(c.val)
  }

  function DoUnary(op: UnaryOp, v: Arith): Arith {
    if op == ADD then v
    else if op == SUB then Wrap(0 - v)
    else if op == NOT then Truth(v == 0)
    else Wrap(-1 - v)
  }

  /** The value stored by an assignment whose right-hand side is `v`. */
  function AssignedValue(u: bool, vars: Vars, op: AssignOp, x: string, v: Arith): Value {
    if op == ASS then Good(v)
    else
      var w := LookupVar(u, vars, x);
      if w.Bad? then w else DoBinop(op - ASS_OFFSET, w.v, v)
  }

  function Eval(u: bool, e: Expr, vars: Vars): Outcome {
    match e
    case Lit(v) => Done(v, vars)
    case Var(x) =>
      var w := LookupVar(u, vars, x);
      if w.Good? then Done(w.v, vars) else Failed(w.e, vars)
    case Paren(x) => Eval(u, x, vars)
    case Unary(op, x) =>
      var a := Eval(u, x, vars);
      if a.Failed? then a else Done(DoUnary(op, a.v), a.vars)
    case Binary(op, l, r) =>
      var a := Eval(u, l, vars);
      if a.Failed? then a else
      var b := Eval(u, r, a.vars);
      if b.Failed? then b else
      var w := DoBinop(op, a.v, b.v);
      if w.Good? then Done(w.v, b.vars) else Failed(w.e, b.vars)
    case LogAnd(l, r) =>
      var a := Eval(u, l, vars);
      if a.Failed? || a.v == 0 then a else
      var b := Eval(u, r, a.vars);
      if b.Failed? then b else Done(Truth(b.v != 0), b.vars)
    case LogOr(l, r) =>
      var a := Eval(u, l, vars);
      if a.Failed? then a else
      if a.v != 0 then Done(1, a.vars) else
      var b := Eval(u, r, a.vars);
      if b.Failed? then b else Done(Truth(b.v != 0), b.vars)
    case Cond(c, l, r) =>
      var a := Eval(u, c, vars);
      if a.Failed? then a else Eval(u, if a.v != 0 then l else r, a.vars)
    case Assign(op, x, y) =>
      var b := Eval(u, y, vars);
      if b.Failed? then b else
      var w := AssignedValue(u, b.vars, op, x, b.v);
      if w.Bad? then Failed(w.e, b.vars) else Done(w.v, b.vars[x := Format(w.v)])
  }

  /** What becomes of a text: a value, a run-time error or a syntax error, and the variables
      as they are by then. */
  datatype Verdict = Value(v: Arith, vars: Vars) | Error(e: Error, vars: Vars) | Syntax(vars: Vars)

  function Judged(a: Outcome): Verdict {
    if a.Done? then Value(a.v, a.vars) else Error(a.e, a.vars)
  }

  /** A finished operand to the left of the place where a token is missing: its error comes
      first, its value does not matter. */
  function Before(a: Outcome): Verdict {
    if a.Done? then Syntax(a.vars) else Error(a.e, a.vars)
  }

  /** The first error of a fragment, from left to right: operands are evaluated as they are
      read, those that short-circuiting skips are only read, and the missing token is an error
      where it is met, skipped or not. */
  function JudgeCut(u: bool, f: Fragment, vars: Vars): Verdict {
    match f
    case Missing => Syntax(vars)
    case InUnary(_, g) => JudgeCut(u, g, vars)
    case InParen(g) => JudgeCut(u, g, vars)
    case Unclosed(e) => Before(Eval(u, e, vars))
    case InRight(_, l, g) =>
      var a := Eval(u, l, vars);
      if a.Failed? then Before(a) else JudgeCut(u, g, a.vars)
    case InAnd(l, g) =>
      var a := Eval(u, l, vars);
      if a.Failed? || a.v == 0 then Before(a) else JudgeCut(u, g, a.vars)
    case InOr(l, g) =>
      var a := Eval(u, l, vars);
      if a.Failed? || a.v != 0 then Before(a) else JudgeCut(u, g, a.vars)
    case InThen(c, g) =>
      var a := Eval(u, c, vars);
      if a.Failed? || a.v == 0 then Before(a) else JudgeCut(u, g, a.vars)
    case NoColon(c, l) =>
      var a := Eval(u, c, vars);
      if a.Failed? || a.v == 0 then Before(a) else Before(Eval(u, l, a.vars))
    case InElse(c, l, g) =>
      var a := Eval(u, c, vars);
      if a.Failed? then Before(a)
      else if a.v != 0 then Before(Eval(u, l, a.vars))
      else JudgeCut(u, g, a.vars)
    case InAssign(_, _, g) => JudgeCut(u, g, vars)
  }

  lemma {:induction false} CutGivesNoValue(u: bool, f: Fragment, vars: Vars)
    ensures !JudgeCut(u, f, vars).Value?
    decreases f
  {
    hide Eval;
    match f
    case InUnary(_, g) => CutGivesNoValue(u, g, vars);
    case InParen(g) => CutGivesNoValue(u, g, vars);
    case InRight(_, l, g) => CutGivesNoValue(u, g, Eval(u, l, vars).vars);
    case InAnd(l, g) => CutGivesNoValue(u, g, Eval(u, l, vars).vars);
    case InOr(l, g) => CutGivesNoValue(u, g, Eval(u, l, vars).vars);
    case InThen(c, g) => CutGivesNoValue(u, g, Eval(u, c, vars).vars);
    case InElse(c, _, g) => CutGivesNoValue(u, g, Eval(u, c, vars).vars);
    case InAssign(_, _, g) => CutGivesNoValue(u, g, vars);
    case _ =>
  }

  function Judge(u: bool, p: Parsed, vars: Vars): Verdict {
    if p.Got? then Judged(Eval(u, p.e, vars)) else JudgeCut(u, p.at, vars)
  }

  /** Adding parentheses where grouping needs them does not change the meaning. */
  lemma {:induction false} GroupedKeepsMeaning(u: bool, e: Expr, vars: Vars)
    ensures Eval(u, Grouped(e), vars) == Eval(u, e, vars)
    decreases e, 0
  {
    hide DoBinop, DoUnary, LookupVar, AssignedValue, Format, Fit;
    // Operands are visited left to right, each in the state the previous one leaves.
    match e
    case Lit(_) =>
    case Var(_) =>
    case Paren(x) => GroupedKeepsMeaning(u, x, vars);
    case Unary(_, x) => FittedKeepsMeaning(u, x, 0, vars);
    case Assign(_, _, x) => GroupedKeepsMeaning(u, x, vars);
    case Cond(c, l, r) =>
      FittedKeepsMeaning(u, c, COND_LEVEL - 1, vars);
      var a := Eval(u, c, vars);
      GroupedKeepsMeaning(u, l, a.vars);
      FittedKeepsMeaning(u, r, COND_LEVEL, a.vars);
    case Binary(op, l, r) =>
      FittedKeepsMeaning(u, l, Prec(op) + 1, vars);
      FittedKeepsMeaning(u, r, Prec(op), Eval(u, l, vars).vars);
    case LogAnd(l, r) =>
      FittedKeepsMeaning(u, l, AND_LEVEL - 1, vars);
      FittedKeepsMeaning(u, r, AND_LEVEL, Eval(u, l, vars).vars);
    case LogOr(l, r) =>
      FittedKeepsMeaning(u, l, OR_LEVEL - 1, vars);
      FittedKeepsMeaning(u, r, OR_LEVEL, Eval(u, l, vars).vars);
  }

  lemma {:induction false} FittedKeepsMeaning(u: bool, e: Expr, k: nat, vars: Vars)
    ensures Eval(u, Fit(Grouped(e), k), vars) == Eval(u, e, vars)
    decreases e, 1
  {
    hide Grouped;
    GroupedKeepsMeaning(u, e, vars);
  }

  /** Chains of `&&` and of `||` mean the same grouped to the left, as ISO C groups them,
      and to the right, as the evaluator does. */
  lemma {:induction false} LogicalChainsAssociate(u: bool, a: Expr, b: Expr, c: Expr, vars: Vars)
    ensures Eval(u, LogOr(LogOr(a, b), c), vars) == Eval(u, LogOr(a, LogOr(b, c)), vars)
    ensures Eval(u, LogAnd(LogAnd(a, b), c), vars) == Eval(u, LogAnd(a, LogAnd(b, c)), vars)
  {
    hide Eval;
    OrRule(u, LogOr(a, b), c, vars);
    OrRule(u, a, b, vars);
    OrRule(u, a, LogOr(b, c), vars);
    AndRule(u, LogAnd(a, b), c, vars);
    AndRule(u, a, b, vars);
    AndRule(u, a, LogAnd(b, c), vars);
    var mid := Eval(u, a, vars).vars;
    OrRule(u, b, c, mid);
    AndRule(u, b, c, mid);
  }

  lemma {:induction false} OrRule(u: bool, l: Expr, r: Expr, vars: Vars)
    ensures var a := Eval(u, l, vars);
            var b := Eval(u, r, a.vars);
            Eval(u, LogOr(l, r), vars) ==
              if a.Failed? then a else if a.v != 0 then Done(1, a.vars)
              else if b.Failed? then b else Done(Truth(b.v != 0), b.vars)
  {
    hide DoBinop, DoUnary, LookupVar, AssignedValue, Format;
  }

  lemma {:induction false} AndRule(u: bool, l: Expr, r: Expr, vars: Vars)
    ensures var a := Eval(u, l, vars);
            var b := Eval(u, r, a.vars);
            Eval(u, LogAnd(l, r), vars) ==
              if a.Failed? || a.v == 0 then a else if b.Failed? then b else Done(Truth(b.v != 0), b.vars)
  {
    hide DoBinop, DoUnary, LookupVar, AssignedValue, Format;
  }

  /** A variable just assigned reads back as the assigned value, with or without -u. */
  lemma {:induction false} AssignedReadsBack(u: bool, op: AssignOp, x: string, y: Expr, vars: Vars)
    ensures var a := Eval(u, Assign(op, x, y), vars);
            a.Done? ==> Eval(u, Var(x), a.vars) == a
  {
    hide DoBinop, DoUnary, AssignedValue, Format, ReadArith;
    var a := Eval(u, Assign(op, x, y), vars);
    if a.Done? {
      FormatReadsBack(a.v);
      FormatStarts(a.v);
    }
  }

  /** A value's text is never empty. */
  lemma FormatStarts(v: Arith)
    ensures At(Format(v)) != '\0'
  {
    hide Decimal;
  }
}
