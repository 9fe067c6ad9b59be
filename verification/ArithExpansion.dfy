/** Shell arithmetic expansion end to end: from a text, and from a syntax tree, to the value
    and the variables it leaves.
 */
module ArithExpansion {
  import opened ArithGrammar
  import opened ArithText
  import opened ArithSemantics
  import opened ArithEvaluator

  /** `text` is a sentence of the grammar and `e` is its derivation. */
  ghost predicate Derives(e: Expr, text: string) {
    Derivation(e) && Tokens(text) == Emit(e, End)
  }

  /** What becomes of any text: an expression followed by something else is evaluated first,
      then refused. */
  ghost function Fate(text: string, vars: Vars, uflag: bool): Verdict {
    var p := ParseAssign(Tokens(text));
    if p.Got? && p.rest != End then Before(Eval(uflag, p.e, vars)) else Judge(uflag, p, vars)
  }

  /** Evaluating any text: a sentence is evaluated to the meaning of its derivation, error
      included; anything else is refused with its first error from left to right, be that a
      run-time error or the syntax error, and with the assignments made by then. */
  method Evaluate(text: string, vars: Vars, uflag: bool) returns (r: Status, vars': Vars)
    ensures forall e :: Derives(e, text) ==>
              match Eval(uflag, e, vars)
              case Done(v, after) => r == Ok(v) && vars' == after
              case Failed(x, after) => r == RuntimeError(x) && vars' == after
    ensures (forall e :: !Derives(e, text)) ==> !r.Ok?
    ensures r.SyntaxError? ==> forall e :: !Derives(e, text)
    ensures Ended(r, vars') == Fate(text, vars, uflag)
  {
    hide Tokens, Eval, Emit, ParseAssign;
    var shell := new Evaluator(text, vars, uflag);
    r := shell.Arith();
    vars' := shell.vars;
    ghost var p := ParseAssign(Tokens(text));
    if p.Got? && p.rest == End {
      ParserDecidesGrammar(Tokens(text), p.e);
      assert Derives(p.e, text);
    }
    forall e | Derives(e, text)
      ensures p == Got(e, End)
    {
      ParserDecidesGrammar(Tokens(text), e);
    }
    if p.Cut? {
      CutGivesNoValue(uflag, p.at, vars);
    }
  }

  /** Trees whose literals and names can be written down. */
  predicate Writable(e: Expr) {
    match e
    case Lit(v) => v >= 0
    case Var(x) => IsIdentifier(x)
    case Paren(x) => Writable(x)
    case Unary(_, x) => Writable(x)
    case Binary(_, l, r) => Writable(l) && Writable(r)
    case LogAnd(l, r) => Writable(l) && Writable(r)
    case LogOr(l, r) => Writable(l) && Writable(r)
    case Cond(c, l, r) => Writable(c) && Writable(l) && Writable(r)
    case Assign(_, x, y) => IsIdentifier(x) && Writable(y)
  }

  lemma {:induction false} WritableGrouped(e: Expr)
    requires Writable(e)
    ensures Writable(Grouped(e))
  {
    match e
    case Lit(_) =>
    case Var(_) =>
    case Paren(x) => WritableGrouped(x);
    case Unary(_, x) => WritableGrouped(x);
    case Assign(_, _, x) => WritableGrouped(x);
    case Cond(c, l, r) => WritableGrouped(c); WritableGrouped(l); WritableGrouped(r);
    case _ => WritableGrouped(e.l); WritableGrouped(e.r);
  }

  lemma {:induction false} WritableSpells(e: Expr, rest: Toks)
    requires Writable(e) && AllSpellable(rest)
    ensures AllSpellable(Emit(e, rest))
  {
    match e
    case Lit(_) =>
    case Var(_) =>
    case Paren(x) => WritableSpells(x, Cons(Sym(RPAREN), rest));
    case Unary(_, x) => WritableSpells(x, rest);
    case Assign(_, _, x) => WritableSpells(x, rest);
    case Binary(op, l, r) => WritableSpells(r, rest); WritableSpells(l, Cons(Sym(op), Emit(r, rest)));
    case LogAnd(l, r) => WritableSpells(r, rest); WritableSpells(l, Cons(Sym(AND), Emit(r, rest)));
    case LogOr(l, r) => WritableSpells(r, rest); WritableSpells(l, Cons(Sym(OR), Emit(r, rest)));
    case Cond(c, l, r) =>
      WritableSpells(r, rest);
      WritableSpells(l, Cons(Sym(COLON), Emit(r, rest)));
      WritableSpells(c, Cons(Sym(QMARK), Emit(l, Cons(Sym(COLON), Emit(r, rest)))));
  }

  lemma WritableHasSpelling(e: Expr)
    requires Writable(e)
    ensures AllSpellable(Emit(Grouped(e), End))
  {
    WritableGrouped(e);
    WritableSpells(Grouped(e), End);
  }

  /** The text of a tree, with parentheses only where grouping needs them. */
  function Render(e: Expr): string
    requires Writable(e)
  {
    WritableHasSpelling(e);
    Spell(Emit(Grouped(e), End))
  }

  /** Writing a tree down with as few parentheses as grouping allows and evaluating the text
      gives the meaning of the tree: its value and variables, or its error. */
  method EvaluateRendered(e: Expr, vars: Vars, uflag: bool) returns (r: Status, vars': Vars)
    requires Writable(e)
    ensures match Eval(uflag, e, vars)
            case Done(v, after) => r == Ok(v) && vars' == after
            case Failed(x, after) => r == RuntimeError(x) && vars' == after
  {
    hide Tokens, Eval, Emit, Spell;
    r, vars' := Evaluate(Render(e), vars, uflag);
    GroupedIsDerivation(e);
    GroupedKeepsMeaning(uflag, e, vars);
    WritableHasSpelling(e);
    SpellingReadsBack(Emit(Grouped(e), End));
    assert Derives(Grouped(e), Render(e));
  }
}
