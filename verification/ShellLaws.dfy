/** The laws of shell control flow: negation and the tests against each other, and how many
    loops a break or a continue leaves.
 */
module ShellLaws {
  import opened Basics
  import opened ArithWords
  import opened ArithText
  import opened ShellNumbers
  import opened ShellSemantics

  /** The same outcome and, for a run that has finished, the same status, functions and
      trace. */
  predicate Alike(a: Result, b: Result) {
    a.out == b.out && (a.out != OutOfFuel ==> a.st == b.st)
  }

  // ---------------------------------------------------------------------------
  // The status a tree starts with.

  /** The first thing `n` does is to return without an argument, and so with the status it
      finds.  With `called`, also in the functions that `n` calls first; then a list of case
      clauses that runs nothing, and so keeps the status, counts too. */
  predicate ReadsStatus(w: World, fuel: nat, n: Tree, st: Store, called: bool := true)
    decreases fuel, Size(n), 2
  {
    match n
    case Semi(l, _) => ReadsStatus(w, fuel, l, st, called)
    case And(l, _) => ReadsStatus(w, fuel, l, st, called)
    case Or(l, _) => ReadsStatus(w, fuel, l, st, called)
    case Not(t) => ReadsStatus(w, fuel, t, st, called)
    case If(c, _, _) => ReadsStatus(w, fuel, c, st, called)
    case While(_, c, _) => fuel > 0 && ReadsStatus(w, fuel - 1, c, st, called)
    case For(words, b) =>
      var ws := w.expand(words, st.trace);
      ws != [] && ReadsStatus(w, fuel, b, st.(trace := st.trace + [Bound(ws[0])]), called)
    case Case(word, cs) =>
      var c := Selected(w, word, cs, st.trace);
      HasBody(c) && ClausesReadStatus(w, fuel, c, st, called)
    case At(cs) => ClausesReadStatus(w, fuel, cs, st, called)
    case Simple(name) => called && name in st.funcs && fuel > 0 && ReadsStatus(w, fuel - 1, st.funcs[name], st)
    case Return(arg) => arg.None?
    case _ => false
  }

  predicate ClausesReadStatus(w: World, fuel: nat, c: Clauses, st: Store, called: bool := true)
    decreases fuel, ClausesSize(c), 4
  {
    if c.NoClause? then called
    else if !c.body.Nothing? then ReadsStatus(w, fuel, c.body, st, called)
    else if c.falls then ClausesReadStatus(w, fuel, c.next, st, called)
    else called
  }

  /** Otherwise the status before `n` makes no difference. */
  lemma {:induction false} StatusUnread(w: World, fuel: nat, n: Tree, tested: bool, depth: nat, st: Store, s: int)
    requires !ReadsStatus(w, fuel, n, st)
    ensures Alike(Exec(w, fuel, n, tested, depth, SetStatus(st, s)), Exec(w, fuel, n, tested, depth, st))
    decreases fuel, Size(n), 2
  {
    hide RunClauses, Loop, Resume, ForEach, Then, Command, Selected, HasBody;
    match n
    case Semi(l, r) => StatusUnread(w, fuel, l, tested, depth, st, s);
    case And(l, r) => StatusUnread(w, fuel, l, true, depth, st, s);
    case Or(l, r) => StatusUnread(w, fuel, l, true, depth, st, s);
    case Not(t) => StatusUnread(w, fuel, t, true, depth, st, s);
    case If(c, l, r) => StatusUnread(w, fuel, c, true, depth, st, s);
    case While(_, _, _) => LoopUnread(w, fuel, n, tested, depth + 1, st, s);
    case For(_, _) => ForUnread(w, fuel, n, tested, depth + 1, st, s);
    case Case(word, cs) =>
      var c := Selected(w, word, cs, st.trace);
      if HasBody(c) {
        ClausesUnread(w, fuel, c, tested, depth, st, s);
      }
    case At(cs) => ClausesUnread(w, fuel, cs, tested, depth, st, s);
    case Simple(_) => CommandUnread(w, fuel, n, tested, depth, st, s);
    case Break(_) => CommandUnread(w, fuel, n, tested, depth, st, s);
    case Continue(_) => CommandUnread(w, fuel, n, tested, depth, st, s);
    case Return(_) => CommandUnread(w, fuel, n, tested, depth, st, s);
    case _ =>
  }

  lemma {:induction false} CommandUnread(w: World, fuel: nat, n: Tree, tested: bool, depth: nat, st: Store, s: int)
    requires IsCommand(n) && !ReadsStatus(w, fuel, n, st)
    ensures Alike(Command(w, fuel, n, tested, depth, SetStatus(st, s)), Command(w, fuel, n, tested, depth, st))
    decreases fuel, Size(n), 1
  {
    hide Exec;
    if n.Simple? && n.name in st.funcs && fuel > 0 {
      StatusUnread(w, fuel - 1, st.funcs[n.name], tested, depth, st, s);
    }
  }

  lemma {:induction false} LoopUnread(w: World, fuel: nat, n: Tree, tested: bool, depth: nat, st: Store, s: int)
    requires n.While? && !ReadsStatus(w, fuel, n, st)
    ensures Alike(Loop(w, fuel, n, tested, depth, SetStatus(st, s), 0), Loop(w, fuel, n, tested, depth, st, 0))
    decreases fuel, Size(n), 1
  {
    hide Exec, Resume, Loop;
    if fuel == 0 {
      LoopEnd(w, n, tested, depth, st, 0);
      LoopEnd(w, n, tested, depth, SetStatus(st, s), 0);
    } else {
      StatusUnread(w, fuel - 1, n.test, true, depth, st, s);
      LoopStep(w, fuel, n, tested, depth, st, 0);
      LoopStep(w, fuel, n, tested, depth, SetStatus(st, s), 0);
      var a := Exec(w, fuel - 1, n.test, true, depth, st);
      if a.out == OutOfFuel {
        ResumeStep(w, fuel - 1, n, tested, depth, a, 0);
        ResumeStep(w, fuel - 1, n, tested, depth, Exec(w, fuel - 1, n.test, true, depth, SetStatus(st, s)), 0);
      }
    }
  }

  lemma {:induction false} ForUnread(w: World, fuel: nat, n: Tree, tested: bool, depth: nat, st: Store, s: int)
    requires n.For? && !ReadsStatus(w, fuel, n, st)
    ensures var ws := w.expand(n.words, st.trace);
            Alike(ForEach(w, fuel, n, ws, tested, depth, SetStatus(st, s), 0), ForEach(w, fuel, n, ws, tested, depth, st, 0))
    decreases fuel, Size(n), 1
  {
    hide Exec, ForEach;
    var ws := w.expand(n.words, st.trace);
    var st' := SetStatus(st, s);
    if ws == [] {
      ForEnd(w, fuel, n, tested, depth, st, 0);
      ForEnd(w, fuel, n, tested, depth, st', 0);
    } else {
      var bound := st.(trace := st.trace + [Bound(ws[0])]);
      assert SetStatus(bound, s) == st'.(trace := st'.trace + [Bound(ws[0])]);
      StatusUnread(w, fuel, n.body, tested, depth, bound, s);
      ForStep(w, fuel, n, ws, tested, depth, st, 0);
      ForStep(w, fuel, n, ws, tested, depth, st', 0);
    }
  }

  lemma {:induction false} ClausesUnread(w: World, fuel: nat, c: Clauses, tested: bool, depth: nat, st: Store, s: int)
    requires !ClausesReadStatus(w, fuel, c, st)
    ensures Alike(RunClauses(w, fuel, c, tested, depth, SetStatus(st, s)), RunClauses(w, fuel, c, tested, depth, st))
    decreases fuel, ClausesSize(c), 4
  {
    hide Exec;
    if c.body.Nothing? {
      ClausesUnread(w, fuel, c.next, tested, depth, st, s);
    } else {
      StatusUnread(w, fuel, c.body, tested, depth, st, s);
    }
  }

  // ---------------------------------------------------------------------------
  // Negation and choice.

  lemma {:induction false} LogicStep(w: World, fuel: nat, a: Tree, b: Tree, tested: bool, depth: nat, st: Store)
    ensures var l := Exec(w, fuel, a, true, depth, st);
            && Exec(w, fuel, Not(a), tested, depth, st) ==
                 (if l.out != Normal then l else Result(Normal, SetStatus(l.st, if l.st.status == 0 then 1 else 0)))
            && Exec(w, fuel, And(a, b), tested, depth, st) ==
                 (if l.out != Normal || l.st.status != 0 then l else Then(w, fuel, b, tested, depth, l.st))
            && Exec(w, fuel, Or(a, b), tested, depth, st) ==
                 (if l.out != Normal || l.st.status == 0 then l else Then(w, fuel, b, tested, depth, l.st))
  {
  }

  /** `! (a && b)` is `! a || ! b`, and `! (a || b)` is `! a && ! b`, unless `b` is reached and
      begins by returning the status it finds; the second also needs a `b` that is there. */
  lemma {:induction false} Duality(w: World, fuel: nat, a: Tree, b: Tree, tested: bool, depth: nat, st: Store)
    ensures var l := Exec(w, fuel, a, true, depth, st);
            (l.out == Normal && l.st.status == 0 ==> !ReadsStatus(w, fuel, b, l.st)) ==>
              Alike(Exec(w, fuel, Not(And(a, b)), tested, depth, st),
                    Exec(w, fuel, Or(Not(a), Not(b)), tested, depth, st))
    ensures var l := Exec(w, fuel, a, true, depth, st);
            (l.out == Normal && l.st.status != 0 ==> !b.Nothing? && !ReadsStatus(w, fuel, b, l.st)) ==>
              Alike(Exec(w, fuel, Not(Or(a, b)), tested, depth, st),
                    Exec(w, fuel, And(Not(a), Not(b)), tested, depth, st))
  {
    hide Exec, ReadsStatus;
    var l := Exec(w, fuel, a, true, depth, st);
    if !ReadsStatus(w, fuel, b, l.st) {
      StatusUnread(w, fuel, b, true, depth, l.st, 0);
      StatusUnread(w, fuel, b, true, depth, l.st, 1);
    }
    NothingStep(w, fuel, true, depth, SetStatus(l.st, 1));
    LogicStep(w, fuel, And(a, b), b, tested, depth, st);
    LogicStep(w, fuel, Or(a, b), b, tested, depth, st);
    LogicStep(w, fuel, a, b, true, depth, st);
    LogicStep(w, fuel, Not(a), Not(b), tested, depth, st);
    LogicStep(w, fuel, b, b, tested, depth, SetStatus(l.st, 0));
    LogicStep(w, fuel, b, b, tested, depth, SetStatus(l.st, 1));
  }

  // ---------------------------------------------------------------------------
  // A tree that begins with a return of its own keeps the status it finds.

  /** Whether it does so does not depend on that status. */
  lemma {:induction false} ReadingStays(w: World, fuel: nat, n: Tree, st: Store, s: int)
    requires ReadsStatus(w, fuel, n, st, false)
    ensures ReadsStatus(w, fuel, n, SetStatus(st, s), false)
    decreases fuel, Size(n), 2
  {
    match n
    case Semi(l, r) => ReadingStays(w, fuel, l, st, s);
    case And(l, r) => ReadingStays(w, fuel, l, st, s);
    case Or(l, r) => ReadingStays(w, fuel, l, st, s);
    case Not(t) => ReadingStays(w, fuel, t, st, s);
    case If(c, l, r) => ReadingStays(w, fuel, c, st, s);
    case While(_, c, _) => ReadingStays(w, fuel - 1, c, st, s);
    case For(words, b) =>
      var bound := st.(trace := st.trace + [Bound(w.expand(words, st.trace)[0])]);
      assert SetStatus(bound, s) == SetStatus(st, s).(trace := bound.trace);
      ReadingStays(w, fuel, b, bound, s);
    case Case(word, cs) => ClausesReadingStays(w, fuel, Selected(w, word, cs, st.trace), st, s);
    case At(cs) => ClausesReadingStays(w, fuel, cs, st, s);
    case Return(_) =>
  }

  lemma {:induction false} ClausesReadingStays(w: World, fuel: nat, c: Clauses, st: Store, s: int)
    requires ClausesReadStatus(w, fuel, c, st, false)
    ensures ClausesReadStatus(w, fuel, c, SetStatus(st, s), false)
    decreases fuel, ClausesSize(c), 4
  {
    hide ReadsStatus;
    if c.body.Nothing? {
      ClausesReadingStays(w, fuel, c.next, st, s);
    } else {
      ReadingStays(w, fuel, c.body, st, s);
    }
  }

  lemma {:induction false} OwnReturn(w: World, fuel: nat, n: Tree, tested: bool, depth: nat, st: Store)
    requires ReadsStatus(w, fuel, n, st, false)
    ensures var r := Exec(w, fuel, n, tested, depth, st);
            r.st.status == st.status && (r.out == Returning || r.out == ErrExit)
    decreases fuel, Size(n), 2
  {
    hide RunClauses, Loop, Resume, ForEach, Then;
    match n
    case Semi(l, r) => OwnReturn(w, fuel, l, tested, depth, st);
    case And(l, r) => OwnReturn(w, fuel, l, true, depth, st);
    case Or(l, r) => OwnReturn(w, fuel, l, true, depth, st);
    case Not(t) => OwnReturn(w, fuel, t, true, depth, st);
    case If(c, l, r) => OwnReturn(w, fuel, c, true, depth, st);
    case While(_, c, _) =>
      OwnReturn(w, fuel - 1, c, true, depth + 1, st);
      LoopStep(w, fuel, n, tested, depth + 1, st, 0);
      ResumeStep(w, fuel - 1, n, tested, depth + 1, Exec(w, fuel - 1, c, true, depth + 1, st), 0);
    case For(words, b) =>
      var ws := w.expand(words, st.trace);
      OwnReturn(w, fuel, b, tested, depth + 1, st.(trace := st.trace + [Bound(ws[0])]));
      ForStep(w, fuel, n, ws, tested, depth + 1, st, 0);
    case Case(word, cs) => ClausesReturn(w, fuel, Selected(w, word, cs, st.trace), tested, depth, st);
    case At(cs) => ClausesReturn(w, fuel, cs, tested, depth, st);
    case Return(_) =>
  }

  lemma {:induction false} ClausesReturn(w: World, fuel: nat, c: Clauses, tested: bool, depth: nat, st: Store)
    requires ClausesReadStatus(w, fuel, c, st, false)
    ensures var r := RunClauses(w, fuel, c, tested, depth, st);
            r.st.status == st.status && (r.out == Returning || r.out == ErrExit)
    decreases fuel, ClausesSize(c), 4
  {
    hide Exec;
    if c.body.Nothing? {
      ClausesReturn(w, fuel, c.next, tested, depth, st);
    } else {
      OwnReturn(w, fuel, c.body, tested, depth, st);
    }
  }

  /** The dualities fail when a right operand that is reached begins with a return of its own:
      the two sides return different statuses. */
  lemma {:induction false} DualityReturns(w: World, fuel: nat, a: Tree, b: Tree, tested: bool, depth: nat, st: Store)
    requires var l := Exec(w, fuel, a, true, depth, st);
             l.out == Normal && ReadsStatus(w, fuel, b, l.st, false)
    ensures var l := Exec(w, fuel, a, true, depth, st);
            if l.st.status == 0 then
              && Exec(w, fuel, Not(And(a, b)), tested, depth, st).st.status == 0
              && Exec(w, fuel, Or(Not(a), Not(b)), tested, depth, st).st.status == 1
            else
              && Exec(w, fuel, Not(Or(a, b)), tested, depth, st).st.status == l.st.status
              && Exec(w, fuel, And(Not(a), Not(b)), tested, depth, st).st.status == 0
  {
    hide Exec, ReadsStatus;
    var l := Exec(w, fuel, a, true, depth, st);
    var s := if l.st.status == 0 then 1 else 0;
    ReadingStays(w, fuel, b, l.st, s);
    OwnReturn(w, fuel, b, true, depth, l.st);
    OwnReturn(w, fuel, b, true, depth, SetStatus(l.st, s));
    assert !b.Nothing? by { NothingReadsNot(w, fuel, b, l.st); }
    LogicStep(w, fuel, And(a, b), b, tested, depth, st);
    LogicStep(w, fuel, Or(a, b), b, tested, depth, st);
    LogicStep(w, fuel, a, b, true, depth, st);
    LogicStep(w, fuel, Not(a), Not(b), tested, depth, st);
    LogicStep(w, fuel, b, b, tested, depth, SetStatus(l.st, s));
  }

  lemma NothingReadsNot(w: World, fuel: nat, n: Tree, st: Store)
    requires ReadsStatus(w, fuel, n, st, false)
    ensures !n.Nothing?
  {
  }

  /** The functions that `n` calls first do not begin with a return without an argument, so
      that `n` reads the status it finds only by a return of its own. */
  predicate Direct(w: World, fuel: nat, n: Tree, st: Store) {
    ReadsStatus(w, fuel, n, st) ==> ReadsStatus(w, fuel, n, st, false)
  }

  /** The dualities hold exactly when the right operand, where it is reached, does not begin by
      returning the status it finds; the second fails also for a right operand that is not
      there. */
  lemma {:induction false} DualityExactly(w: World, fuel: nat, a: Tree, b: Tree, tested: bool, depth: nat, st: Store)
    requires Direct(w, fuel, b, Exec(w, fuel, a, true, depth, st).st)
    ensures var l := Exec(w, fuel, a, true, depth, st);
            Alike(Exec(w, fuel, Not(And(a, b)), tested, depth, st),
                  Exec(w, fuel, Or(Not(a), Not(b)), tested, depth, st)) <==>
              !(l.out == Normal && l.st.status == 0 && ReadsStatus(w, fuel, b, l.st))
    ensures var l := Exec(w, fuel, a, true, depth, st);
            Alike(Exec(w, fuel, Not(Or(a, b)), tested, depth, st),
                  Exec(w, fuel, And(Not(a), Not(b)), tested, depth, st)) <==>
              !(l.out == Normal && l.st.status != 0 && (b.Nothing? || ReadsStatus(w, fuel, b, l.st)))
  {
    hide Exec, ReadsStatus;
    var l := Exec(w, fuel, a, true, depth, st);
    Duality(w, fuel, a, b, tested, depth, st);
    if l.out == Normal && ReadsStatus(w, fuel, b, l.st) {
      DualityReturns(w, fuel, a, b, tested, depth, st);
      NotFinal(w, fuel, a, b, tested, depth, st);
    } else if l.out == Normal && l.st.status != 0 && b.Nothing? {
      LogicStep(w, fuel, Or(a, b), b, tested, depth, st);
      LogicStep(w, fuel, a, b, true, depth, st);
      LogicStep(w, fuel, Not(a), Not(b), tested, depth, st);
      LogicStep(w, fuel, b, b, tested, depth, SetStatus(l.st, 0));
      NothingStep(w, fuel, true, depth, SetStatus(l.st, 0));
    }
  }

  /** Those returns do end: neither side runs out of fuel. */
  lemma {:induction false} NotFinal(w: World, fuel: nat, a: Tree, b: Tree, tested: bool, depth: nat, st: Store)
    requires var l := Exec(w, fuel, a, true, depth, st);
             l.out == Normal && ReadsStatus(w, fuel, b, l.st, false)
    ensures var l := Exec(w, fuel, a, true, depth, st);
            if l.st.status == 0 then Exec(w, fuel, Not(And(a, b)), tested, depth, st).out != OutOfFuel
            else Exec(w, fuel, Not(Or(a, b)), tested, depth, st).out != OutOfFuel
  {
    hide Exec, ReadsStatus;
    var l := Exec(w, fuel, a, true, depth, st);
    OwnReturn(w, fuel, b, true, depth, l.st);
    NothingReadsNot(w, fuel, b, l.st);
    LogicStep(w, fuel, And(a, b), b, tested, depth, st);
    LogicStep(w, fuel, Or(a, b), b, tested, depth, st);
    LogicStep(w, fuel, a, b, true, depth, st);
  }

  /** Exchanging the branches of an if undoes a negation of its test, exactly when the branch
      that runs does not begin by returning the status it finds. */
  lemma {:induction false} NegatedTest(w: World, fuel: nat, c: Tree, l: Tree, r: Tree, tested: bool, depth: nat, st: Store)
    requires var a := Exec(w, fuel, c, true, depth, st);
             Direct(w, fuel, if a.st.status == 0 then r else l, a.st)
    ensures var a := Exec(w, fuel, c, true, depth, st);
            Alike(Exec(w, fuel, If(Not(c), l, r), tested, depth, st),
                  Exec(w, fuel, If(c, r, l), tested, depth, st)) <==>
              !(a.out == Normal && ReadsStatus(w, fuel, if a.st.status == 0 then r else l, a.st))
  {
    hide Exec, ReadsStatus;
    var a := Exec(w, fuel, c, true, depth, st);
    var s := if a.st.status == 0 then 1 else 0;
    var branch := if a.st.status == 0 then r else l;
    IfStep(w, fuel, Not(c), l, r, tested, depth, st);
    IfStep(w, fuel, c, r, l, tested, depth, st);
    LogicStep(w, fuel, c, c, true, depth, st);
    NothingStep(w, fuel, tested, depth, a.st);
    NothingStep(w, fuel, tested, depth, SetStatus(a.st, s));
    if ReadsStatus(w, fuel, branch, a.st) {
      ReadingStays(w, fuel, branch, a.st, s);
      OwnReturn(w, fuel, branch, tested, depth, a.st);
      OwnReturn(w, fuel, branch, tested, depth, SetStatus(a.st, s));
      NothingReadsNot(w, fuel, branch, a.st);
    } else {
      StatusUnread(w, fuel, branch, tested, depth, a.st, s);
    }
  }

  lemma {:induction false} IfStep(w: World, fuel: nat, c: Tree, l: Tree, r: Tree, tested: bool, depth: nat, st: Store)
    ensures var a := Exec(w, fuel, c, true, depth, st);
            Exec(w, fuel, If(c, l, r), tested, depth, st) ==
              if a.out != Normal then a
              else if a.st.status == 0 then Then(w, fuel, l, tested, depth, a.st)
              else Exec(w, fuel, r, tested, depth, a.st)
  {
  }

  // ---------------------------------------------------------------------------
  // Until.

  predicate GoesOn(o: Outcome) {
    o == Normal || (o.Continuing? && o.n <= 1)
  }

  /** No turn of the loop begins by returning the status that its test left. */
  predicate TurnsUnread(w: World, fuel: nat, n: Tree, tested: bool, depth: nat, st: Store)
    requires n.While?
    decreases fuel
  {
    fuel > 0 ==>
      var a := Exec(w, fuel - 1, n.test, true, depth, st);
      if a.out == Normal && (a.st.status == 0) != n.until then
        var b := Exec(w, fuel - 1, n.body, tested, depth, a.st);
        && !ReadsStatus(w, fuel - 1, n.body, a.st)
        && (GoesOn(b.out) ==> TurnsUnread(w, fuel - 1, n, tested, depth, b.st))
      else a.out.Continuing? && a.out.n <= 1 ==> TurnsUnread(w, fuel - 1, n, tested, depth, a.st)
  }

  /** `until t; do b; done` is `while ! t; do b; done`, turn by turn. */
  lemma {:induction false} UntilLoops(w: World, fuel: nat, t: Tree, b: Tree, tested: bool, depth: nat, st: Store, status: int)
    requires TurnsUnread(w, fuel, While(true, t, b), tested, depth, st)
    ensures Alike(Loop(w, fuel, While(true, t, b), tested, depth, st, status),
                  Loop(w, fuel, While(false, Not(t), b), tested, depth, st, status))
    decreases fuel, 0
  {
    hide Exec, Loop, Resume, ReadsStatus;
    var u, v := While(true, t, b), While(false, Not(t), b);
    if fuel == 0 {
      LoopEnd(w, u, tested, depth, st, status);
      LoopEnd(w, v, tested, depth, st, status);
    } else {
      LoopStep(w, fuel, u, tested, depth, st, status);
      LoopStep(w, fuel, v, tested, depth, st, status);
      LogicStep(w, fuel - 1, t, t, true, depth, st);
      var a := Exec(w, fuel - 1, t, true, depth, st);
      if a.out != Normal {
        UntilResumes(w, fuel - 1, t, b, tested, depth, a, a, status);
      } else if a.st.status != 0 {
        var x := Exec(w, fuel - 1, b, tested, depth, a.st);
        var y := Exec(w, fuel - 1, b, tested, depth, SetStatus(a.st, 0));
        StatusUnread(w, fuel - 1, b, tested, depth, a.st, 0);
        UntilResumes(w, fuel - 1, t, b, tested, depth, x, y, x.st.status);
        if x.out == OutOfFuel {
          ResumeStep(w, fuel - 1, u, tested, depth, x, x.st.status);
          ResumeStep(w, fuel - 1, v, tested, depth, y, y.st.status);
        }
      }
    }
  }

  lemma {:induction false} UntilResumes(w: World, fuel: nat, t: Tree, b: Tree, tested: bool, depth: nat, x: Result, y: Result, status: int)
    requires Alike(x, y)
    requires GoesOn(x.out) ==> TurnsUnread(w, fuel, While(true, t, b), tested, depth, x.st)
    ensures Alike(Resume(w, fuel, While(true, t, b), tested, depth, x, status),
                  Resume(w, fuel, While(false, Not(t), b), tested, depth, y, status))
    decreases fuel, 1
  {
    hide Exec, Loop, Resume, TurnsUnread;
    ResumeStep(w, fuel, While(true, t, b), tested, depth, x, status);
    ResumeStep(w, fuel, While(false, Not(t), b), tested, depth, y, status);
    if GoesOn(x.out) {
      UntilLoops(w, fuel, t, b, tested, depth, x.st, status);
    }
  }

  /** `until t; do b; done` and `while ! t; do b; done` are the same when no turn begins by
      returning the status it finds. */
  lemma {:induction false} UntilIsWhileNot(w: World, fuel: nat, t: Tree, b: Tree, tested: bool, depth: nat, st: Store)
    requires TurnsUnread(w, fuel, While(true, t, b), tested, depth + 1, st)
    ensures Alike(Exec(w, fuel, While(true, t, b), tested, depth, st),
                  Exec(w, fuel, While(false, Not(t), b), tested, depth, st))
  {
    hide Loop, TurnsUnread;
    UntilLoops(w, fuel, t, b, tested, depth + 1, st, 0);
  }

  /** Some turn begins with a return of its own, and no turn before it reads the status it
      finds. */
  predicate TurnReturns(w: World, fuel: nat, n: Tree, tested: bool, depth: nat, st: Store)
    requires n.While?
    decreases fuel
  {
    fuel > 0 &&
      var a := Exec(w, fuel - 1, n.test, true, depth, st);
      if a.out == Normal && (a.st.status == 0) != n.until then
        var b := Exec(w, fuel - 1, n.body, tested, depth, a.st);
        if ReadsStatus(w, fuel - 1, n.body, a.st) then ReadsStatus(w, fuel - 1, n.body, a.st, false)
        else GoesOn(b.out) && TurnReturns(w, fuel - 1, n, tested, depth, b.st)
      else a.out.Continuing? && a.out.n <= 1 && TurnReturns(w, fuel - 1, n, tested, depth, a.st)
  }

  /** Then the loops differ: up to that turn they agree, and there the one returns the status of
      the test, which is not 0, and the other returns 0. */
  lemma {:induction false} UntilReturns(w: World, fuel: nat, t: Tree, b: Tree, tested: bool, depth: nat, st: Store, status: int)
    requires TurnReturns(w, fuel, While(true, t, b), tested, depth, st)
    ensures var x := Loop(w, fuel, While(true, t, b), tested, depth, st, status);
            var y := Loop(w, fuel, While(false, Not(t), b), tested, depth, st, status);
            x.st.status != 0 && y.st.status == 0 && !Alike(x, y)
    decreases fuel
  {
    hide Exec, Loop, Resume, ReadsStatus;
    var u, v := While(true, t, b), While(false, Not(t), b);
    LoopStep(w, fuel, u, tested, depth, st, status);
    LoopStep(w, fuel, v, tested, depth, st, status);
    LogicStep(w, fuel - 1, t, t, true, depth, st);
    var a := Exec(w, fuel - 1, t, true, depth, st);
    if a.out != Normal {
      ResumeStep(w, fuel - 1, u, tested, depth, a, status);
      ResumeStep(w, fuel - 1, v, tested, depth, a, status);
      UntilReturns(w, fuel - 1, t, b, tested, depth, a.st, status);
    } else {
      var x := Exec(w, fuel - 1, b, tested, depth, a.st);
      var y := Exec(w, fuel - 1, b, tested, depth, SetStatus(a.st, 0));
      ResumeStep(w, fuel - 1, u, tested, depth, x, x.st.status);
      ResumeStep(w, fuel - 1, v, tested, depth, y, y.st.status);
      if ReadsStatus(w, fuel - 1, b, a.st) {
        ReadingStays(w, fuel - 1, b, a.st, 0);
        OwnReturn(w, fuel - 1, b, tested, depth, a.st);
        OwnReturn(w, fuel - 1, b, tested, depth, SetStatus(a.st, 0));
      } else {
        StatusUnread(w, fuel - 1, b, tested, depth, a.st, 0);
        UntilReturns(w, fuel - 1, t, b, tested, depth, x.st, x.st.status);
      }
    }
  }

  /** In every turn the functions called first do not begin with a return without an
      argument. */
  predicate TurnsDirect(w: World, fuel: nat, n: Tree, tested: bool, depth: nat, st: Store)
    requires n.While?
    decreases fuel
  {
    fuel > 0 ==>
      var a := Exec(w, fuel - 1, n.test, true, depth, st);
      if a.out == Normal && (a.st.status == 0) != n.until then
        var b := Exec(w, fuel - 1, n.body, tested, depth, a.st);
        Direct(w, fuel - 1, n.body, a.st) && (GoesOn(b.out) ==> TurnsDirect(w, fuel - 1, n, tested, depth, b.st))
      else a.out.Continuing? && a.out.n <= 1 ==> TurnsDirect(w, fuel - 1, n, tested, depth, a.st)
  }

  lemma {:induction false} UnreadOrReturns(w: World, fuel: nat, n: Tree, tested: bool, depth: nat, st: Store)
    requires n.While? && TurnsDirect(w, fuel, n, tested, depth, st)
    ensures TurnsUnread(w, fuel, n, tested, depth, st) || TurnReturns(w, fuel, n, tested, depth, st)
    decreases fuel
  {
    hide Exec, ReadsStatus;
    if fuel > 0 {
      var a := Exec(w, fuel - 1, n.test, true, depth, st);
      var b := Exec(w, fuel - 1, n.body, tested, depth, a.st);
      if a.out == Normal && (a.st.status == 0) != n.until {
        if GoesOn(b.out) {
          UnreadOrReturns(w, fuel - 1, n, tested, depth, b.st);
        }
      } else if a.out.Continuing? && a.out.n <= 1 {
        UnreadOrReturns(w, fuel - 1, n, tested, depth, a.st);
      }
    }
  }

  /** `until t; do b; done` and `while ! t; do b; done` are the same in outcome, status,
      functions and trace if and only if no turn begins by returning the status it finds. */
  lemma {:induction false} UntilExactly(w: World, fuel: nat, t: Tree, b: Tree, tested: bool, depth: nat, st: Store)
    requires TurnsDirect(w, fuel, While(true, t, b), tested, depth + 1, st)
    ensures Alike(Exec(w, fuel, While(true, t, b), tested, depth, st),
                  Exec(w, fuel, While(false, Not(t), b), tested, depth, st)) <==>
              TurnsUnread(w, fuel, While(true, t, b), tested, depth + 1, st)
  {
    hide Exec, Loop, TurnsUnread, TurnReturns, TurnsDirect;
    var u := While(true, t, b);
    if TurnsUnread(w, fuel, u, tested, depth + 1, st) {
      UntilIsWhileNot(w, fuel, t, b, tested, depth, st);
    } else {
      UnreadOrReturns(w, fuel, u, tested, depth + 1, st);
      UntilReturns(w, fuel, t, b, tested, depth + 1, st, 0);
      LoopEntry(w, fuel, u, tested, depth, st);
      LoopEntry(w, fuel, While(false, Not(t), b), tested, depth, st);
    }
  }

  lemma {:induction false} BareReturn(w: World, fuel: nat, depth: nat, st: Store)
    requires !w.eflag
    ensures Exec(w, fuel, Return(None), false, depth, st) == Result(Returning, st)
  {
  }

  /** A world in which every command fails with status 5. */
  const FAILING := World(false, false, (_, _) => Reply(5, false), (_, _) => 0, (_, _) => [], (_, _, _) => false)

  /** An input: `until c; do return; done` with a command `c` that fails with status 5 returns
      5, and `while ! c; do return; done` returns 0. */
  lemma {:induction false} UntilExample(st: Store)
    requires "c" !in st.funcs
    ensures Exec(FAILING, 1, While(true, Simple("c"), Return(None)), false, 0, st) ==
              Result(Returning, Store(5, st.funcs, st.trace + [Ran("c")]))
    ensures Exec(FAILING, 1, While(false, Not(Simple("c")), Return(None)), false, 0, st) ==
              Result(Returning, Store(0, st.funcs, st.trace + [Ran("c")]))
  {
    hide Exec, Loop, Resume;
    var w, c, body := FAILING, Simple("c"), Return(None);
    var u, v := While(true, c, body), While(false, Not(c), body);
    var five := After(w, "c", st);
    var zero := SetStatus(five, 0);
    CommandRuns(w, 0, "c", 1, st);
    LogicStep(w, 0, c, c, true, 1, st);
    BareReturn(w, 0, 1, five);
    BareReturn(w, 0, 1, zero);
    LoopEntry(w, 1, u, false, 0, st);
    LoopEntry(w, 1, v, false, 0, st);
    LoopStep(w, 1, u, false, 1, st, 0);
    LoopStep(w, 1, v, false, 1, st, 0);
    ResumeStep(w, 0, u, false, 1, Result(Returning, five), 5);
    ResumeStep(w, 0, v, false, 1, Result(Returning, zero), 0);
  }

  // ---------------------------------------------------------------------------
  // Break and continue in nested loops.

  /** One of several nested loops: `rest` follows the inner loops in its body. */
  datatype Level =
    | Tests(until: bool, test: Tree, rest: Tree)
    | Binds(words: string, rest: Tree)

  function Around(l: Level, inner: Tree): Tree {
    if l.Tests? then While(l.until, l.test, Semi(inner, l.rest)) else For(l.words, Semi(inner, l.rest))
  }

  /** Loops in loops, the outermost first, with `inner` in the middle. */
  function Nest(ls: seq<Level>, inner: Tree): Tree {
    if ls == [] then inner else Around(ls[0], Nest(ls[1..], inner))
  }

  datatype Arrival = Arrival(fuel: nat, st: Store)

  /** The fuel and the store with which the body of a loop starts its first turn, if the test
      lets it run, or if there is a word to bind. */
  function First(w: World, fuel: nat, l: Level, depth: nat, st: Store): Option<Arrival> {
    if l.Binds? then
      var ws := w.expand(l.words, st.trace);
      if ws == [] then None else Some(Arrival(fuel, st.(trace := st.trace + [Bound(ws[0])])))
    else if fuel == 0 then None
    else
      var a := Exec(w, fuel - 1, l.test, true, depth + 1, st);
      if a.out == Normal && (a.st.status == 0) != l.until then Some(Arrival(fuel - 1, a.st)) else None
  }

  /** The same for the middle of nested loops. */
  function Arrive(w: World, fuel: nat, ls: seq<Level>, depth: nat, st: Store): Option<Arrival>
    decreases |ls|
  {
    if ls == [] then Some(Arrival(fuel, st)) else
    var f := First(w, fuel, ls[0], depth, st);
    if f.None? then None else Arrive(w, f.value.fuel, ls[1..], depth + 1, f.value.st)
  }

  /** The outermost loop after its first turn: it goes on, or it ends with what is left of the
      skip. */
  lemma {:induction false} TurnStep(w: World, fuel: nat, l: Level, inner: Tree, tested: bool, depth: nat, st: Store, b: Result)
    requires First(w, fuel, l, depth, st).Some?
    requires var f := First(w, fuel, l, depth, st).value;
             b == Exec(w, f.fuel, Semi(inner, l.rest), tested, depth + 1, f.st)
    requires b.out.Breaking? || b.out.Continuing?
    ensures Exec(w, fuel, Around(l, inner), tested, depth, st) ==
              if b.out.Continuing? && b.out.n <= 1 then NextTurn(w, fuel, l, inner, tested, depth, st, b.st)
              else Result(AfterLoop(b.out), b.st)
  {
    hide Exec, Loop, Resume, ForEach;
    var n := Around(l, inner);
    LoopEntry(w, fuel, n, tested, depth, st);
    if l.Tests? {
      LoopStep(w, fuel, n, tested, depth + 1, st, 0);
      ResumeStep(w, fuel - 1, n, tested, depth + 1, b, b.st.status);
    } else {
      ForStep(w, fuel, n, w.expand(l.words, st.trace), tested, depth + 1, st, 0);
    }
  }

  lemma {:induction false} LoopEntry(w: World, fuel: nat, n: Tree, tested: bool, depth: nat, st: Store)
    ensures n.While? ==> Exec(w, fuel, n, tested, depth, st) == Loop(w, fuel, n, tested, depth + 1, st, 0)
    ensures n.For? ==> Exec(w, fuel, n, tested, depth, st) ==
                         ForEach(w, fuel, n, w.expand(n.words, st.trace), tested, depth + 1, st, 0)
  {
  }

  /** The rest of a loop after a first turn that left the store `st1`. */
  function NextTurn(w: World, fuel: nat, l: Level, inner: Tree, tested: bool, depth: nat, st: Store, st1: Store): Result
    requires First(w, fuel, l, depth, st).Some?
  {
    if l.Tests? then Loop(w, fuel - 1, Around(l, inner), tested, depth + 1, st1, st1.status)
    else ForEach(w, fuel, Around(l, inner), w.expand(l.words, st.trace)[1..], tested, depth + 1, st1, st1.status)
  }

  lemma {:induction false} SkipInSemi(w: World, fuel: nat, l: Tree, r: Tree, tested: bool, depth: nat, st: Store)
    ensures var a := Exec(w, fuel, l, tested, depth, st);
            Exec(w, fuel, Semi(l, r), tested, depth, st) ==
              if a.out != Normal then a else Then(w, fuel, r, tested, depth, a.st)
  {
  }

  /** A break of `k` levels met in the middle of no more than `k` loops ends them all at once:
      no `rest` runs, no test is taken again. */
  lemma {:induction false} BreakLeaves(w: World, fuel: nat, ls: seq<Level>, inner: Tree, tested: bool, depth: nat, st: Store, r: Result)
    requires Arrive(w, fuel, ls, depth, st).Some?
    requires var m := Arrive(w, fuel, ls, depth, st).value;
             r == Exec(w, m.fuel, inner, tested, depth + |ls|, m.st)
    requires r.out.Breaking? && r.out.n >= 1 && |ls| <= r.out.n
    ensures Exec(w, fuel, Nest(ls, inner), tested, depth, st) ==
              Result(if r.out.n == |ls| then Normal else Breaking(r.out.n - |ls|), r.st)
    decreases |ls|
  {
    hide Exec, First;
    if ls != [] {
      var f := First(w, fuel, ls[0], depth, st).value;
      var nest := Nest(ls[1..], inner);
      BreakLeaves(w, f.fuel, ls[1..], inner, tested, depth + 1, f.st, r);
      SkipInSemi(w, f.fuel, nest, ls[0].rest, tested, depth + 1, f.st);
      TurnStep(w, fuel, ls[0], nest, tested, depth, st, Exec(w, f.fuel, Semi(nest, ls[0].rest), tested, depth + 1, f.st));
    }
  }

  /** A continue of `k` levels ends the inner loops in the same way, and the `k`-th loop from
      the middle goes on with its next turn. */
  lemma {:induction false} ContinueLeaves(w: World, fuel: nat, ls: seq<Level>, inner: Tree, tested: bool, depth: nat, st: Store, r: Result)
    requires Arrive(w, fuel, ls, depth, st).Some?
    requires var m := Arrive(w, fuel, ls, depth, st).value;
             r == Exec(w, m.fuel, inner, tested, depth + |ls|, m.st)
    requires r.out.Continuing? && r.out.n >= 1 && |ls| <= r.out.n
    ensures Exec(w, fuel, Nest(ls, inner), tested, depth, st) ==
              if r.out.n == |ls| then NextTurn(w, fuel, ls[0], Nest(ls[1..], inner), tested, depth, st, r.st)
              else Result(Continuing(r.out.n - |ls|), r.st)
    decreases |ls|
  {
    hide Exec, First, NextTurn;
    if ls != [] {
      var f := First(w, fuel, ls[0], depth, st).value;
      var nest := Nest(ls[1..], inner);
      ContinueLeaves(w, f.fuel, ls[1..], inner, tested, depth + 1, f.st, r);
      SkipInSemi(w, f.fuel, nest, ls[0].rest, tested, depth + 1, f.st);
      TurnStep(w, fuel, ls[0], nest, tested, depth, st, Exec(w, f.fuel, Semi(nest, ls[0].rest), tested, depth + 1, f.st));
    }
  }

  lemma CountRead(n: nat)
    requires n <= ARITH_MAX
    ensures LoopCount(Some(Decimal(n))) == Some(n)
  {
    hide LoopCount, Decimal, DecimalValue, AllDigits, Wrap;
    DecimalReadsBack(n);
    LoopCountIs(Decimal(n));
    WrapKeeps(n);
  }

  /** Without a count, one loop is meant. */
  lemma {:induction false} NoCount(w: World, fuel: nat, tested: bool, depth: nat, st: Store)
    ensures Exec(w, fuel, Break(None), tested, depth, st) == Exec(w, fuel, Break(Some("1")), tested, depth, st)
    ensures Exec(w, fuel, Continue(None), tested, depth, st) == Exec(w, fuel, Continue(Some("1")), tested, depth, st)
  {
    CountRead(1);
    assert Decimal(1) == "1";
  }

  lemma {:induction false} SkipCommand(w: World, fuel: nat, n: nat, tested: bool, depth: nat, st: Store)
    requires 1 <= n <= ARITH_MAX && depth >= 1
    ensures Exec(w, fuel, Break(Some(Decimal(n))), tested, depth, st) ==
              Result(Breaking(Min(n, depth)), SetStatus(st, 0))
    ensures Exec(w, fuel, Continue(Some(Decimal(n))), tested, depth, st) ==
              Result(Continuing(Min(n, depth)), SetStatus(st, 0))
  {
    CountRead(n);
  }

  /** `break n` in the middle of loops, at most `n` of them: every one ends at once, without its
      `rest` or another test.  What follows these loops runs exactly when `n` is their number or
      there are no more loops around them; otherwise the break goes on with the levels left. */
  lemma {:induction false} BreakEnds(w: World, fuel: nat, ls: seq<Level>, n: nat, after: Tree, tested: bool, depth: nat, st: Store)
    requires 1 <= |ls| <= n <= ARITH_MAX && Arrive(w, fuel, ls, depth, st).Some?
    ensures var left := Min(n, depth + |ls|) - |ls|;
            var end := SetStatus(Arrive(w, fuel, ls, depth, st).value.st, 0);
            var loops := Nest(ls, Break(Some(Decimal(n))));
            if left == 0 then
              && Exec(w, fuel, loops, tested, depth, st) == Result(Normal, end)
              && Exec(w, fuel, Semi(loops, after), tested, depth, st) == Then(w, fuel, after, tested, depth, end)
            else
              && Exec(w, fuel, loops, tested, depth, st) == Result(Breaking(left), end)
              && Exec(w, fuel, Semi(loops, after), tested, depth, st) == Result(Breaking(left), end)
  {
    hide Exec, Arrive;
    var m := Arrive(w, fuel, ls, depth, st).value;
    var inner := Break(Some(Decimal(n)));
    SkipCommand(w, m.fuel, n, tested, depth + |ls|, m.st);
    BreakLeaves(w, fuel, ls, inner, tested, depth, st, Exec(w, m.fuel, inner, tested, depth + |ls|, m.st));
    SkipInSemi(w, fuel, Nest(ls, inner), after, tested, depth, st);
  }

  /** `continue n` in the middle of loops, at most `n` of them: all but the outermost end, and
      the outermost goes on with its next turn exactly when `n` is their number or there are no
      more loops around them. */
  lemma {:induction false} ContinueResumes(w: World, fuel: nat, ls: seq<Level>, n: nat, tested: bool, depth: nat, st: Store)
    requires 1 <= |ls| <= n <= ARITH_MAX && Arrive(w, fuel, ls, depth, st).Some?
    ensures var left := Min(n, depth + |ls|) - |ls|;
            var end := SetStatus(Arrive(w, fuel, ls, depth, st).value.st, 0);
            var inner := Continue(Some(Decimal(n)));
            Exec(w, fuel, Nest(ls, inner), tested, depth, st) ==
              if left == 0 then NextTurn(w, fuel, ls[0], Nest(ls[1..], inner), tested, depth, st, end)
              else Result(Continuing(left), end)
  {
    hide Exec, First, NextTurn;
    var m := Arrive(w, fuel, ls, depth, st).value;
    var inner := Continue(Some(Decimal(n)));
    SkipCommand(w, m.fuel, n, tested, depth + |ls|, m.st);
    ContinueLeaves(w, fuel, ls, inner, tested, depth, st, Exec(w, m.fuel, inner, tested, depth + |ls|, m.st));
  }

  /** A return met in the middle of loops ends them all. */
  lemma {:induction false} ReturnLeaves(w: World, fuel: nat, ls: seq<Level>, inner: Tree, tested: bool, depth: nat, st: Store, r: Result)
    requires Arrive(w, fuel, ls, depth, st).Some?
    requires var m := Arrive(w, fuel, ls, depth, st).value;
             r == Exec(w, m.fuel, inner, tested, depth + |ls|, m.st)
    requires r.out == Returning
    ensures Exec(w, fuel, Nest(ls, inner), tested, depth, st) == r
    decreases |ls|
  {
    hide Exec, First, Loop, Resume, ForEach;
    if ls != [] {
      var f := First(w, fuel, ls[0], depth, st).value;
      var n := Nest(ls, inner);
      ReturnLeaves(w, f.fuel, ls[1..], inner, tested, depth + 1, f.st, r);
      SkipInSemi(w, f.fuel, Nest(ls[1..], inner), ls[0].rest, tested, depth + 1, f.st);
      ReturnStep(w, fuel, ls[0], Nest(ls[1..], inner), tested, depth, st, r);
    }
  }

  lemma {:induction false} ReturnStep(w: World, fuel: nat, l: Level, inner: Tree, tested: bool, depth: nat, st: Store, b: Result)
    requires First(w, fuel, l, depth, st).Some?
    requires var f := First(w, fuel, l, depth, st).value;
             b == Exec(w, f.fuel, Semi(inner, l.rest), tested, depth + 1, f.st)
    requires b.out == Returning
    ensures Exec(w, fuel, Around(l, inner), tested, depth, st) == b
  {
    hide Exec, Loop, Resume, ForEach;
    var n := Around(l, inner);
    LoopEntry(w, fuel, n, tested, depth, st);
    if l.Tests? {
      LoopStep(w, fuel, n, tested, depth + 1, st, 0);
      ResumeStep(w, fuel - 1, n, tested, depth + 1, b, b.st.status);
    } else {
      ForStep(w, fuel, n, w.expand(l.words, st.trace), tested, depth + 1, st, 0);
    }
  }

  /** The call of a function that returns from the middle of loops ends normally, with the
      status of the return. */
  lemma {:induction false} CallReturns(w: World, fuel: nat, f: string, ls: seq<Level>, v: nat, depth: nat, st: Store)
    requires f in st.funcs && st.funcs[f] == Nest(ls, Return(Some(Decimal(v)))) && v <= INT_MAX
    requires fuel > 0 && Arrive(w, fuel - 1, ls, depth, st).Some?
    ensures Exec(w, fuel, Simple(f), true, depth, st) ==
              Result(Normal, SetStatus(Arrive(w, fuel - 1, ls, depth, st).value.st, v))
  {
    hide Arrive, Nest, Decimal, DecimalValue;
    var m := Arrive(w, fuel - 1, ls, depth, st).value;
    var inner := Return(Some(Decimal(v)));
    DecimalReadsBack(v);
    ReturnLeaves(w, fuel - 1, ls, inner, true, depth, st, Exec(w, m.fuel, inner, true, depth + |ls|, m.st));
  }

  // ---------------------------------------------------------------------------
  // Case.

  /** The first clause with a matching pattern runs, and goes on into the next one exactly when
      it is marked so; a clause that does not match is passed over. */
  lemma {:induction false} CaseRuns(w: World, fuel: nat, word: string, c: Clauses, tested: bool, depth: nat, st: Store)
    requires c.Clause? && !c.body.Nothing?
    ensures Exec(w, fuel, Case(word, c), tested, depth, st) ==
              if !AnyMatches(w, word, c.patterns, st.trace) then Exec(w, fuel, Case(word, c.next), tested, depth, st)
              else if c.falls then Exec(w, fuel, Semi(c.body, At(c.next)), tested, depth, st)
              else Exec(w, fuel, c.body, tested, depth, st)
  {
    hide Exec, RunClauses;
    CaseStep(w, fuel, word, c, tested, depth, st);
    CaseStep(w, fuel, word, c.next, tested, depth, st);
    if AnyMatches(w, word, c.patterns, st.trace) {
      AtStep(w, fuel, c, tested, depth, st);
      ClausesStep(w, fuel, c, tested, depth, st);
      SkipInSemi(w, fuel, c.body, At(c.next), tested, depth, st);
      AtStep(w, fuel, c.next, tested, depth, Exec(w, fuel, c.body, tested, depth, st).st);
    }
  }

  /** A case without a match, and a matching clause with nothing to run, end with status 0. */
  lemma {:induction false} CaseRunsNothing(w: World, fuel: nat, word: string, c: Clauses, tested: bool, depth: nat, st: Store)
    requires c.NoClause? || (AnyMatches(w, word, c.patterns, st.trace) && c.body.Nothing? && !c.falls)
    ensures Exec(w, fuel, Case(word, c), tested, depth, st) == Result(Normal, SetStatus(st, 0))
  {
    hide Exec, RunClauses;
    CaseStep(w, fuel, word, c, tested, depth, st);
  }

  lemma {:induction false} CaseStep(w: World, fuel: nat, word: string, c: Clauses, tested: bool, depth: nat, st: Store)
    ensures var s := Selected(w, word, c, st.trace);
            Exec(w, fuel, Case(word, c), tested, depth, st) ==
              if HasBody(s) then RunClauses(w, fuel, s, tested, depth, st) else Result(Normal, SetStatus(st, 0))
  {
    hide RunClauses, Selected, HasBody;
  }

  lemma {:induction false} AtStep(w: World, fuel: nat, c: Clauses, tested: bool, depth: nat, st: Store)
    ensures Exec(w, fuel, At(c), tested, depth, st) == RunClauses(w, fuel, c, tested, depth, st)
    ensures c.NoClause? ==> RunClauses(w, fuel, c, tested, depth, st) == Result(Normal, st)
  {
  }

  // ---------------------------------------------------------------------------
  // External commands decide.

  /** Commands that are no functions, in a shell that is not interactive. */
  predicate External(w: World, st: Store, names: seq<string>) {
    !w.iflag && forall i :: 0 <= i < |names| ==> names[i] !in st.funcs
  }

  /** The store after running a command. */
  function After(w: World, name: string, st: Store): Store {
    Store(w.command(name, st.trace).status, st.funcs, st.trace + [Ran(name)])
  }

  /** Which of the commands p, q and r run, in which order, and which one's status is the
      status of the whole. */
  lemma {:induction false} CommandsDecide(w: World, fuel: nat, p: string, q: string, r: string, depth: nat, st: Store)
    requires External(w, st, [p, q, r])
    ensures var a := After(w, p, st);
            var ok := w.command(p, st.trace).status == 0;
            && Exec(w, fuel, Semi(Simple(p), Simple(q)), true, depth, st) == Result(Normal, After(w, q, a))
            && Exec(w, fuel, And(Simple(p), Simple(q)), true, depth, st) == Result(Normal, if ok then After(w, q, a) else a)
            && Exec(w, fuel, Or(Simple(p), Simple(q)), true, depth, st) == Result(Normal, if ok then a else After(w, q, a))
            && Exec(w, fuel, Not(Simple(p)), true, depth, st) == Result(Normal, SetStatus(a, if ok then 1 else 0))
            && Exec(w, fuel, If(Simple(p), Simple(q), Simple(r)), true, depth, st) ==
                 Result(Normal, After(w, if ok then q else r, a))
            && Exec(w, fuel, If(Simple(p), Simple(q), Nothing), true, depth, st) ==
                 Result(Normal, if ok then After(w, q, a) else SetStatus(a, 0))
  {
    var a := After(w, p, st);
    assert [p, q, r][0] == p && [p, q, r][1] == q && [p, q, r][2] == r;
    CommandRuns(w, fuel, p, depth, st);
    CommandRuns(w, fuel, q, depth, a);
    CommandRuns(w, fuel, r, depth, a);
  }

  lemma {:induction false} CommandRuns(w: World, fuel: nat, p: string, depth: nat, st: Store)
    requires !w.iflag && p !in st.funcs
    ensures Exec(w, fuel, Simple(p), true, depth, st) == Result(Normal, After(w, p, st))
  {
  }

  /** A while loop runs its body as long as its test succeeds, an until loop as long as its
      test fails; a body that never ran leaves status 0. */
  lemma {:induction false} TestsDecide(w: World, fuel: nat, until: bool, p: string, q: string, depth: nat, st: Store)
    requires External(w, st, [p, q]) && fuel > 0
    ensures var n := While(until, Simple(p), Simple(q));
            var a := After(w, p, st);
            var b := After(w, q, a);
            Exec(w, fuel, n, true, depth, st) ==
              if (w.command(p, st.trace).status == 0) == until then Result(Normal, SetStatus(a, 0))
              else Loop(w, fuel - 1, n, true, depth + 1, b, b.status)
  {
    hide Exec, Loop, Resume;
    var n := While(until, Simple(p), Simple(q));
    var a := After(w, p, st);
    var b := After(w, q, a);
    assert [p, q][0] == p && [p, q][1] == q;
    CommandRuns(w, fuel - 1, p, depth + 1, st);
    CommandRuns(w, fuel - 1, q, depth + 1, a);
    LoopEntry(w, fuel, n, true, depth, st);
    LoopStep(w, fuel, n, true, depth + 1, st, 0);
    ResumeStep(w, fuel - 1, n, true, depth + 1, Result(Normal, b), b.status);
  }

  /** The events of running `q` once for every word. */
  function Rounds(ws: seq<string>, q: string): Trace {
    if ws == [] then [] else [Bound(ws[0]), Ran(q)] + Rounds(ws[1..], q)
  }

  /** A for loop runs its body for every word of its list, in order. */
  lemma {:induction false} WordsDecide(w: World, fuel: nat, words: string, q: string, depth: nat, st: Store)
    requires External(w, st, [q])
    ensures var r := Exec(w, fuel, For(words, Simple(q)), true, depth, st);
            r.out == Normal && r.st.trace == st.trace + Rounds(w.expand(words, st.trace), q)
  {
    hide Exec;
    assert [q][0] == q;
    LoopEntry(w, fuel, For(words, Simple(q)), true, depth, st);
    RoundsRun(w, fuel, words, q, w.expand(words, st.trace), depth + 1, st, 0);
  }

  lemma {:induction false} RoundsRun(w: World, fuel: nat, words: string, q: string, ws: seq<string>, depth: nat, st: Store, status: int)
    requires !w.iflag && q !in st.funcs
    ensures var r := ForEach(w, fuel, For(words, Simple(q)), ws, true, depth, st, status);
            r.out == Normal && r.st.trace == st.trace + Rounds(ws, q)
    decreases |ws|
  {
    hide Exec, ForEach;
    var n := For(words, Simple(q));
    if ws == [] {
      ForEnd(w, fuel, n, true, depth, st, status);
    } else {
      var bound := st.(trace := st.trace + [Bound(ws[0])]);
      var a := After(w, q, bound);
      CommandRuns(w, fuel, q, depth, bound);
      ForStep(w, fuel, n, ws, true, depth, st, status);
      RoundsRun(w, fuel, words, q, ws[1..], depth, a, a.status);
      assert a.trace == st.trace + [Bound(ws[0]), Ran(q)];
    }
  }

  /** A function that has just been defined is what its name runs; its return ends the call. */
  lemma {:induction false} DefinitionRuns(w: World, fuel: nat, f: string, body: Tree, depth: nat, st: Store)
    requires fuel > 0
    ensures var defined := Store(0, st.funcs[f := body], st.trace);
            var r := Exec(w, fuel - 1, body, true, depth, defined);
            Exec(w, fuel, Semi(Defun(f, body), Simple(f)), true, depth, st) ==
              if r.out == Returning then Result(Normal, r.st) else r
  {
    var defined := Store(0, st.funcs[f := body], st.trace);
    SkipInSemi(w, fuel, Defun(f, body), Simple(f), true, depth, st);
    CallStep(w, fuel, f, depth, defined);
  }

  lemma {:induction false} CallStep(w: World, fuel: nat, f: string, depth: nat, st: Store)
    requires fuel > 0 && f in st.funcs
    ensures var r := Exec(w, fuel - 1, st.funcs[f], true, depth, st);
            Exec(w, fuel, Simple(f), true, depth, st) == if r.out == Returning then Result(Normal, r.st) else r
  {
  }

  /** With -e a command that fails ends the shell, and what follows does not run, unless its
      status is tested: as the left operand of && or ||, after !, or as a condition. */
  lemma {:induction false} FailureExits(w: World, fuel: nat, p: string, q: string, depth: nat, st: Store)
    requires External(w, st, [p, q]) && w.eflag && w.command(p, st.trace).status != 0
    ensures var a := After(w, p, st);
            && Exec(w, fuel, Semi(Simple(p), Simple(q)), false, depth, st) == Result(ErrExit, a)
            && Exec(w, fuel, And(Simple(p), Simple(q)), false, depth, st) == Result(Normal, a)
            && Exec(w, fuel, Or(Simple(p), Simple(q)), false, depth, st) == Exec(w, fuel, Simple(q), false, depth, a)
            && Exec(w, fuel, Not(Simple(p)), false, depth, st) == Result(Normal, SetStatus(a, 0))
            && Exec(w, fuel, If(Simple(p), Simple(q), Nothing), false, depth, st) == Result(Normal, SetStatus(a, 0))
  {
    assert [p, q][0] == p;
    CommandRuns(w, fuel, p, depth, st);
    UntestedFails(w, fuel, p, depth, st);
    SkipInSemi(w, fuel, Simple(p), Simple(q), false, depth, st);
    LogicStep(w, fuel, Simple(p), Simple(q), false, depth, st);
    NothingStep(w, fuel, false, depth, After(w, p, st));
  }

  lemma {:induction false} UntestedFails(w: World, fuel: nat, p: string, depth: nat, st: Store)
    requires !w.iflag && p !in st.funcs && w.eflag && w.command(p, st.trace).status != 0
    ensures Exec(w, fuel, Simple(p), false, depth, st) == Result(ErrExit, After(w, p, st))
  {
  }

  /** In an interactive shell a command that a signal ends, in the middle of loops, ends them
      all. */
  lemma {:induction false} SignalEndsLoops(w: World, fuel: nat, ls: seq<Level>, p: string, st: Store)
    requires ls != [] && Arrive(w, fuel, ls, 0, st).Some?
    requires var m := Arrive(w, fuel, ls, 0, st).value;
             w.iflag && p !in m.st.funcs && w.command(p, m.st.trace).signaled
    ensures var m := Arrive(w, fuel, ls, 0, st).value;
            Exec(w, fuel, Nest(ls, Simple(p)), true, 0, st) == Result(Normal, After(w, p, m.st))
  {
    hide Arrive, Nest;
    var m := Arrive(w, fuel, ls, 0, st).value;
    BreakLeaves(w, fuel, ls, Simple(p), true, 0, st, Exec(w, m.fuel, Simple(p), true, |ls|, m.st));
  }
}
