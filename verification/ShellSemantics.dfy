/** What a shell command tree means: a structured semantics in which break, continue,
    return and the exit of the -e option are outcomes, with no global skip flags.

    Everything outside the evaluator (external commands, child processes, word expansion,
    pattern matching) is an oracle that sees the history so far.  `fuel` bounds loop
    iterations and nested calls; `FuelIrrelevant` shows that it only separates runs that
    finish from runs that have not finished yet.
 */
module ShellSemantics {
  import opened Basics
  import opened ShellNumbers

  /** Parse trees. `Nothing` is the null tree; `At` is a case clause met as a node. */
  datatype Tree =
    | Nothing
    | Semi(l: Tree, r: Tree)
    | And(l: Tree, r: Tree)
    | Or(l: Tree, r: Tree)
    | Not(t: Tree)
    | If(test: Tree, l: Tree, r: Tree)
    | While(until: bool, test: Tree, body: Tree)
    | For(words: string, body: Tree)
    | Case(word: string, clauses: Clauses)
    | At(clauses: Clauses)
    | Defun(name: string, body: Tree)
    | Pipe(job: string)
    | Subshell(job: string)
    | Background(job: string)
    | Simple(name: string)
    | Break(arg: Option<string>)
    | Continue(arg: Option<string>)
    | Return(arg: Option<string>)

  /** `falls` marks a clause that goes on into the next one. */
  datatype Clauses = NoClause | Clause(patterns: seq<string>, body: Tree, falls: bool, next: Clauses)

  function Size(n: Tree): (k: nat)
    ensures k > 0
  {
    match n
    case Semi(l, r) => 1 + Size(l) + Size(r)
    case And(l, r) => 1 + Size(l) + Size(r)
    case Or(l, r) => 1 + Size(l) + Size(r)
    case Not(t) => 1 + Size(t)
    case If(c, l, r) => 1 + Size(c) + Size(l) + Size(r)
    case While(_, c, b) => 1 + Size(c) + Size(b)
    case For(_, b) => 1 + Size(b)
    case Case(_, cs) => 2 + ClausesSize(cs)
    case At(cs) => 1 + ClausesSize(cs)
    case Defun(_, b) => 1 + Size(b)
    case _ => 1
  }

  function ClausesSize(c: Clauses): nat {
    match c
    case NoClause => 0
    case Clause(_, body, _, next) => 1 + Size(body) + ClausesSize(next)
  }

  datatype Event = Ran(name: string) | Started(job: string) | Bound(word: string)

  type Trace = seq<Event>

  datatype Reply = Reply(status: int, signaled: bool)

  /** Options and oracles. */
  datatype World = World(
    eflag: bool,
    iflag: bool,
    command: (string, Trace) -> Reply,
    child: (string, Trace) -> int,
    expand: (string, Trace) -> seq<string>,
    matches: (string, string, Trace) -> bool)

  datatype Store = Store(status: int, funcs: map<string, Tree>, trace: Trace)

  datatype Outcome =
    | Normal
    | Breaking(n: int)
    | Continuing(n: int)
    | Returning
    | ErrExit
    | Aborted
    | OutOfFuel

  datatype Result = Result(out: Outcome, st: Store)

  predicate Final(o: Outcome) {
    o.ErrExit? || o.Aborted? || o.OutOfFuel?
  }

  /** The -e option looks at a command that has just finished, unless its status is being
      tested. */
  function Check(w: World, tested: bool, r: Result): Result {
    if w.eflag && !tested && r.st.status != 0 && !Final(r.out) then r.(out := ErrExit) else r
  }

  function SetStatus(st: Store, status: int): Store {
    st.(status := status)
  }

  // ---------------------------------------------------------------------------
  // Errors.

  /** An illegal argument of a special builtin raises an error that abandons the whole
      tree. */
  function IllegalNumber(st: Store): Result {
    Result(Aborted, SetStatus(st, 2))
  }

  // ---------------------------------------------------------------------------
  // Case selection.

  predicate AnyMatches(w: World, word: string, patterns: seq<string>, tr: Trace) {
    exists i :: 0 <= i < |patterns| && w.matches(word, patterns[i], tr)
  }

  /** The clauses from the first matching one on. */
  function Selected(w: World, word: string, c: Clauses, tr: Trace): (s: Clauses)
    ensures ClausesSize(s) <= ClausesSize(c)
  {
    if c.NoClause? || AnyMatches(w, word, c.patterns, tr) then c else Selected(w, word, c.next, tr)
  }

  /** Some clause that runs when `c` is selected has a body. */
  predicate HasBody(c: Clauses) {
    c.Clause? && (!c.body.Nothing? || (c.falls && HasBody(c.next)))
  }

  // ---------------------------------------------------------------------------

  /** Run `n`: `tested` says that its status is being tested, `depth` counts the enclosing
      loops, including those of the callers of the current function. */
  function Exec(w: World, fuel: nat, n: Tree, tested: bool, depth: nat, st: Store): Result
    decreases fuel, Size(n), 2
  {
    match n
    case Nothing => Result(Normal, SetStatus(st, 0))
    case Semi(l, r) =>
      var a := Exec(w, fuel, l, tested, depth, st);
      if a.out != Normal then a else Then(w, fuel, r, tested, depth, a.st)
    case And(l, r) =>
      var a := Exec(w, fuel, l, true, depth, st);
      if a.out != Normal || a.st.status != 0 then a else Then(w, fuel, r, tested, depth, a.st)
    case Or(l, r) =>
      var a := Exec(w, fuel, l, true, depth, st);
      if a.out != Normal || a.st.status == 0 then a else Then(w, fuel, r, tested, depth, a.st)
    case Not(t) =>
      var a := Exec(w, fuel, t, true, depth, st);
      if a.out != Normal then a
      else Result(Normal, SetStatus(a.st, if a.st.status == 0 then 1 else 0))
    case If(c, l, r) =>
      var a := Exec(w, fuel, c, true, depth, st);
      if a.out != Normal then a
      else if a.st.status == 0 then Then(w, fuel, l, tested, depth, a.st)
      else Exec(w, fuel, r, tested, depth, a.st)
    case While(_, _, _) => Loop(w, fuel, n, tested, depth + 1, st, 0)
    case For(words, _) => ForEach(w, fuel, n, w.expand(words, st.trace), tested, depth + 1, st, 0)
    case Case(word, cs) =>
      var c := Selected(w, word, cs, st.trace);
      if HasBody(c) then RunClauses(w, fuel, c, tested, depth, st) else Result(Normal, SetStatus(st, 0))
    case At(cs) => RunClauses(w, fuel, cs, tested, depth, st)
    case Defun(name, body) => Result(Normal, Store(0, st.funcs[name := body], st.trace))
    case Pipe(job) => Check(w, tested, Result(Normal, Store(w.child(job, st.trace), st.funcs, st.trace + [Started(job)])))
    case Subshell(job) => Check(w, tested, Result(Normal, Store(w.child(job, st.trace), st.funcs, st.trace + [Started(job)])))
    case Background(job) => Result(Normal, Store(0, st.funcs, st.trace + [Started(job)]))
    case _ => Check(w, tested, Command(w, fuel, n, tested, depth, st))
  }

  predicate IsCommand(n: Tree) {
    n.Simple? || n.Break? || n.Continue? || n.Return?
  }

  /** A simple command, before the -e option looks at it: a function call, an external
      command, or one of the builtins that steer the evaluator. */
  function Command(w: World, fuel: nat, n: Tree, tested: bool, depth: nat, st: Store): Result
    requires IsCommand(n)
    decreases fuel, Size(n), 1
  {
    match n
    case Simple(name) =>
      if name in st.funcs then
        if fuel == 0 then Result(OutOfFuel, st) else
        var a := Exec(w, fuel - 1, st.funcs[name], tested, depth, st);
        if a.out == Returning then Result(Normal, a.st) else a
      else
        var reply := w.command(name, st.trace);
        Result(if w.iflag && reply.signaled && depth > 0 then Breaking(depth) else Normal,
               Store(reply.status, st.funcs, st.trace + [Ran(name)]))
    case Break(arg) =>
      if LoopCount(arg).None? then IllegalNumber(st) else
      var k := Min(LoopCount(arg).value, depth);
      Result(if k > 0 then Breaking(k) else Normal, SetStatus(st, 0))
    case Continue(arg) =>
      if LoopCount(arg).None? then IllegalNumber(st) else
      var k := Min(LoopCount(arg).value, depth);
      Result(if k > 0 then Continuing(k) else Normal, SetStatus(st, 0))
    case Return(arg) =>
      if arg.None? then Result(Returning, st)
      else if !IsNumber(arg.value) then IllegalNumber(st)
      else Result(Returning, SetStatus(st, DecimalValue(arg.value)))
  }

  /** Run `n` in sequence; a missing tree leaves everything as it is. */
  function Then(w: World, fuel: nat, n: Tree, tested: bool, depth: nat, st: Store): Result
    decreases fuel, Size(n), 3
  {
    if n.Nothing? then Result(Normal, st) else Exec(w, fuel, n, tested, depth, st)
  }

  /** The rest of a while or until loop whose last body had status `status`. */
  function Loop(w: World, fuel: nat, n: Tree, tested: bool, depth: nat, st: Store, status: int): Result
    requires n.While?
    decreases fuel, Size(n), 1
  {
    if fuel == 0 then Result(OutOfFuel, st) else
    var a := Exec(w, fuel - 1, n.test, true, depth, st);
    if a.out != Normal then Resume(w, fuel - 1, n, tested, depth, a, status)
    else if (a.st.status == 0) == n.until then Result(Normal, SetStatus(a.st, status))
    else
      var b := Exec(w, fuel - 1, n.body, tested, depth, a.st);
      Resume(w, fuel - 1, n, tested, depth, b, b.st.status)
  }

  /** What a loop does after its test or body ended as `a`. */
  function Resume(w: World, fuel: nat, n: Tree, tested: bool, depth: nat, a: Result, status: int): Result
    requires n.While?
    decreases fuel, Size(n), 2
  {
    match a.out
    case Normal => Loop(w, fuel, n, tested, depth, a.st, status)
    case Continuing(k) =>
      if k <= 1 then Loop(w, fuel, n, tested, depth, a.st, status)
      else Result(Continuing(k - 1), SetStatus(a.st, status))
    case Breaking(k) => Result(if k <= 1 then Normal else Breaking(k - 1), SetStatus(a.st, status))
    case _ => a
  }

  /** The rest of a for loop over `words`. */
  function ForEach(w: World, fuel: nat, n: Tree, words: seq<string>, tested: bool, depth: nat, st: Store, status: int): Result
    requires n.For?
    decreases fuel, Size(n), 1, |words|
  {
    if words == [] then Result(Normal, SetStatus(st, status)) else
    var a := Exec(w, fuel, n.body, tested, depth, st.(trace := st.trace + [Bound(words[0])]));
    match a.out
    case Normal => ForEach(w, fuel, n, words[1..], tested, depth, a.st, a.st.status)
    case Continuing(k) =>
      if k <= 1 then ForEach(w, fuel, n, words[1..], tested, depth, a.st, a.st.status)
      else a.(out := Continuing(k - 1))
    case Breaking(k) => a.(out := if k <= 1 then Normal else Breaking(k - 1))
    case _ => a
  }

  /** The selected clause's body and those it falls through to; empty bodies do nothing. */
  function RunClauses(w: World, fuel: nat, c: Clauses, tested: bool, depth: nat, st: Store): Result
    decreases fuel, ClausesSize(c), 4
  {
    if c.NoClause? then Result(Normal, st) else
    var a := Then(w, fuel, c.body, tested, depth, st);
    if a.out != Normal || !c.falls then a else RunClauses(w, fuel, c.next, tested, depth, a.st)
  }

  /** The outcome of a loop that stops on the outcome `o` of its test or body; a continue or
      break meant for the loop itself is used up. */
  function AfterLoop(o: Outcome): Outcome {
    match o
    case Continuing(k) => if k <= 1 then Normal else Continuing(k - 1)
    case Breaking(k) => if k <= 1 then Normal else Breaking(k - 1)
    case _ => o
  }

  // One unfolding of each recursive rule, for proofs that hide the rest.

  lemma {:induction false} ResumeStep(w: World, fuel: nat, n: Tree, tested: bool, depth: nat, a: Result, status: int)
    requires n.While?
    ensures Resume(w, fuel, n, tested, depth, a, status) ==
              if a.out == Normal || (a.out.Continuing? && a.out.n <= 1)
              then Loop(w, fuel, n, tested, depth, a.st, status)
              else if a.out.Continuing? || a.out.Breaking? then Result(AfterLoop(a.out), SetStatus(a.st, status))
              else a
  {
  }

  lemma {:induction false} LoopEnd(w: World, n: Tree, tested: bool, depth: nat, st: Store, status: int)
    requires n.While?
    ensures Loop(w, 0, n, tested, depth, st, status) == Result(OutOfFuel, st)
  {
  }

  lemma {:induction false} ForStep(w: World, fuel: nat, n: Tree, words: seq<string>, tested: bool, depth: nat, st: Store, status: int)
    requires n.For? && words != []
    ensures var a := Exec(w, fuel, n.body, tested, depth, st.(trace := st.trace + [Bound(words[0])]));
            ForEach(w, fuel, n, words, tested, depth, st, status) ==
              if a.out == Normal || (a.out.Continuing? && a.out.n <= 1)
              then ForEach(w, fuel, n, words[1..], tested, depth, a.st, a.st.status)
              else a.(out := AfterLoop(a.out))
  {
  }

  lemma {:induction false} ForEnd(w: World, fuel: nat, n: Tree, tested: bool, depth: nat, st: Store, status: int)
    requires n.For?
    ensures ForEach(w, fuel, n, [], tested, depth, st, status) == Result(Normal, SetStatus(st, status))
  {
  }

  lemma {:induction false} LoopStep(w: World, fuel: nat, n: Tree, tested: bool, depth: nat, st: Store, status: int)
    requires n.While? && fuel > 0
    ensures var a := Exec(w, fuel - 1, n.test, true, depth, st);
            var b := Exec(w, fuel - 1, n.body, tested, depth, a.st);
            Loop(w, fuel, n, tested, depth, st, status) ==
              if a.out != Normal then Resume(w, fuel - 1, n, tested, depth, a, status)
              else if (a.st.status == 0) == n.until then Result(Normal, SetStatus(a.st, status))
              else Resume(w, fuel - 1, n, tested, depth, b, b.st.status)
  {
  }

  lemma {:induction false} NothingStep(w: World, fuel: nat, tested: bool, depth: nat, st: Store)
    ensures Exec(w, fuel, Nothing, tested, depth, st) == Result(Normal, SetStatus(st, 0))
  {
  }

  lemma {:induction false} ClausesStep(w: World, fuel: nat, c: Clauses, tested: bool, depth: nat, st: Store)
    requires c.Clause?
    ensures var a := if c.body.Nothing? then Result(Normal, st) else Exec(w, fuel, c.body, tested, depth, st);
            Exec(w, fuel, At(c), tested, depth, st) ==
              if a.out != Normal || !c.falls then a
              else if c.next.NoClause? then Result(Normal, a.st)
              else Exec(w, fuel, At(c.next), tested, depth, a.st)
  {
    var a := Then(w, fuel, c.body, tested, depth, st);
    assert Exec(w, fuel, At(c.next), tested, depth, a.st) == RunClauses(w, fuel, c.next, tested, depth, a.st);
  }

  // ---------------------------------------------------------------------------
  // Properties of the semantics.

  /** A break or continue in flight never asks for more loops than enclose it. */
  ghost predicate InRange(o: Outcome, depth: nat) {
    && (o.Breaking? ==> 1 <= o.n <= depth)
    && (o.Continuing? ==> 1 <= o.n <= depth)
  }

  lemma {:induction false} SkipsInRange(w: World, fuel: nat, n: Tree, tested: bool, depth: nat, st: Store)
    ensures InRange(Exec(w, fuel, n, tested, depth, st).out, depth)
    decreases fuel, Size(n), 2
  {
    match n
    case Semi(l, r) =>
      SkipsInRange(w, fuel, l, tested, depth, st);
      SkipsInRange(w, fuel, r, tested, depth, Exec(w, fuel, l, tested, depth, st).st);
    case And(l, r) =>
      SkipsInRange(w, fuel, l, true, depth, st);
      SkipsInRange(w, fuel, r, tested, depth, Exec(w, fuel, l, true, depth, st).st);
    case Or(l, r) =>
      SkipsInRange(w, fuel, l, true, depth, st);
      SkipsInRange(w, fuel, r, tested, depth, Exec(w, fuel, l, true, depth, st).st);
    case Not(t) => SkipsInRange(w, fuel, t, true, depth, st);
    case If(c, l, r) =>
      var a := Exec(w, fuel, c, true, depth, st);
      SkipsInRange(w, fuel, c, true, depth, st);
      SkipsInRange(w, fuel, l, tested, depth, a.st);
      SkipsInRange(w, fuel, r, tested, depth, a.st);
    case While(_, _, _) => LoopInRange(w, fuel, n, tested, depth + 1, st, 0);
    case For(words, _) => ForInRange(w, fuel, n, w.expand(words, st.trace), tested, depth + 1, st, 0);
    case Case(word, cs) => ClausesInRange(w, fuel, Selected(w, word, cs, st.trace), tested, depth, st);
    case At(cs) => ClausesInRange(w, fuel, cs, tested, depth, st);
    case Simple(name) =>
      if name in st.funcs && fuel > 0 {
        SkipsInRange(w, fuel - 1, st.funcs[name], tested, depth, st);
      }
    case _ =>
  }

  lemma {:induction false} LoopInRange(w: World, fuel: nat, n: Tree, tested: bool, depth: nat, st: Store, status: int)
    requires n.While? && depth > 0
    ensures InRange(Loop(w, fuel, n, tested, depth, st, status).out, depth - 1)
    decreases fuel, Size(n), 1
  {
    if fuel > 0 {
      var a := Exec(w, fuel - 1, n.test, true, depth, st);
      SkipsInRange(w, fuel - 1, n.test, true, depth, st);
      LoopInRange(w, fuel - 1, n, tested, depth, a.st, status);
      var b := Exec(w, fuel - 1, n.body, tested, depth, a.st);
      SkipsInRange(w, fuel - 1, n.body, tested, depth, a.st);
      LoopInRange(w, fuel - 1, n, tested, depth, b.st, b.st.status);
    }
  }

  lemma {:induction false} ForInRange(w: World, fuel: nat, n: Tree, words: seq<string>, tested: bool, depth: nat, st: Store, status: int)
    requires n.For? && depth > 0
    ensures InRange(ForEach(w, fuel, n, words, tested, depth, st, status).out, depth - 1)
    decreases fuel, Size(n), 1, |words|
  {
    if words != [] {
      var st1 := st.(trace := st.trace + [Bound(words[0])]);
      SkipsInRange(w, fuel, n.body, tested, depth, st1);
      var a := Exec(w, fuel, n.body, tested, depth, st1);
      ForInRange(w, fuel, n, words[1..], tested, depth, a.st, a.st.status);
    }
  }

  lemma {:induction false} ClausesInRange(w: World, fuel: nat, c: Clauses, tested: bool, depth: nat, st: Store)
    ensures InRange(RunClauses(w, fuel, c, tested, depth, st).out, depth)
    decreases fuel, ClausesSize(c), 4
  {
    if c.Clause? {
      SkipsInRange(w, fuel, c.body, tested, depth, st);
      ClausesInRange(w, fuel, c.next, tested, depth, Then(w, fuel, c.body, tested, depth, st).st);
    }
  }

  /** A tree whose status is tested never takes the exit of the -e option, at any depth of
      nesting and through any chain of function calls. */
  lemma {:induction false} TestedNeverExits(w: World, fuel: nat, n: Tree, depth: nat, st: Store)
    ensures Exec(w, fuel, n, true, depth, st).out != ErrExit
    decreases fuel, Size(n), 2
  {
    match n
    case Semi(l, r) =>
      TestedNeverExits(w, fuel, l, depth, st);
      TestedNeverExits(w, fuel, r, depth, Exec(w, fuel, l, true, depth, st).st);
    case And(l, r) =>
      TestedNeverExits(w, fuel, l, depth, st);
      TestedNeverExits(w, fuel, r, depth, Exec(w, fuel, l, true, depth, st).st);
    case Or(l, r) =>
      TestedNeverExits(w, fuel, l, depth, st);
      TestedNeverExits(w, fuel, r, depth, Exec(w, fuel, l, true, depth, st).st);
    case Not(t) => TestedNeverExits(w, fuel, t, depth, st);
    case If(c, l, r) =>
      var a := Exec(w, fuel, c, true, depth, st);
      TestedNeverExits(w, fuel, c, depth, st);
      TestedNeverExits(w, fuel, l, depth, a.st);
      TestedNeverExits(w, fuel, r, depth, a.st);
    case While(_, _, _) => TestedLoop(w, fuel, n, depth + 1, st, 0);
    case For(words, _) => TestedFor(w, fuel, n, w.expand(words, st.trace), depth + 1, st, 0);
    case Case(word, cs) => TestedClauses(w, fuel, Selected(w, word, cs, st.trace), depth, st);
    case At(cs) => TestedClauses(w, fuel, cs, depth, st);
    case Simple(name) =>
      if name in st.funcs && fuel > 0 {
        TestedNeverExits(w, fuel - 1, st.funcs[name], depth, st);
      }
    case _ =>
  }

  lemma {:induction false} TestedLoop(w: World, fuel: nat, n: Tree, depth: nat, st: Store, status: int)
    requires n.While?
    ensures Loop(w, fuel, n, true, depth, st, status).out != ErrExit
    decreases fuel, Size(n), 1
  {
    if fuel > 0 {
      var a := Exec(w, fuel - 1, n.test, true, depth, st);
      TestedNeverExits(w, fuel - 1, n.test, depth, st);
      TestedLoop(w, fuel - 1, n, depth, a.st, status);
      var b := Exec(w, fuel - 1, n.body, true, depth, a.st);
      TestedNeverExits(w, fuel - 1, n.body, depth, a.st);
      TestedLoop(w, fuel - 1, n, depth, b.st, b.st.status);
    }
  }

  lemma {:induction false} TestedFor(w: World, fuel: nat, n: Tree, words: seq<string>, depth: nat, st: Store, status: int)
    requires n.For?
    ensures ForEach(w, fuel, n, words, true, depth, st, status).out != ErrExit
    decreases fuel, Size(n), 1, |words|
  {
    if words != [] {
      var st1 := st.(trace := st.trace + [Bound(words[0])]);
      TestedNeverExits(w, fuel, n.body, depth, st1);
      var a := Exec(w, fuel, n.body, true, depth, st1);
      TestedFor(w, fuel, n, words[1..], depth, a.st, a.st.status);
    }
  }

  lemma {:induction false} TestedClauses(w: World, fuel: nat, c: Clauses, depth: nat, st: Store)
    ensures RunClauses(w, fuel, c, true, depth, st).out != ErrExit
    decreases fuel, ClausesSize(c), 4
  {
    if c.Clause? {
      TestedNeverExits(w, fuel, c.body, depth, st);
      TestedClauses(w, fuel, c.next, depth, Then(w, fuel, c.body, true, depth, st).st);
    }
  }

  /** Fuel does not matter to a run that finishes: more of it gives the same result. */
  lemma {:induction false} FuelIrrelevant(w: World, f: nat, g: nat, n: Tree, tested: bool, depth: nat, st: Store)
    requires f <= g
    requires Exec(w, f, n, tested, depth, st).out != OutOfFuel
    ensures Exec(w, g, n, tested, depth, st) == Exec(w, f, n, tested, depth, st)
    decreases f, Size(n), 2
  {
    match n
    case Semi(l, r) =>
      FuelIrrelevant(w, f, g, l, tested, depth, st);
      FuelThen(w, f, g, r, tested, depth, Exec(w, f, l, tested, depth, st), st);
    case And(l, r) =>
      FuelIrrelevant(w, f, g, l, true, depth, st);
      var a := Exec(w, f, l, true, depth, st);
      if a.out == Normal && a.st.status == 0 && !r.Nothing? {
        FuelIrrelevant(w, f, g, r, tested, depth, a.st);
      }
    case Or(l, r) =>
      FuelIrrelevant(w, f, g, l, true, depth, st);
      var a := Exec(w, f, l, true, depth, st);
      if a.out == Normal && a.st.status != 0 && !r.Nothing? {
        FuelIrrelevant(w, f, g, r, tested, depth, a.st);
      }
    case Not(t) => FuelIrrelevant(w, f, g, t, true, depth, st);
    case If(c, l, r) =>
      FuelIrrelevant(w, f, g, c, true, depth, st);
      var a := Exec(w, f, c, true, depth, st);
      if a.out == Normal && a.st.status != 0 {
        FuelIrrelevant(w, f, g, r, tested, depth, a.st);
      } else if a.out == Normal && !l.Nothing? {
        FuelIrrelevant(w, f, g, l, tested, depth, a.st);
      }
    case While(_, _, _) => FuelLoop(w, f, g, n, tested, depth + 1, st, 0);
    case For(words, _) => FuelFor(w, f, g, n, w.expand(words, st.trace), tested, depth + 1, st, 0);
    case Case(word, cs) =>
      var c := Selected(w, word, cs, st.trace);
      if HasBody(c) {
        FuelClauses(w, f, g, c, tested, depth, st);
      }
    case At(cs) => FuelClauses(w, f, g, cs, tested, depth, st);
    case Simple(name) =>
      if name in st.funcs {
        FuelIrrelevant(w, f - 1, g - 1, st.funcs[name], tested, depth, st);
      }
    case _ =>
  }

  lemma {:induction false} FuelThen(w: World, f: nat, g: nat, n: Tree, tested: bool, depth: nat, a: Result, st: Store)
    requires f <= g
    requires a.out == Normal ==> Then(w, f, n, tested, depth, a.st).out != OutOfFuel
    ensures a.out == Normal ==> Then(w, g, n, tested, depth, a.st) == Then(w, f, n, tested, depth, a.st)
    decreases f, Size(n), 3
  {
    if a.out == Normal && !n.Nothing? {
      FuelIrrelevant(w, f, g, n, tested, depth, a.st);
    }
  }

  lemma {:induction false} FuelLoop(w: World, f: nat, g: nat, n: Tree, tested: bool, depth: nat, st: Store, status: int)
    requires f <= g && n.While?
    requires Loop(w, f, n, tested, depth, st, status).out != OutOfFuel
    ensures Loop(w, g, n, tested, depth, st, status) == Loop(w, f, n, tested, depth, st, status)
    decreases f, Size(n), 1
  {
    FuelIrrelevant(w, f - 1, g - 1, n.test, true, depth, st);
    var a := Exec(w, f - 1, n.test, true, depth, st);
    if a.out != Normal {
      FuelResume(w, f - 1, g - 1, n, tested, depth, a, status);
    } else if (a.st.status == 0) != n.until {
      FuelIrrelevant(w, f - 1, g - 1, n.body, tested, depth, a.st);
      var b := Exec(w, f - 1, n.body, tested, depth, a.st);
      FuelResume(w, f - 1, g - 1, n, tested, depth, b, b.st.status);
    }
  }

  lemma {:induction false} FuelResume(w: World, f: nat, g: nat, n: Tree, tested: bool, depth: nat, a: Result, status: int)
    requires f <= g && n.While?
    requires Resume(w, f, n, tested, depth, a, status).out != OutOfFuel
    ensures Resume(w, g, n, tested, depth, a, status) == Resume(w, f, n, tested, depth, a, status)
    decreases f, Size(n), 2
  {
    if a.out.Normal? || (a.out.Continuing? && a.out.n <= 1) {
      FuelLoop(w, f, g, n, tested, depth, a.st, status);
    }
  }

  lemma {:induction false} FuelFor(w: World, f: nat, g: nat, n: Tree, words: seq<string>, tested: bool, depth: nat, st: Store, status: int)
    requires f <= g && n.For?
    requires ForEach(w, f, n, words, tested, depth, st, status).out != OutOfFuel
    ensures ForEach(w, g, n, words, tested, depth, st, status) == ForEach(w, f, n, words, tested, depth, st, status)
    decreases f, Size(n), 1, |words|
  {
    if words != [] {
      var st1 := st.(trace := st.trace + [Bound(words[0])]);
      FuelIrrelevant(w, f, g, n.body, tested, depth, st1);
      var a := Exec(w, f, n.body, tested, depth, st1);
      if a.out.Normal? || (a.out.Continuing? && a.out.n <= 1) {
        FuelFor(w, f, g, n, words[1..], tested, depth, a.st, a.st.status);
      }
    }
  }

  lemma {:induction false} FuelClauses(w: World, f: nat, g: nat, c: Clauses, tested: bool, depth: nat, st: Store)
    requires f <= g
    requires RunClauses(w, f, c, tested, depth, st).out != OutOfFuel
    ensures RunClauses(w, g, c, tested, depth, st) == RunClauses(w, f, c, tested, depth, st)
    decreases f, ClausesSize(c), 4
  {
    if c.Clause? {
      if !c.body.Nothing? {
        FuelIrrelevant(w, f, g, c.body, tested, depth, st);
      }
      var a := Then(w, f, c.body, tested, depth, st);
      if a.out == Normal && c.falls {
        FuelClauses(w, f, g, c.next, tested, depth, a.st);
      }
    }
  }

  // ---------------------------------------------------------------------------
  // Where the exit of the -e option comes from.

  /** A tree about to run with its status untested, and the state it starts from. */
  datatype Site = Site(fuel: nat, n: Tree, depth: nat, st: Store)

  /** Running `a` comes to run `s`, through untested positions only: both parts of a sequence,
      the right side of an and-or list, the chosen branch of an if, the bodies of loops, the
      selected clauses of a case and the bodies of functions, each in the state in which the
      run gets there.  Tests, left sides of and-or lists and negations are not entered. */
  ghost predicate Reaches(w: World, a: Site, s: Site)
    decreases a.fuel, Size(a.n), 2
  {
    a == s ||
    match a.n
    case Semi(l, r) =>
      var x := Exec(w, a.fuel, l, false, a.depth, a.st);
      Reaches(w, a.(n := l), s) || (x.out == Normal && Reaches(w, a.(n := r, st := x.st), s))
    case And(l, r) =>
      var x := Exec(w, a.fuel, l, true, a.depth, a.st);
      x.out == Normal && x.st.status == 0 && Reaches(w, a.(n := r, st := x.st), s)
    case Or(l, r) =>
      var x := Exec(w, a.fuel, l, true, a.depth, a.st);
      x.out == Normal && x.st.status != 0 && Reaches(w, a.(n := r, st := x.st), s)
    case If(c, l, r) =>
      var x := Exec(w, a.fuel, c, true, a.depth, a.st);
      x.out == Normal && Reaches(w, a.(n := if x.st.status == 0 then l else r, st := x.st), s)
    case While(_, _, _) => LoopReaches(w, a.(depth := a.depth + 1), s)
    case For(words, _) => ForReaches(w, a.(depth := a.depth + 1), w.expand(words, a.st.trace), s)
    case Case(word, cs) => ClausesReach(w, a, Selected(w, word, cs, a.st.trace), s)
    case At(cs) => ClausesReach(w, a, cs, s)
    case Simple(name) =>
      name in a.st.funcs && a.fuel > 0 && Reaches(w, a.(fuel := a.fuel - 1, n := a.st.funcs[name]), s)
    case _ => false
  }

  ghost predicate LoopReaches(w: World, a: Site, s: Site)
    requires a.n.While?
    decreases a.fuel, Size(a.n), 1
  {
    a.fuel > 0 &&
    var next := a.(fuel := a.fuel - 1);
    var x := Exec(w, next.fuel, a.n.test, true, a.depth, a.st);
    if x.out != Normal then GoesOn(x.out) && LoopReaches(w, next.(st := x.st), s)
    else
      var y := Exec(w, next.fuel, a.n.body, false, a.depth, x.st);
      (x.st.status == 0) != a.n.until &&
      (Reaches(w, next.(n := a.n.body, st := x.st), s) || (GoesOn(y.out) && LoopReaches(w, next.(st := y.st), s)))
  }

  ghost predicate ForReaches(w: World, a: Site, words: seq<string>, s: Site)
    requires a.n.For?
    decreases a.fuel, Size(a.n), 1, |words|
  {
    words != [] &&
    var b := a.(n := a.n.body, st := a.st.(trace := a.st.trace + [Bound(words[0])]));
    var x := Exec(w, b.fuel, b.n, false, b.depth, b.st);
    Reaches(w, b, s) || (GoesOn(x.out) && ForReaches(w, a.(st := x.st), words[1..], s))
  }

  ghost predicate ClausesReach(w: World, a: Site, c: Clauses, s: Site)
    decreases a.fuel, ClausesSize(c), 4
  {
    c.Clause? &&
    var x := Then(w, a.fuel, c.body, false, a.depth, a.st);
    Reaches(w, a.(n := c.body), s) ||
    (x.out == Normal && c.falls && ClausesReach(w, a.(st := x.st), c.next, s))
  }

  /** A loop whose body or test ended like this has another turn. */
  predicate GoesOn(o: Outcome) {
    o == Normal || (o.Continuing? && o.n <= 1)
  }

  /** The command of `s` finishes with a non-zero status and this ends the shell, with
      result `r`: it is a pipeline, a subshell, a return, an external command, or a function
      call whose body has not already ended the shell. */
  ghost predicate EndsShell(w: World, s: Site, r: Result) {
    && w.eflag && r.out == ErrExit && r.st.status != 0
    && Exec(w, s.fuel, s.n, false, s.depth, s.st) == r
    && (s.n.Pipe? || s.n.Subshell? || s.n.Return? || s.n.Simple?)
    && (s.n.Simple? && s.n.name in s.st.funcs ==>
          s.fuel > 0 && Exec(w, s.fuel - 1, s.st.funcs[s.n.name], false, s.depth, s.st).out != ErrExit)
  }

  /** Every -e exit, however deeply nested, happens right after a simple command, pipeline
      or subshell that the run has come to outside any test and that finished with a non-zero
      status. */
  lemma {:induction false} ErrExitSite(w: World, a: Site) returns (s: Site)
    requires Exec(w, a.fuel, a.n, false, a.depth, a.st).out == ErrExit
    ensures Reaches(w, a, s) && EndsShell(w, s, Exec(w, a.fuel, a.n, false, a.depth, a.st))
    decreases a.fuel, Size(a.n), 2
  {
    s := a;
    match a.n
    case Semi(l, m) =>
      var x := Exec(w, a.fuel, l, false, a.depth, a.st);
      if x.out == ErrExit {
        s := ErrExitSite(w, a.(n := l));
      } else {
        s := ErrExitSite(w, a.(n := m, st := x.st));
      }
    case And(l, m) =>
      TestedNeverExits(w, a.fuel, l, a.depth, a.st);
      s := ErrExitSite(w, a.(n := m, st := Exec(w, a.fuel, l, true, a.depth, a.st).st));
    case Or(l, m) =>
      TestedNeverExits(w, a.fuel, l, a.depth, a.st);
      s := ErrExitSite(w, a.(n := m, st := Exec(w, a.fuel, l, true, a.depth, a.st).st));
    case Not(t) => TestedNeverExits(w, a.fuel, t, a.depth, a.st);
    case If(c, l, m) =>
      TestedNeverExits(w, a.fuel, c, a.depth, a.st);
      var x := Exec(w, a.fuel, c, true, a.depth, a.st);
      s := ErrExitSite(w, a.(n := if x.st.status == 0 then l else m, st := x.st));
    case While(_, _, _) => s := LoopSite(w, a.(depth := a.depth + 1), 0);
    case For(words, _) => s := ForSite(w, a.(depth := a.depth + 1), w.expand(words, a.st.trace), 0);
    case Case(word, cs) => s := ClausesSite(w, a, Selected(w, word, cs, a.st.trace));
    case At(cs) => s := ClausesSite(w, a, cs);
    case Simple(name) =>
      if name in a.st.funcs && Exec(w, a.fuel - 1, a.st.funcs[name], false, a.depth, a.st).out == ErrExit {
        s := ErrExitSite(w, a.(fuel := a.fuel - 1, n := a.st.funcs[name]));
      }
    case _ =>
  }

  lemma {:induction false} LoopSite(w: World, a: Site, status: int) returns (s: Site)
    requires a.n.While? && Loop(w, a.fuel, a.n, false, a.depth, a.st, status).out == ErrExit
    ensures LoopReaches(w, a, s) && EndsShell(w, s, Loop(w, a.fuel, a.n, false, a.depth, a.st, status))
    decreases a.fuel, Size(a.n), 1
  {
    var next := a.(fuel := a.fuel - 1);
    TestedNeverExits(w, next.fuel, a.n.test, a.depth, a.st);
    var x := Exec(w, next.fuel, a.n.test, true, a.depth, a.st);
    if x.out != Normal {
      s := LoopSite(w, next.(st := x.st), status);
    } else {
      var y := Exec(w, next.fuel, a.n.body, false, a.depth, x.st);
      if y.out == ErrExit {
        s := ErrExitSite(w, next.(n := a.n.body, st := x.st));
      } else {
        s := LoopSite(w, next.(st := y.st), y.st.status);
      }
    }
  }

  lemma {:induction false} ForSite(w: World, a: Site, words: seq<string>, status: int) returns (s: Site)
    requires a.n.For? && ForEach(w, a.fuel, a.n, words, false, a.depth, a.st, status).out == ErrExit
    ensures ForReaches(w, a, words, s) && EndsShell(w, s, ForEach(w, a.fuel, a.n, words, false, a.depth, a.st, status))
    decreases a.fuel, Size(a.n), 1, |words|
  {
    var b := a.(n := a.n.body, st := a.st.(trace := a.st.trace + [Bound(words[0])]));
    var x := Exec(w, b.fuel, b.n, false, b.depth, b.st);
    if x.out == ErrExit {
      s := ErrExitSite(w, b);
    } else {
      s := ForSite(w, a.(st := x.st), words[1..], x.st.status);
    }
  }

  lemma {:induction false} ClausesSite(w: World, a: Site, c: Clauses) returns (s: Site)
    requires RunClauses(w, a.fuel, c, false, a.depth, a.st).out == ErrExit
    ensures ClausesReach(w, a, c, s) && EndsShell(w, s, RunClauses(w, a.fuel, c, false, a.depth, a.st))
    decreases a.fuel, ClausesSize(c), 4
  {
    var x := Then(w, a.fuel, c.body, false, a.depth, a.st);
    if x.out == ErrExit {
      s := ErrExitSite(w, a.(n := c.body));
    } else {
      s := ClausesSite(w, a.(st := x.st), c.next);
    }
  }

  /** And the other way round: when the run comes to a command that ends the shell, that is
      how the whole run ends. */
  lemma {:induction false} ReachedExitEnds(w: World, a: Site, s: Site)
    requires Reaches(w, a, s) && Exec(w, s.fuel, s.n, false, s.depth, s.st).out == ErrExit
    ensures Exec(w, a.fuel, a.n, false, a.depth, a.st) == Exec(w, s.fuel, s.n, false, s.depth, s.st)
    decreases a.fuel, Size(a.n), 2
  {
    if a != s {
      match a.n
      case Semi(l, r) =>
        if Reaches(w, a.(n := l), s) {
          ReachedExitEnds(w, a.(n := l), s);
        } else {
          ReachedExitEnds(w, a.(n := r, st := Exec(w, a.fuel, l, false, a.depth, a.st).st), s);
        }
      case And(l, r) => ReachedExitEnds(w, a.(n := r, st := Exec(w, a.fuel, l, true, a.depth, a.st).st), s);
      case Or(l, r) => ReachedExitEnds(w, a.(n := r, st := Exec(w, a.fuel, l, true, a.depth, a.st).st), s);
      case If(c, l, r) =>
        var x := Exec(w, a.fuel, c, true, a.depth, a.st);
        ReachedExitEnds(w, a.(n := if x.st.status == 0 then l else r, st := x.st), s);
      case While(_, _, _) => ReachedLoopEnds(w, a.(depth := a.depth + 1), s, 0);
      case For(words, _) => ReachedForEnds(w, a.(depth := a.depth + 1), w.expand(words, a.st.trace), s, 0);
      case Case(word, cs) =>
        ReachedClausesEnd(w, a, Selected(w, word, cs, a.st.trace), s);
        NoBodyNoEffect(w, a.fuel, Selected(w, word, cs, a.st.trace), false, a.depth, a.st);
      case At(cs) => ReachedClausesEnd(w, a, cs, s);
      case Simple(name) => ReachedExitEnds(w, a.(fuel := a.fuel - 1, n := a.st.funcs[name]), s);
      case _ =>
    }
  }

  lemma {:induction false} NoBodyNoEffect(w: World, fuel: nat, c: Clauses, tested: bool, depth: nat, st: Store)
    ensures !HasBody(c) ==> RunClauses(w, fuel, c, tested, depth, st) == Result(Normal, st)
    decreases c
  {
    if c.Clause? && c.falls && c.body.Nothing? {
      NoBodyNoEffect(w, fuel, c.next, tested, depth, st);
    }
  }

  lemma {:induction false} ReachedLoopEnds(w: World, a: Site, s: Site, status: int)
    requires a.n.While? && LoopReaches(w, a, s) && Exec(w, s.fuel, s.n, false, s.depth, s.st).out == ErrExit
    ensures Loop(w, a.fuel, a.n, false, a.depth, a.st, status) == Exec(w, s.fuel, s.n, false, s.depth, s.st)
    decreases a.fuel, Size(a.n), 1
  {
    var next := a.(fuel := a.fuel - 1);
    var x := Exec(w, next.fuel, a.n.test, true, a.depth, a.st);
    if x.out != Normal {
      ReachedLoopEnds(w, next.(st := x.st), s, status);
    } else {
      var y := Exec(w, next.fuel, a.n.body, false, a.depth, x.st);
      if Reaches(w, next.(n := a.n.body, st := x.st), s) {
        ReachedExitEnds(w, next.(n := a.n.body, st := x.st), s);
      } else {
        ReachedLoopEnds(w, next.(st := y.st), s, y.st.status);
      }
    }
  }

  lemma {:induction false} ReachedForEnds(w: World, a: Site, words: seq<string>, s: Site, status: int)
    requires a.n.For? && ForReaches(w, a, words, s) && Exec(w, s.fuel, s.n, false, s.depth, s.st).out == ErrExit
    ensures ForEach(w, a.fuel, a.n, words, false, a.depth, a.st, status) == Exec(w, s.fuel, s.n, false, s.depth, s.st)
    decreases a.fuel, Size(a.n), 1, |words|
  {
    var b := a.(n := a.n.body, st := a.st.(trace := a.st.trace + [Bound(words[0])]));
    if Reaches(w, b, s) {
      ReachedExitEnds(w, b, s);
    } else {
      ReachedForEnds(w, a.(st := Exec(w, b.fuel, b.n, false, b.depth, b.st).st), words[1..], s, Exec(w, b.fuel, b.n, false, b.depth, b.st).st.status);
    }
  }

  lemma {:induction false} ReachedClausesEnd(w: World, a: Site, c: Clauses, s: Site)
    requires ClausesReach(w, a, c, s) && Exec(w, s.fuel, s.n, false, s.depth, s.st).out == ErrExit
    ensures RunClauses(w, a.fuel, c, false, a.depth, a.st) == Exec(w, s.fuel, s.n, false, s.depth, s.st)
    decreases a.fuel, ClausesSize(c), 4
  {
    var x := Then(w, a.fuel, c.body, false, a.depth, a.st);
    if Reaches(w, a.(n := c.body), s) {
      ReachedExitEnds(w, a.(n := c.body), s);
    } else {
      ReachedClausesEnd(w, a.(st := x.st), c.next, s);
    }
  }
}
