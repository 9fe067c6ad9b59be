/** The tree evaluator as it runs: break, continue and return are pending in the globals
    `evalskip` and `skipcount`, the loop depth in `loopnest`, and the last status in
    `exitstatus`.  Each method is proved to refine the structured semantics.
 */
module ShellEvaluator {
  import opened Basics
  import opened ArithText
  import opened ArithWords
  import opened ShellNumbers
  import opened ShellSemantics

  // Values of evalskip (eval.h).
  const SKIPBREAK := 1
  const SKIPCONT := 2
  const SKIPRETURN := 3

  datatype ExitKind = ErrorExit | TailExit

  /** How a routine gives back control: by returning, by ending the shell, or by raising an
      error that no handler in the evaluator catches. */
  datatype Control = Returned | Exited(kind: ExitKind) | Raised | Stopped

  class Shell {
    const w: World
    var evalskip: int
    var skipcount: int
    var loopnest: nat
    var funcnest: nat
    var exitstatus: int
    var oexitstatus: int
    var funcs: map<string, Tree>
    var trace: Trace

    constructor (w: World)
      ensures this.w == w && evalskip == 0 && loopnest == 0 && St() == Store(0, map[], [])
    {
      this.w := w;
      evalskip, skipcount, loopnest, funcnest, exitstatus, oexitstatus := 0, 0, 0, 0, 0, 0;
      funcs, trace := map[], [];
    }

    ghost function St(): Store
      reads this
    {
      Store(exitstatus, funcs, trace)
    }

    /** The outcome that the skip flags encode. */
    ghost function Pending(): Outcome
      reads this
    {
      if evalskip == 0 then Normal
      else if evalskip == SKIPBREAK then Breaking(skipcount)
      else if evalskip == SKIPCONT then Continuing(skipcount)
      else Returning
    }

    /** Control came back as `c` where the semantics says `r`.  With `exits` (EV_EXIT) the
        shell ends after the tree, whatever the outcome of the tree was. */
    ghost predicate Refines(c: Control, r: Result, exits: bool, tested: bool)
      reads this
    {
      match c
      case Returned => !Final(r.out) && Pending() == r.out && St() == r.st && 0 <= evalskip <= SKIPRETURN
      case Exited(kind) =>
        && St() == r.st
        && (if exits then r.out != OutOfFuel && r.out != Aborted else kind == ErrorExit && r.out == ErrExit)
        && (tested ==> kind != ErrorExit)
      case Raised => r.out == Aborted && St() == r.st
      case Stopped => r.out == OutOfFuel
    }

    /** evaltree.  It is only ever entered with no skip pending, and returns with the loop
        and function depths it was entered with; a break or continue it leaves pending asks
        for at least one and at most the enclosing number of loops. */
    method EvalTree(fuel: nat, n0: Tree, tested: bool, exits: bool) returns (c: Control)
      requires evalskip == 0
      modifies this
      ensures Refines(c, Exec(w, fuel, n0, tested, old(loopnest), old(St())), exits, tested)
      ensures c.Returned? ==> !exits && loopnest == old(loopnest) && funcnest == old(funcnest)
      ensures c.Returned? && (evalskip == SKIPBREAK || evalskip == SKIPCONT) ==> 1 <= skipcount <= loopnest
      decreases fuel, Size(n0), 3
    {
      hide Exec;
      SkipsInRange(w, fuel, n0, tested, loopnest, St());
      ghost var goal := Exec(w, fuel, n0, tested, loopnest, St());
      if tested {
        TestedNeverExits(w, fuel, n0, loopnest, St());
      }
      var doEtest := false;
      var n := n0;
      if n0.Nothing? {
        NothingStep(w, fuel, tested, loopnest, St());
        exitstatus := 0;
      }
      while !n.Nothing?
        invariant loopnest == old(loopnest) && funcnest == old(funcnest) && 0 <= evalskip <= SKIPRETURN
        invariant !n.Nothing? ==> Size(n) <= Size(n0) && evalskip == 0
        invariant Continues(goal, fuel, n, tested, doEtest)
        decreases if n.Nothing? then 0 else Size(n)
      {
        c, n, doEtest := EvalNode(fuel, n, tested, exits);
        if !c.Returned? {
          return;
        }
      }
      if w.eflag && exitstatus != 0 && doEtest {
        return Exited(ErrorExit);
      }
      if exits {
        return Exited(TailExit);
      }
      c := Returned;
    }

    /** What is left of `goal`: the rest `n` of the tree, or, when there is none, the skip
        pending and the look of the -e option that `etest` asks for. */
    ghost predicate Continues(goal: Result, fuel: nat, n: Tree, tested: bool, etest: bool)
      reads this
    {
      var now := Result(Pending(), St());
      && (etest ==> !tested && n.Nothing?)
      && goal == if !n.Nothing? then Exec(w, fuel, n, tested, loopnest, St()) else if etest then Check(w, tested, now) else now
    }

    /** One turn of evaltree's loop: the node `n`, and the tree to go on with.  Leaving the
        loop early with a skip pending is answered by no further tree. */
    method EvalNode(fuel: nat, n: Tree, tested: bool, exits: bool) returns (c: Control, next: Tree, doEtest: bool)
      requires evalskip == 0 && !n.Nothing?
      modifies this
      ensures !c.Returned? ==> Refines(c, Exec(w, fuel, n, tested, old(loopnest), old(St())), exits, tested)
      ensures c.Returned? ==> loopnest == old(loopnest) && funcnest == old(funcnest) && 0 <= evalskip <= SKIPRETURN
      ensures c.Returned? ==> Continues(Exec(w, fuel, n, tested, old(loopnest), old(St())), fuel, next, tested, doEtest)
      ensures c.Returned? && !next.Nothing? ==> evalskip == 0 && Size(next) < Size(n)
      decreases fuel, Size(n), 2
    {
      hide Command, Loop, ForEach, RunClauses, Selected, HasBody;
      next, doEtest := Nothing, false;
      if n.Semi? {
        c := EvalTree(fuel, n.l, tested, false);
        if !c.Returned? || evalskip != 0 { return; }
        next := n.r;
      } else if n.And? {
        c := EvalTree(fuel, n.l, true, false);
        if !c.Returned? || evalskip != 0 || exitstatus != 0 { return; }
        next := n.r;
      } else if n.Or? {
        c := EvalTree(fuel, n.l, true, false);
        if !c.Returned? || evalskip != 0 || exitstatus == 0 { return; }
        next := n.r;
      } else if n.If? {
        c := EvalTree(fuel, n.test, true, false);
        if !c.Returned? || evalskip != 0 { return; }
        if exitstatus == 0 {
          next := n.l;
        } else if !n.r.Nothing? {
          next := n.r;
        } else {
          exitstatus := 0;
        }
      } else if n.Not? {
        c := EvalTree(fuel, n.t, true, false);
        if !c.Returned? || evalskip != 0 { return; }
        exitstatus := if exitstatus == 0 then 1 else 0;
      } else {
        c, next, doEtest := EvalOther(fuel, n, tested, exits);
      }
    }

    /** The node types of evaltree that are not lists, conditions or negations. */
    method EvalOther(fuel: nat, n: Tree, tested: bool, exits: bool) returns (c: Control, next: Tree, doEtest: bool)
      requires evalskip == 0 && !n.Nothing?
      requires !n.Semi? && !n.And? && !n.Or? && !n.If? && !n.Not?
      modifies this
      ensures !c.Returned? ==> Refines(c, Exec(w, fuel, n, tested, old(loopnest), old(St())), exits, tested)
      ensures c.Returned? ==> loopnest == old(loopnest) && funcnest == old(funcnest) && 0 <= evalskip <= SKIPRETURN
      ensures c.Returned? ==> Continues(Exec(w, fuel, n, tested, old(loopnest), old(St())), fuel, next, tested, doEtest)
      ensures c.Returned? && !next.Nothing? ==> evalskip == 0 && Size(next) < Size(n)
      decreases fuel, Size(n), 1
    {
      hide Command, Loop, ForEach, Selected, HasBody;
      c, next, doEtest := Returned, Nothing, false;
      if n.Subshell? {
        RunChild(n.job);
        doEtest := !tested;
      } else if n.Background? {
        RunChild(n.job);
        exitstatus := 0;
      } else if n.While? {
        c := EvalLoop(fuel, n, tested);
      } else if n.For? {
        c := EvalFor(fuel, n, tested);
      } else if n.Case? {
        next := EvalCase(fuel, n.word, n.clauses, tested);
      } else if n.At? {
        if n.clauses.Clause? {
          ClausesStep(w, fuel, n.clauses, tested, loopnest, St());
          assert Size(n) == 2 + Size(n.clauses.body) + ClausesSize(n.clauses.next);
          if !n.clauses.falls {
            next := n.clauses.body;
          } else {
            if !n.clauses.body.Nothing? {
              c := EvalTree(fuel, n.clauses.body, tested, false);
              if !c.Returned? || evalskip != 0 { return; }
            }
            next := if n.clauses.next.Clause? then At(n.clauses.next) else Nothing;
          }
        }
      } else if n.Defun? {
        funcs := funcs[n.name := n.body];
        exitstatus := 0;
      } else if n.Pipe? {
        RunChild(n.job);
        doEtest := !tested;
      } else {
        c := EvalCommand(fuel, n, tested, exits);
        doEtest := !tested;
      }
    }

    /** A forked child: only its status comes back. */
    method RunChild(job: string)
      modifies this`exitstatus, this`trace
      ensures exitstatus == w.child(job, old(trace)) && trace == old(trace) + [Started(job)]
    {
      exitstatus := w.child(job, trace);
      trace := trace + [Started(job)];
    }

    /** What a loop does with a pending skip: it uses up one level of a break or continue, and
        goes on only for a continue that was meant for itself. */
    method TakeSkip() returns (again: bool)
      requires 1 <= evalskip <= SKIPRETURN
      modifies this`evalskip, this`skipcount
      ensures var o := old(Pending());
              && again == (o.Continuing? && o.n <= 1)
              && Pending() == AfterLoop(o) && 0 <= evalskip <= SKIPRETURN
    {
      if evalskip == SKIPCONT {
        skipcount := skipcount - 1;
        if skipcount <= 0 {
          evalskip := 0;
          return true;
        }
      }
      if evalskip == SKIPBREAK {
        skipcount := skipcount - 1;
        if skipcount <= 0 {
          evalskip := 0;
        }
      }
      again := false;
    }

    /** evalloop. */
    method EvalLoop(fuel: nat, n: Tree, tested: bool) returns (c: Control)
      requires n.While? && evalskip == 0
      modifies this
      ensures Refines(c, Loop(w, fuel, n, tested, old(loopnest) + 1, old(St()), 0), false, tested)
      ensures c.Returned? ==> loopnest == old(loopnest) && funcnest == old(funcnest)
      decreases fuel, Size(n), 0
    {
      hide Exec, Loop, Resume, ForEach, RunClauses, Selected, HasBody;
      ghost var goal := Loop(w, fuel, n, tested, loopnest + 1, St(), 0);
      var f: nat := fuel;
      loopnest := loopnest + 1;
      var status := 0;
      var done := false;
      ResumeStep(w, f, n, tested, loopnest, Result(Normal, St()), status);
      while !done
        invariant loopnest == old(loopnest) + 1 && funcnest == old(funcnest)
        invariant 0 <= evalskip <= SKIPRETURN && f <= fuel
        invariant !done ==> goal == Resume(w, f, n, tested, loopnest, Result(Pending(), St()), status)
        invariant !done && evalskip != 0 ==> status == exitstatus
        invariant done ==> goal == Result(Pending(), SetStatus(St(), status))
        decreases !done, f, evalskip != 0
      {
        if evalskip == 0 && f == 0 {
          ResumeStep(w, f, n, tested, loopnest, Result(Pending(), St()), status);
          LoopEnd(w, n, tested, loopnest, St(), status);
          return Stopped;
        }
        c, done, f, status := LoopTurn(f, n, tested, status);
        if !c.Returned? { return; }
      }
      loopnest := loopnest - 1;
      exitstatus := status;
      c := Returned;
    }

    /** One turn of evalloop, entered with the skip that the last body left: whether the loop is
        done, and the status it has so far. */
    method LoopTurn(f0: nat, n: Tree, tested: bool, status0: int) returns (c: Control, done: bool, f: nat, status: int)
      requires n.While? && 0 <= evalskip <= SKIPRETURN
      requires if evalskip == 0 then f0 > 0 else status0 == exitstatus
      modifies this
      ensures f <= f0 && (c.Returned? ==> loopnest == old(loopnest) && funcnest == old(funcnest) && 0 <= evalskip <= SKIPRETURN)
      ensures var goal := Resume(w, f0, n, tested, old(loopnest), Result(old(Pending()), old(St())), status0);
              if !c.Returned? then Refines(c, goal, false, tested)
              else if done then goal == Result(Pending(), SetStatus(St(), status))
              else goal == Resume(w, f, n, tested, loopnest, Result(Pending(), St()), status)
      ensures c.Returned? && !done ==> (evalskip != 0 ==> status == exitstatus) && (f < f0 || (old(evalskip) != 0 && evalskip == 0))
      decreases f0, 0, 0, 0
    {
      hide Exec, Loop, Resume, ForEach, RunClauses, Selected, HasBody;
      f, status, done := f0, status0, true;
      ResumeStep(w, f, n, tested, loopnest, Result(Pending(), St()), status);
      if evalskip == 0 {
        LoopStep(w, f, n, tested, loopnest, St(), status);
        f := f - 1;
        ResumeStep(w, f, n, tested, loopnest, Exec(w, f, n.test, true, loopnest, St()), status);
        c := EvalTree(f, n.test, true, false);
        if !c.Returned? { return; }
      }
      if evalskip != 0 {
        c := Returned;
        var again := TakeSkip();
        if again {
          ResumeStep(w, f, n, tested, loopnest, Result(Normal, St()), status);
          done := false;
        } else if evalskip == SKIPRETURN {
          status := exitstatus;
        }
        return;
      }
      if (exitstatus == 0) == n.until {
        return;
      }
      ghost var b := Exec(w, f, n.body, tested, loopnest, St());
      ResumeStep(w, f, n, tested, loopnest, b, b.st.status);
      c := EvalTree(f, n.body, tested, false);
      status, done := exitstatus, false;
    }

    /** evalfor. */
    method EvalFor(fuel: nat, n: Tree, tested: bool) returns (c: Control)
      requires n.For? && evalskip == 0
      modifies this
      ensures Refines(c, ForEach(w, fuel, n, w.expand(n.words, old(trace)), tested, old(loopnest) + 1, old(St()), 0), false, tested)
      ensures c.Returned? ==> loopnest == old(loopnest) && funcnest == old(funcnest)
      decreases fuel, Size(n), 0, 1
    {
      hide Exec, Loop, ForEach, RunClauses, Selected, HasBody;
      oexitstatus := exitstatus;
      var args := w.expand(n.words, trace);
      ghost var goal := ForEach(w, fuel, n, args, tested, loopnest + 1, St(), 0);
      loopnest := loopnest + 1;
      var status := 0;
      var i := 0;
      var leave := false;
      while i < |args| && !leave
        invariant 0 <= i <= |args|
        invariant loopnest == old(loopnest) + 1 && funcnest == old(funcnest) && 0 <= evalskip <= SKIPRETURN
        invariant !leave ==> evalskip == 0 && goal == ForEach(w, fuel, n, args[i..], tested, loopnest, St(), status)
        invariant leave ==> goal == Result(Pending(), St()) && !Final(goal.out) && status == exitstatus
      {
        assert args[i..][0] == args[i] && args[i..][1..] == args[i + 1..];
        ForStep(w, fuel, n, args[i..], tested, loopnest, St(), status);
        c, leave := EvalWord(fuel, n, args[i], tested);
        if !c.Returned? { return; }
        i := i + 1;
        status := exitstatus;
      }
      if !leave {
        ForEnd(w, fuel, n, tested, loopnest, St(), status);
      }
      loopnest := loopnest - 1;
      exitstatus := status;
      c := Returned;
    }

    /** One turn of evalfor: the body with the variable set to `word`, and whether the loop is
        left. */
    method EvalWord(fuel: nat, n: Tree, word: string, tested: bool) returns (c: Control, leave: bool)
      requires n.For? && evalskip == 0
      modifies this
      ensures var a := Exec(w, fuel, n.body, tested, old(loopnest), old(St()).(trace := old(trace) + [Bound(word)]));
              if c.Returned? then
                && loopnest == old(loopnest) && funcnest == old(funcnest) && 0 <= evalskip <= SKIPRETURN
                && !Final(a.out) && St() == a.st && Pending() == AfterLoop(a.out)
                && leave == !(a.out == Normal || (a.out.Continuing? && a.out.n <= 1))
              else Refines(c, a, false, tested)
      decreases fuel, Size(n), 0, 0
    {
      hide Exec;
      trace := trace + [Bound(word)];
      c := EvalTree(fuel, n.body, tested, false);
      leave := false;
      if c.Returned? && evalskip != 0 {
        var again := TakeSkip();
        leave := !again;
      }
    }

    /** evalcase: the tree to go on with. */
    method EvalCase(ghost fuel: nat, word: string, clauses: Clauses, ghost tested: bool) returns (next: Tree)
      requires evalskip == 0
      modifies this`exitstatus, this`oexitstatus
      ensures Size(next) <= 1 + ClausesSize(clauses)
      ensures Exec(w, fuel, Case(word, clauses), tested, loopnest, old(St())) == Then(w, fuel, next, tested, loopnest, St())
    {
      oexitstatus := exitstatus;
      var cp := clauses;
      while cp.Clause?
        invariant exitstatus == old(exitstatus)
        invariant Selected(w, word, cp, trace) == Selected(w, word, clauses, trace)
        invariant ClausesSize(cp) <= ClausesSize(clauses)
        decreases cp
      {
        var i := 0;
        while i < |cp.patterns|
          invariant 0 <= i <= |cp.patterns|
          invariant exitstatus == old(exitstatus)
          invariant forall j :: 0 <= j < i ==> !w.matches(word, cp.patterns[j], trace)
        {
          if w.matches(word, cp.patterns[i], trace) {
            assert Selected(w, word, clauses, trace) == cp;
            ghost var first := cp;
            while cp.next.Clause? && cp.falls && cp.body.Nothing?
              invariant cp.Clause?
              invariant exitstatus == old(exitstatus)
              invariant ClausesSize(cp) <= ClausesSize(clauses)
              invariant HasBody(cp) == HasBody(first)
              invariant RunClauses(w, fuel, cp, tested, loopnest, St()) == RunClauses(w, fuel, first, tested, loopnest, St())
              decreases cp
            {
              cp := cp.next;
            }
            if cp.next.Clause? && cp.falls {
              return At(cp);
            }
            if cp.body.Nothing? {
              exitstatus := 0;
            }
            return cp.body;
          }
          i := i + 1;
        }
        cp := cp.next;
      }
      exitstatus := 0;
      next := Nothing;
    }

    /** evalcommand, for a function call, an external command and the control builtins. */
    method EvalCommand(fuel: nat, n: Tree, tested: bool, exits: bool) returns (c: Control)
      requires IsCommand(n) && evalskip == 0
      modifies this
      ensures Refines(c, Command(w, fuel, n, tested, old(loopnest), old(St())), exits, tested)
      ensures c.Returned? ==> loopnest == old(loopnest) && funcnest == old(funcnest)
      decreases fuel, Size(n), 0
    {
      hide Exec, LoopCount, IsNumber, DecimalValue;
      oexitstatus := exitstatus;
      exitstatus := 0;
      match n {
      case Simple(name) =>
        if name in funcs {
          if fuel == 0 {
            return Stopped;
          }
          exitstatus := oexitstatus;
          c := CallFunction(fuel - 1, funcs[name], tested, exits);
          return;
        } else {
          var reply := w.command(name, trace);
          trace := trace + [Ran(name)];
          exitstatus := reply.status;
          if w.iflag && loopnest > 0 && reply.signaled {
            evalskip := SKIPBREAK;
            skipcount := loopnest;
          }
        }
      case Break(arg) =>
        c := BreakCmd(arg, SKIPBREAK);
        return;
      case Continue(arg) =>
        c := BreakCmd(arg, SKIPCONT);
        return;
      case Return(arg) =>
        c := ReturnCmd(arg);
        return;
      }
      c := Returned;
    }

    /** The function call of evalcommand: a return pending in the body ends there. */
    method CallFunction(fuel: nat, body: Tree, tested: bool, exits: bool) returns (c: Control)
      requires evalskip == 0
      modifies this
      ensures var a := Exec(w, fuel, body, tested, old(loopnest), old(St()));
              Refines(c, if a.out == Returning then Result(Normal, a.st) else a, exits, tested)
      ensures c.Returned? ==> loopnest == old(loopnest) && funcnest == old(funcnest)
      decreases fuel, Size(body), 4
    {
      hide Exec;
      funcnest := funcnest + 1;
      c := EvalTree(fuel, body, tested, exits);
      if !c.Returned? { return; }
      funcnest := funcnest - 1;
      if evalskip == SKIPRETURN {
        evalskip := 0;
        skipcount := 0;
      }
    }

    /** breakcmd: asking for more loops than there are means all of them, and an argument
        that is not a number raises an error. */
    method BreakCmd(arg: Option<string>, skip: int) returns (c: Control)
      requires evalskip == 0
      modifies this`evalskip, this`skipcount, this`exitstatus
      ensures LoopCount(arg).None? ==> c == Raised && exitstatus == 2 && evalskip == 0
      ensures LoopCount(arg).Some? ==>
                && c == Returned && exitstatus == 0
                && if LoopCount(arg).value > 0 && loopnest > 0
                   then evalskip == skip && skipcount == Min(LoopCount(arg).value, loopnest)
                   else evalskip == 0
    {
      var n := 1;
      if arg.Some? {
        var number := ReadDigits(arg.value, 10, 0);
        if !IsDigit(Basics.At(arg.value)) || number.end != [] {
          exitstatus := 2;
          return Raised;
        }
        n := Wrap(number.acc);
      }
      if n > loopnest {
        n := loopnest;
      }
      if n > 0 {
        evalskip := skip;
        skipcount := n;
      }
      exitstatus := 0;
      c := Returned;
    }

    /** returncmd. */
    method ReturnCmd(arg: Option<string>) returns (c: Control)
      requires evalskip == 0
      modifies this`evalskip, this`skipcount, this`exitstatus
      ensures arg.Some? && !IsNumber(arg.value) ==> c == Raised && exitstatus == 2 && evalskip == 0
      ensures arg.None? || IsNumber(arg.value) ==>
                && c == Returned && evalskip == SKIPRETURN
                && exitstatus == if arg.None? then oexitstatus else DecimalValue(arg.value)
    {
      var ret := oexitstatus;
      if arg.Some? {
        var ok, value := ParseNumber(arg.value);
        if !ok {
          exitstatus := 2;
          return Raised;
        }
        ret := value;
      }
      evalskip := SKIPRETURN;
      skipcount := 1;
      exitstatus := ret;
      c := Returned;
    }
  }

  /** Running a tree in a fresh shell, where no loop encloses it: no break or continue can be
      left pending, and the status and the commands run are those of the semantics. */
  method RunTree(w: World, fuel: nat, n: Tree) returns (c: Control, status: int, trace: Trace)
    ensures var r := Exec(w, fuel, n, false, 0, Store(0, map[], []));
            match c
            case Returned => (r.out == Normal || r.out == Returning) && status == r.st.status && trace == r.st.trace
            case Exited(kind) => r.out == ErrExit && status == r.st.status != 0 && trace == r.st.trace
            case Raised => r.out == Aborted && status == r.st.status && trace == r.st.trace
            case Stopped => r.out == OutOfFuel
  {
    hide Exec;
    var shell := new Shell(w);
    c := shell.EvalTree(fuel, n, false, false);
    status, trace := shell.exitstatus, shell.trace;
    if c.Exited? {
      var site := ErrExitSite(w, Site(fuel, n, 0, Store(0, map[], [])));
    }
  }
}
