# SzpontOS: verified models

This project models the parts of SzpontOS that carry the most state and branching, and proves
what they promise:

- the shell's arithmetic expansion: lexer, one-pass evaluator, variables, 64-bit words
  (`Arith*.dfy`);
- the shell's tree evaluator, where break, continue, return and `set -e` live in global flags
  (`Shell*.dfy`);
- the terminal emulator: escape-sequence parser, cell grid, scroll regions, alternate screen,
  history ring (`Terminal*.dfy`);
- the QOI encoder behind the panic image, and the kernel code that reads and draws it
  (`Qoi.dfy`, `QoiKernel.dfy`, `PanicImage.dfy`);
- the shell's command hash table and PATH walker (`Command*.dfy`);
- the logical working directory (`WorkingDirectory.dfy`) and the alias table
  (`AliasTable.dfy`);
- the kernel's overlapping copies (`ByteCopy.dfy`) and bounded formatter (`KernelPrint.dfy`,
  `PrintLaws.dfy`).

Code that changes state is a class or a method over arrays, and each is proved against a
definition on values. For the arithmetic evaluator, the tree evaluator, scrolling and editing,
the history ring, the QOI encoder, the hash chains, path normalisation, the copies and the
formatter that definition has another form than the code. For cursor movement, erasing, the
scroll region and the decision order of a command lookup it lists the same cases as the code;
there the promises are the lemmas about the definition: which cells are erased, how movements
compose and relate, that the region is valid, and that a lookup equals a search without cache.
What the definitions themselves mean is pinned from outside: the operators by their laws and
their texts (`ArithLaws.dfy`), control flow by laws between constructs and over nested loops
(`ShellLaws.dfy`), control functions from their bytes to the lines and cells shown
(`TerminalControls.dfy`, `TerminalBytes.dfy`), lookups over a tree of directories
(`CommandFiles.dfy`), and numerals by positional notation (`Numerals.dfy`).

**Arithmetic.** The reference is a grammar given by its derivations (trees whose operands
stand at the right level), their flattening to tokens, and a denotation over a variable map
with 64-bit wrap-around. The stratified parser decides that grammar; the precedence climb of
the code is that parser; with `noeval` the code consumes the same tokens, touches no variable
and raises no run-time error. A text that is no sentence parses to a fragment, its finished
operands up to the token that cannot stand there, and a left-to-right rule over fragments says
which error comes first. Number conversion is the repository's own `strtoumax` and
`strtoimax`, which wrap modulo 2^64 and report no range error themselves, unlike the functions
of section 7.8.2.3 of ISO C; the lexer's own clamping to the largest value is modelled on top.

**Tree evaluator.** The reference semantics has outcomes instead of flags. Commands, child
processes, word expansion and pattern matching are oracles that see everything that ran
before. An illegal argument of break, continue or return raises an error that abandons the
tree. The comment in `breakcmd` allows arbitrarily large numbers, but the conversion keeps only
64 bits, so some very large counts mean no loop at all. Fuel bounds loop iterations and call
depth, and a run that finishes with some fuel finishes the same with any larger amount.

**Terminal.** Each control function has a closed form on values; the class works on the two
grids, the ring and the parameter array in place, loop by loop, and is proved to compute the
closed forms. Whole-run results are about every byte stream.

## Model

| member | source | states |
|---|---|---|
| `ArithGrammar.ParserDecidesGrammar` | userland/sh/arith_yacc.c:168-324 | a token list parses to a tree and ends there if and only if the tree is a derivation of the grammar and the list is its flattening: the grammar is unambiguous and the parser complete |
| `ArithGrammar.AssignComplete` | userland/sh/arith_yacc.c:302-324 | every derivation followed by anything that cannot continue it is read back whole, with right-associative assignment and ternary |
| `ArithGrammar.BinaryComplete` | userland/sh/arith_yacc.c:66-83 | the eight binary levels read every left-associative derivation back at its own level, whatever looser operator follows |
| `ArithGrammar.AssignSound` | userland/sh/arith_yacc.c:302-324 | whatever is accepted is a derivation, and its tokens are exactly the ones consumed |
| `ArithGrammar.BinarySound` | userland/sh/arith_yacc.c:205-244 | the same for each of the eight levels of binary operators |
| `ArithGrammar.AssignCut` | userland/sh/arith_yacc.c:168-324 | a text that does not start with an expression is cut at the first token that is not the one the tokens before it wait for, and those tokens are exactly its fragment |
| `ArithGrammar.GroupedIsDerivation` | userland/sh/arith_yacc.c:168-324 | adding parentheses only where grouping needs them turns any tree into a derivation, and leaves a derivation alone |
| `ArithGrammar.FewestParentheses` | userland/sh/arith_yacc.c:168-324 | no way of putting parentheses into a tree that makes it a derivation uses fewer of them |
| `ArithSemantics.GroupedKeepsMeaning` | userland/sh/arith_yacc.c:168-324 | those parentheses change neither value nor variables nor error, for every tree and variable map |
| `ArithSemantics.LogicalChainsAssociate` | userland/sh/arith_yacc.c:246-278 | chains of logical and, and of logical or, which the code groups to the right, mean what ISO C's grouping to the left means |
| `ArithSemantics.AssignedReadsBack` | userland/sh/arith_yacc.c:302-324 | the value of an assignment, plain or compound, is what the variable evaluates to afterwards, through its decimal text |
| `ArithWords.DivisionIsExact` | userland/sh/arith_yacc.c:128-134 | outside the two refused cases `/` and `%` never wrap and are the truncated quotient and remainder |
| `ArithWords.TruncLaws` | userland/sh/arith_yacc.c:128-134 | quotient times divisor plus remainder is the dividend; the remainder is smaller than the divisor and has the dividend's sign |
| `ArithWords.AddSubUndo` | userland/sh/arith_yacc.c:137-140 | addition and subtraction undo each other, wrap-around included |
| `ArithWords.RightShiftFloors` | userland/sh/arith_yacc.c:143-144 | a right shift is the floor of the quotient by the power of two, for negative values too |
| `ArithWords.BitwiseAddsUp` | userland/sh/arith_yacc.c:157-162 | on the unsigned words, and plus or is the sum, and so is exclusive or plus twice and |
| `ArithLaws.OperatorMeaning` | userland/sh/arith_yacc.c:123-164 | every binary operator by its text: the level of ISO C it binds at, and what it computes on 64-bit words: sum, difference and product modulo 2^64, truncated quotient and remainder with the two refused cases, shifts by the count modulo 64, comparisons as 0 or 1, and the bitwise operators bit by bit |
| `ArithLaws.Comparisons` | userland/sh/arith_yacc.c:145-156 | `<`, `>` and `==` are the sign of the difference wherever it does not wrap; between different signs the negative value is less; `<=`, `>=` and `!=` are the negations |
| `ArithLaws.Multiplication` | userland/sh/arith_yacc.c:135-138 | `*` distributes over `+` and commutes, wrap-around included, with 1 and 0 as unit and zero |
| `ArithLaws.LeftShift` | userland/sh/arith_yacc.c:141-142 | `<<` is `*` by a power of two, one doubling for each step of the count modulo 64 |
| `ArithLaws.Bitwise` | userland/sh/arith_yacc.c:157-162 | each bit of a bitwise result depends on the two bits at its own place |
| `ArithLaws.UnaryAbbreviates` | userland/sh/arith_yacc.c:186-199 | `+e`, `-e`, `~e` and `!e` are `e`, `0 - e`, `-1 ^ e` and `e == 0`, with value, variables and error |
| `ArithLaws.LogicAbbreviates` | userland/sh/arith_yacc.c:246-278 | logical and and logical or are conditionals with the right operand compared to zero |
| `ArithLaws.LogicDual` | userland/sh/arith_yacc.c:246-278 | the negation of a logical and is the logical or of the negations, effects included |
| `ArithLaws.CompoundAbbreviates` | userland/sh/arith_yacc.c:319-320 | `x op= y` is `x = x op v` in the variables that evaluating `y` to `v` leaves |
| `ArithLaws.VariableReads` | userland/sh/arith_yacc.c:97-111 | a variable is 0 when empty, or unset without -u, else its numeral; an unset one under -u and a numeral followed by anything are errors |
| `ArithLaws.StoredText` | userland/sh/arith_yacc.c:321-322 | an assignment stores the shortest decimal numeral, after a minus sign for a negative value |
| `ArithLaws.HexRead` | libc/src/stdlib/malloc.c:320-360 | a numeral after `0x` or `0X` is read in base 16, in either letter case |
| `ArithLaws.OctalRead` | libc/src/stdlib/malloc.c:320-360 | a numeral after `0` is read in base 8 |
| `ArithLaws.DecimalRead` | libc/src/stdlib/malloc.c:320-360 | a numeral without a leading zero is read in base 10 |
| `ArithLaws.LongestMatch` | userland/sh/arith_yylex.c:106-276 | the symbol found begins the text and no symbol that begins the text is longer; only `++`, `--` and texts that no symbol begins are refused |
| `ArithText.FormatReadsBack` | libc/src/stdlib/malloc.c:320-393 | every 64-bit value written in decimal converts back to itself, the most negative one included |
| `ArithText.SpellingReadsBack` | userland/sh/arith_yylex.c:82-276 | lexer round trip: any token list spelled with single blanks is read back exactly, values, names and compound assignments included |
| `ArithText.SymbolReadsBack` | userland/sh/arith_yylex.c:106-276 | longest match picks every operator's own code from its spelling |
| `ArithEvaluator.LevelIsClimb` | userland/sh/arith_yacc.c:205-244 | one level of the stratified grammar is a primary followed by a climb from the tightest level to it |
| `ArithEvaluator.ClimbStep` | userland/sh/arith_yacc.c:205-233 | one round of the climb takes one operator and the whole tighter operand on its right |
| `ArithEvaluator.ClimbSplit` | userland/sh/arith_yacc.c:205-233 | a climb can be cut at any precedence in between |
| `ArithEvaluator.ClimbSkips` | userland/sh/arith_yacc.c:205-233 | levels whose operators are not next can be skipped |
| `ArithEvaluator.BinaryLeaves` | userland/sh/arith_yacc.c:205-244 | a level never leaves a next operator that binds tighter than its own bound |
| `ArithEvaluator.ClimbKeepsError` | userland/sh/arith_yacc.c:205-233 | an operand that fails makes the whole climb fail with the same error, whether or not the rest of the text is well formed |
| `ArithEvaluator.RoundJudged` | userland/sh/arith_yacc.c:205-233 | after one round the climb is judged by the right operand if that gives no value, by the operator if it fails on the two values, and otherwise further on |
| `ArithEvaluator.PlusChangesNothing` | userland/sh/arith_yacc.c:186-190 | a unary plus changes neither what is accepted nor how it is judged |
| `ArithEvaluator.Evaluator.StrToArith` | userland/sh/arith_yylex.c:55-79 | value, end position and range flag are those of the reference conversion |
| `ArithEvaluator.Evaluator.Yylex` | userland/sh/arith_yylex.c:82-276 | one call peels exactly one token off the reference token list, at the end and on an unknown character stays put, and changes the token value only for numbers and names |
| `ArithEvaluator.Evaluator.LexSymbol` | userland/sh/arith_yylex.c:106-276 | the nested character tests pick the longest operator |
| `ArithEvaluator.Evaluator.Primary` | userland/sh/arith_yacc.c:168-203 | accepts what the grammar's primary accepts and consumes the same tokens; evaluating, it ends with the tree's value or the first error from left to right, run-time or syntax, with the assignments made by then; with `noeval` it changes no variable and fails only on syntax |
| `ArithEvaluator.Evaluator.Binop2` | userland/sh/arith_yacc.c:205-233 | the same for a climb, entered at an operator tighter than the bound, and the operator it leaves does not bind tighter than the bound |
| `ArithEvaluator.Evaluator.Binop` | userland/sh/arith_yacc.c:235-244 | the same for all eight levels; no binary operator is left next |
| `ArithEvaluator.Evaluator.And` | userland/sh/arith_yacc.c:246-261 | the same for `&&`: the skipped operand is parsed but has no effect and cannot fail at run time |
| `ArithEvaluator.Evaluator.Or` | userland/sh/arith_yacc.c:263-278 | the same for logical or |
| `ArithEvaluator.Evaluator.Cond` | userland/sh/arith_yacc.c:280-300 | the same for the ternary: only the chosen branch has effects |
| `ArithEvaluator.Evaluator.Assignment` | userland/sh/arith_yacc.c:302-324 | the same for `=` and the ten compound assignments |
| `ArithEvaluator.Evaluator.Arith` | userland/sh/arith_yacc.c:326-343 | for any text the result and the variables left are determined: the value of a whole sentence, or else the first error met from left to right, where skipped operands are only read and text after an expression is an error after its effects |
| `ArithExpansion.Evaluate` | userland/sh/arith_yacc.c:326-343 | for any text: a sentence of the grammar gives the value and variables of its derivation, or its error and the variables by then; anything else is refused with its first error from left to right, run-time or syntax, and the assignments made by then |
| `ArithExpansion.EvaluateRendered` | userland/sh/arith_yacc.c:168-343 | any tree written out as text with the fewest parentheses and evaluated gives the tree's value and final variables, or its error and the variables by then |
| `ShellSemantics.SkipsInRange` | userland/sh/eval.c:1286-1305 | a pending break or continue always asks for at least one and at most the enclosing number of loops |
| `ShellNumbers.LoopCountIs` | userland/sh/eval.c:1286-1305 | exactly the non-empty texts of digits are legal counts for break and continue, and they stand for their value modulo 2^64 read as signed |
| `ShellNumbers.LargeCounts` | userland/sh/eval.c:1292-1300 | the loops left are the number written, cut to those there are, if and only if it is below 2^63 or its low 64 bits lie between the depth and 2^63 |
| `ShellNumbers.LargeCountExample` | userland/sh/eval.c:1292-1300 | a count of 2^64 is legal and leaves no loop |
| `ShellNumbers.ParseNumber` | userland/sh/mystring.c:63-92 | the skipped zeros, the digit check and the comparison with the largest int as text accept exactly the decimal numbers that fit an int, with their value |
| `ShellSemantics.TestedNeverExits` | userland/sh/eval.c:186-304 | a tree whose status is tested never takes the `set -e` exit, at any depth, through loops, cases and function calls |
| `ShellSemantics.ErrExitSite` | userland/sh/eval.c:281-301 | every `set -e` exit is traced to one simple command, pipeline or subshell that the run comes to through untested positions only, in the state it is entered in, and that just finished with non-zero status |
| `ShellSemantics.ReachedExitEnds` | userland/sh/eval.c:186-304 | conversely, once the run comes to a command that takes the exit, that result is the result of the whole run |
| `ShellSemantics.FuelIrrelevant` | userland/sh/eval.c:308-340 | a run that finishes with some fuel finishes identically with any larger amount |
| `ShellLaws.UntilExactly` | userland/sh/eval.c:308-340 | an until loop is the while loop of the negated test, in outcome, status, functions and trace, if and only if no turn begins by returning the status it finds |
| `ShellLaws.UntilIsWhileNot` | userland/sh/eval.c:308-340 | an until loop is the while loop of the negated test, in outcome, status, functions and trace, provided no turn begins by returning the status it finds |
| `ShellLaws.UntilReturns` | userland/sh/eval.c:1353-1361 | the two loops agree up to the first turn that begins with a return of its own without an argument, and there return different statuses, one not 0 and the other 0 |
| `ShellLaws.UntilExample` | userland/sh/eval.c:1353-1361 | an input: with a command that fails with status 5 the until loop returns 5 and the while loop 0 |
| `ShellLaws.Duality` | userland/sh/eval.c:212-224 | the negation of `a && b` is the or-list of the negations, and dually, in outcome, status, functions and trace, unless `b` is reached and begins by returning the status it finds |
| `ShellLaws.DualityExactly` | userland/sh/eval.c:212-224 | each of the two dualities holds if and only if a right operand that is reached does not begin by returning the status it finds; the second also fails for a missing one |
| `ShellLaws.DualityReturns` | userland/sh/eval.c:272-277 | the two sides return different statuses whenever a right operand that is reached begins with a return of its own without an argument |
| `ShellLaws.NegatedTest` | userland/sh/eval.c:234-246 | exchanging the branches of an if undoes a negation of its test, if and only if the branch that runs does not begin by returning the status it finds |
| `ShellLaws.StatusUnread` | userland/sh/eval.c:1353-1361 | the status before a tree matters only to a return without an argument that comes first, in the tree or in functions it calls first |
| `ShellLaws.BreakEnds` | userland/sh/eval.c:317-327 | `break n` inside while, until and for loops, nested to any depth: exactly the n innermost end at once, none runs what is left of its body, and what follows the n-th loop runs next |
| `ShellLaws.ContinueResumes` | userland/sh/eval.c:364-371 | `continue n` in the same nests: the inner n - 1 loops end and the n-th goes on with its next turn |
| `ShellLaws.CallReturns` | userland/sh/eval.c:1102-1117 | a return in the middle of loops in a function ends them and the call, which ends normally with the status returned |
| `ShellLaws.SignalEndsLoops` | userland/sh/eval.c:1205-1213 | in an interactive shell a command ended by a signal ends all the loops around it |
| `ShellLaws.CaseRuns` | userland/sh/eval.c:386-413 | the first clause with a matching pattern runs, and goes on into the next exactly when marked so |
| `ShellLaws.CaseRunsNothing` | userland/sh/eval.c:405-411 | a case without a match, and a matching clause with nothing to run, end with status 0 |
| `ShellLaws.DefinitionRuns` | userland/sh/eval.c:268-271 | a function just defined is what its name runs, and its return ends the call |
| `ShellLaws.CommandsDecide` | userland/sh/eval.c:205-277 | which of three external commands run, and whose status counts, for lists, and-lists, or-lists, negation and if |
| `ShellLaws.TestsDecide` | userland/sh/eval.c:328-337 | a while loop goes on while its test succeeds, an until loop while it fails; a loop that never ran its body has status 0 |
| `ShellLaws.WordsDecide` | userland/sh/eval.c:344-384 | a for loop runs its body for every word of its list in order |
| `ShellLaws.FailureExits` | userland/sh/eval.c:297-303 | with `set -e` a failing command ends the shell before the next one, unless its status is tested |
| `ShellEvaluator.Shell.EvalTree` | userland/sh/eval.c:186-304 | flags, status, functions and the commands run agree with the structured outcome; loop and function depth are restored; a pending skip satisfies 1 <= skipcount <= loopnest |
| `ShellEvaluator.Shell.EvalNode` | userland/sh/eval.c:205-289 | one step of the tail loop: the remaining tree, run in the new state, gives the outcome of the whole |
| `ShellEvaluator.Shell.EvalOther` | userland/sh/eval.c:241-289 | the same for the node kinds that end a tail loop |
| `ShellEvaluator.Shell.EvalLoop` | userland/sh/eval.c:308-340 | the while/until loop with its skip counters is the recursive loop rule; loopnest is restored |
| `ShellEvaluator.Shell.TakeSkip` | userland/sh/eval.c:318-327 | a loop uses up one level of a pending break or continue, goes on only for a continue of its own, and passes a return on |
| `ShellEvaluator.Shell.EvalFor` | userland/sh/eval.c:345-376 | the same for the for loop over the expanded words |
| `ShellEvaluator.Shell.EvalCase` | userland/sh/eval.c:386-413 | the clause it hands back, run next, is the whole case with fall-through and its status rule |
| `ShellEvaluator.Shell.EvalCommand` | userland/sh/eval.c:1068-1119 | a function call, an external command and the control builtins end as the semantics says; a signalled child breaks all loops of an interactive shell |
| `ShellEvaluator.Shell.CallFunction` | userland/sh/eval.c:1096-1117 | a function call absorbs a return and nothing else, and restores the nesting depth |
| `ShellEvaluator.Shell.BreakCmd` | userland/sh/eval.c:1286-1305 | more levels than loops means all loops; outside loops nothing is pending; an argument that is no number raises an error with status 2 |
| `ShellEvaluator.Shell.ReturnCmd` | userland/sh/eval.c:1354-1361 | the status is the argument, or the last status without one; an argument that is no int raises an error with status 2 |
| `ShellEvaluator.RunTree` | userland/sh/eval.c:186-304 | a whole tree run in a fresh shell ends with the status and command trace of the semantics, by returning, by the `set -e` exit or by an error, with no break or continue left over |
| `TerminalRuns.PutByteKeeps` | userland/bin/szponterm.c:691-840 | every byte in every parser state keeps all buffer accesses in bounds, and keeps cursor, saved cursor and margins on the screen if they were |
| `TerminalRuns.RunStaysOnScreen` | userland/bin/szponterm.c:842-847 | so does every byte stream |
| `TerminalRuns.RunInputs` | userland/bin/szponterm.c:379-416 | bytes and window resizes in any order keep every grid, parameter, title and history access in bounds |
| `TerminalRuns.Accept` | userland/bin/szponterm.c:379-416 | one byte or one resize to any pixel size does |
| `TerminalRuns.ResizeKeeps` | userland/bin/szponterm.c:379-416 | a resize keeps the buffers in bounds and puts the cursor on the new screen |
| `TerminalRuns.AltRun` | userland/bin/szponterm.c:336-362 | on the alternate screen any stream without full reset leaves the history alone and the main grid put away, or back on display once it leaves |
| `TerminalRuns.Enters` | userland/bin/szponterm.c:515-530 | whichever byte enters the alternate screen, the main grid and cursor are put away exactly and the history is unchanged |
| `TerminalRuns.AlternateScreenRestores` | userland/bin/szponterm.c:336-362 | over a whole visit the main grid comes back cell for cell, nothing enters the history, and cursor and attributes come back unless the program saved a cursor |
| `TerminalRuns.AlternateScreenSurvivesResizes` | userland/bin/szponterm.c:379-416 | the same when the window is resized any number of times during the visit |
| `TerminalRuns.AltRunInputs` | userland/bin/szponterm.c:336-416 | bytes and resizes in any order on the alternate screen leave the history and the main grid that is put away alone |
| `TerminalSequences.SequenceReadsBack` | userland/bin/szponterm.c:742-825 | parser round trip: a control sequence spelled with up to sixteen decimal parameters is executed with exactly those parameters and the parser is at rest again |
| `TerminalSequences.ParametersCollected` | userland/bin/szponterm.c:804-825 | digits and separators fed one by one leave exactly the written list in the parameter array |
| `TerminalSequences.EraseDisplayCells` | userland/bin/szponterm.c:596-612 | the bytes of ED with its parameter: exactly the cells from the cursor on, up to the cursor, or all become blank, nothing reaches the history, and the cursor goes home only when all is erased |
| `TerminalSequences.EraseLineCells` | userland/bin/szponterm.c:613-621 | the bytes of EL with its parameter: exactly the cells of the cursor's row from the cursor on, up to it, or all become blank, and nothing else changes |
| `TerminalSequences.MovesCompose` | userland/bin/szponterm.c:550-565 | CUU, CUD, CUF and CUB: two moves one way are one by the sum, a move with room is undone by the opposite one, and a cursor between the margins stays there |
| `TerminalSequences.MovesRelate` | userland/bin/szponterm.c:558-595 | CNL and CPL are CUD and CUU to the first column; CHA, VPA and HVP are CUP with one coordinate kept; relative moves are absolute ones counted from the cursor |
| `TerminalSequences.MovedAndBack` | userland/bin/szponterm.c:550-565 | the bytes of a move with room and of its opposite leave the screen and history as they were |
| `TerminalSequences.CursorAddressed` | userland/bin/szponterm.c:587-595 | the bytes of CUP with row and column counted from one: the cursor is there or at the edge, nothing else changes |
| `TerminalSequences.VisitLeavesNoTrace` | userland/bin/szponterm.c:515-547 | the bytes for mode 1049 on, any text, and mode 1049 off give back grid, history, cursor and attributes |
| `TerminalControls.LinesInserted` | userland/bin/szponterm.c:622-624 | IL from its bytes: from the cursor line to the bottom margin the lines move down and blank ones open; outside the margins nothing happens; cursor and history stay |
| `TerminalControls.LinesDeleted` | userland/bin/szponterm.c:625-627 | DL from its bytes: lines from the cursor line on are cut out and blank ones enter at the bottom margin; cursor and history stay |
| `TerminalControls.ScrolledUp` | userland/bin/szponterm.c:637-639 | SU from its bytes: the lines between the margins move up, and those of a main screen without margins enter the history |
| `TerminalControls.ScrolledDown` | userland/bin/szponterm.c:640-642 | SD from its bytes: the lines between the margins move down; cursor and history stay |
| `TerminalControls.CharsEdited` | userland/bin/szponterm.c:628-636 | ICH, DCH and ECH from their bytes: the cursor line cut and joined, no other line changed, nothing past the end of a line |
| `TerminalControls.MarginsSet` | userland/bin/szponterm.c:643-654 | DECSTBM from its bytes: the margins for any two numbers, and the cursor home |
| `TerminalControls.FlagCodes` | userland/bin/szponterm.c:445-468 | SGR from its bytes: each code sets or clears its own flag or default colour and nothing else |
| `TerminalControls.ColourCodes` | userland/bin/szponterm.c:469-507 | the codes of the eight normal and eight bright colours, for text and background, name the first sixteen palette entries |
| `TerminalControls.ExtendedCodes` | userland/bin/szponterm.c:471-502 | extended colours by palette number and by three channels |
| `TerminalControls.Palette256` | userland/bin/szponterm.c:84-104 | the palette: sixteen fixed colours, the colour cube with its six levels, and the grey ramp |
| `TerminalControls.CodesInTurn` | userland/bin/szponterm.c:445-509 | a list of codes acts as its parts sent one after the other |
| `TerminalControls.ResizeShows` | userland/bin/szponterm.c:391-416 | a resized screen shows what both sizes share and blanks elsewhere, with the cursor clamped and the history kept |
| `TerminalControls.CellsFit` | userland/bin/szponterm.c:380-388 | a window gets as many columns and rows as fit between the paddings, within the limits |
| `TerminalBytes.ModeSet` | userland/bin/szponterm.c:515-546 | DECSET and DECRST from their bytes: three flags, three numbers that all switch the screen, and nothing for any other |
| `TerminalBytes.NoWrap` | userland/bin/szponterm.c:719-740 | without automatic wrapping a glyph after a full line replaces its last cell |
| `TerminalBytes.ReturnAndBackspace` | userland/bin/szponterm.c:695-708 | CR and BS from their bytes |
| `TerminalBytes.Tab` | userland/bin/szponterm.c:711-715 | HT goes to the next multiple of eight and skips none, or to the last column |
| `TerminalBytes.IndexSpelled` | userland/bin/szponterm.c:778-785 | IND moves down, and at the bottom margin does what SU does |
| `TerminalBytes.ReverseIndexSpelled` | userland/bin/szponterm.c:770-777 | RI moves up, and at the top margin does what SD does |
| `TerminalBytes.IndexUndone` | userland/bin/szponterm.c:770-785 | between the margins RI undoes IND |
| `TerminalBytes.NextLine` | userland/bin/szponterm.c:786-794 | NEL is CR and IND; LF, VT and FF do the same unless the cursor is below the bottom margin |
| `TerminalBytes.SaveAndRestore` | userland/bin/szponterm.c:754-769 | DECSC and DECRC, and the sequences ending in s and u, keep and bring back position and attributes |
| `TerminalBytes.CursorComesBack` | userland/bin/szponterm.c:754-769 | a cursor saved, moved and painted comes back as it was |
| `TerminalBytes.FullReset` | userland/bin/szponterm.c:795-798 | RIS gives an empty main screen of 80 by 25 with defaults, and keeps the history |
| `TerminalBytes.CharsetSwallowed` | userland/bin/szponterm.c:752-803 | character set designations leave the screen alone |
| `TerminalBytes.CommandSwallowed` | userland/bin/szponterm.c:826-838 | operating system commands of any length leave the screen alone |
| `TerminalLines.LinesShift` | userland/bin/szponterm.c:253-268 | the lines a full-screen scroll pushes off, then the screen after, are the screen before and blank lines |
| `TerminalLines.ScrollConservesLines` | userland/bin/szponterm.c:239-268 | line conservation: history and screen become their own continuation by blank lines, losing only the oldest beyond 2000 |
| `TerminalLines.LineFeedShows` | userland/bin/szponterm.c:697-705 | a newline opens the next row of the layout, on screen or through the history |
| `TerminalLines.GlyphShows` | userland/bin/szponterm.c:719-741 | a printable byte is appended to the last row of the layout |
| `TerminalLines.TextIsLaidOut` | userland/bin/szponterm.c:691-741 | any text on a blank screen of any size is shown as that text broken into rows with deferred wrap |
| `TerminalLines.ShowsAllLines` | userland/bin/szponterm.c:239-268 | a screen showing rows has as history and grid the last 2000 plus height of them, blank padded |
| `TerminalLines.FreshTextLines` | userland/bin/szponterm.c:364-377 | any text fed to a newly initialised terminal with no history: history followed by grid is the laid-out text, blank padded, cut to the last 2000 plus 25 lines |
| `TerminalLines.OneRow` | userland/bin/szponterm.c:718-740 | a text without newlines that fits is one row |
| `TerminalLines.NewlineSplits` | userland/bin/szponterm.c:697-704 | a newline ends a row, and the texts before and after it are laid out by themselves |
| `TerminalLines.FullRowSplits` | userland/bin/szponterm.c:719-730 | a full row ends when more text follows, and the rest is laid out by itself |
| `TerminalWidths.RunSteady` | userland/bin/szponterm.c:239-268 | over every byte stream without full reset, and over any stream at 80 columns, the history keeps the width of the screen and the view stays inside the history |
| `TerminalWidths.ResizeWidth` | userland/bin/szponterm.c:379-416 | a resize keeps the history as wide as the screen exactly if it does not change the width or there is no history |
| `TerminalWidths.ResetWidth` | userland/bin/szponterm.c:364-377 | a full reset does exactly if the screen had 80 columns or there is no history |
| `TerminalEdits.InsertDeleteLines` | userland/bin/szponterm.c:284-304 | deleting what was inserted gives back all lines but those pushed off the region; inserting what was deleted leaves only those blank; outside the region neither does anything |
| `TerminalEdits.RowsUpCuts` | userland/bin/szponterm.c:295-304 | moving up is cutting lines out of the list of visible lines and adding blank ones at the end of the region |
| `TerminalEdits.RowsDownOpens` | userland/bin/szponterm.c:284-293 | moving down is opening blank lines and dropping lines at the end of the region |
| `TerminalEdits.ScrollsCut` | userland/bin/szponterm.c:253-282 | SU and SD on any region, by the same two list operations |
| `TerminalEdits.CharsCut` | userland/bin/szponterm.c:306-334 | ICH, DCH and ECH by cutting and joining the cursor's line, clipped to its length; no other line changes |
| `TerminalHistory.RingPush` | userland/bin/szponterm.c:239-251 | writing one slot of the ring and moving head or count leaves the ring that holds one line more of all the lines ever scrolled off |
| `TerminalHistory.RingIsLast` | userland/bin/szponterm.c:239-251 | the ring stands for the last 2000 of those lines, oldest first |
| `TerminalHistory.RingShows` | userland/bin/szponterm.c:849-861 | every cell of a slot: the line's own, or beyond its width that of the latest earlier line of the slot that is wide enough, or a zero cell |
| `TerminalDevice.RowsUpMore` | userland/bin/szponterm.c:264-267 | moving up one row at a time, n times, is moving up by n at once |
| `TerminalDevice.RowsDownMore` | userland/bin/szponterm.c:278-281 | the same downwards |
| `TerminalDevice.Terminal.ScrollbackPush` | userland/bin/szponterm.c:239-251 | the history afterwards is the old one with the line, cut to the last 2000; one slot is written, and beyond the line's width it keeps the cells of the line it held before |
| `TerminalDevice.Terminal.DoScrollUp` | userland/bin/szponterm.c:253-268 | the row-by-row loop in place equals the closed form; lines reach the history, and the list of all lines ever scrolled off, only from a full-screen region of the main screen |
| `TerminalDevice.Terminal.DoScrollDown` | userland/bin/szponterm.c:270-282 | the loop equals the closed form |
| `TerminalDevice.Terminal.DoInsertLines` | userland/bin/szponterm.c:284-293 | the loop equals the closed form, nothing outside the region |
| `TerminalDevice.Terminal.DoDeleteLines` | userland/bin/szponterm.c:295-304 | the loop equals the closed form, nothing outside the region |
| `TerminalDevice.Terminal.DoInsertChars` | userland/bin/szponterm.c:306-314 | the cell loops equal the closed form on one row |
| `TerminalDevice.Terminal.DoDeleteChars` | userland/bin/szponterm.c:316-324 | the cell loops equal the closed form on one row |
| `TerminalDevice.Terminal.DoEraseChars` | userland/bin/szponterm.c:326-334 | the cells from the cursor, clipped to the line, are blank in the current colours |
| `TerminalDevice.Terminal.ClearAll` | userland/bin/szponterm.c:233-237 | all visible cells are blank, the rest of the buffer is untouched |
| `TerminalDevice.Terminal.SetAltScreen` | userland/bin/szponterm.c:336-362 | both copies between the two grid buffers; switching to the current screen does nothing |
| `TerminalDevice.Terminal.Init` | userland/bin/szponterm.c:364-377 | everything but the history and the view is as in a new terminal |
| `TerminalDevice.Terminal.DoResize` | userland/bin/szponterm.c:391-416 | only newly exposed cells are blanked; margins are the whole screen; the cursor is clamped |
| `TerminalDevice.Terminal.HandleSgr` | userland/bin/szponterm.c:445-509 | the loop that skips over extended colours equals the recursion over the parameter list |
| `TerminalDevice.Terminal.DoMoveCursor` | userland/bin/szponterm.c:550-595 | the in-place steps and clamps of the ten movement functions give the movement that `MovesCompose`, `MovesRelate` and `CursorAddressed` describe |
| `TerminalDevice.Terminal.DoEraseDisplay` | userland/bin/szponterm.c:596-612 | the in-place clearing loops give the erasure that `EraseDisplayCells` describes |
| `TerminalDevice.Terminal.DoEraseLine` | userland/bin/szponterm.c:613-621 | the in-place clearing loops give the erasure that `EraseLineCells` describes |
| `TerminalDevice.Terminal.DoSetRegion` | userland/bin/szponterm.c:643-654 | any parameters leave 0 <= top < bottom < rows, the whole screen if they make no region |
| `TerminalDevice.Terminal.ApplyModes` | userland/bin/szponterm.c:515-547 | the loop over private modes equals the recursion over the list |
| `TerminalDevice.Terminal.DoHandleCsi` | userland/bin/szponterm.c:511-689 | every final byte in place equals the closed form, and all buffers stay valid |
| `TerminalDevice.Terminal.DoPutByte` | userland/bin/szponterm.c:691-840 | one byte in any state equals the value-level step, and all buffers stay valid |
| `TerminalDevice.Terminal.WriteData` | userland/bin/szponterm.c:842-847 | a buffer of bytes equals the run, so every run theorem holds of the device |
| `TerminalDevice.Terminal.GetRenderRow` | userland/bin/szponterm.c:849-867 | which cells are drawn in a row for any view offset, a history row's cells beyond the line's width included; the drawn cells are that line of history and screen if and only if the line has the width of the screen; a row is missing exactly when the offset reaches past the oldest line |
| `TerminalDevice.Terminal.RenderRows` | userland/bin/szponterm.c:877-880 | the rows drawn are one contiguous stretch of history followed by screen if and only if every line of that stretch has the width of the screen |
| `TerminalDevice.WriteAndView` | userland/bin/szponterm.c:842-867 | any bytes written to a new terminal and then any view into its history: what is drawn is that stretch |
| `TerminalDevice.NarrowLineShowsZero` | userland/bin/szponterm.c:849-867 | an 80-column line looked at on a screen grown to 100 columns is followed by zero cells, not blank ones |
| `TerminalDevice.Terminal.ViewBack` | userland/bin/szponterm.c:1107-1114 | the view moves back at most to the oldest line and nothing else changes |
| `Qoi.Encode` | scripts/generate_panic_image.py:70-123 | round trip: a decoder written from the QOI chunk definitions reads the file back to the same width, height and pixels, for every opaque image; the bytes of the whole file |
| `Qoi.EncodePixels` | scripts/generate_panic_image.py:84-121 | the exact chunk stream, pixel by pixel, and a decoder of the specification reads it back to exactly the pixels |
| `Qoi.SlotSteps` | scripts/generate_panic_image.py:81-82 | the slot of a pixel: 0 for the empty pixel, and 3, 5, 7 or 11 further modulo 64 for one more of red, green, blue or alpha |
| `Qoi.OneMorePixel` | scripts/generate_panic_image.py:98-119 | the exact bytes of a pixel that is no repeat: its slot alone if the table holds it there, else its colour chunk, and the table holds it from then on |
| `Qoi.FedTakes` | scripts/generate_panic_image.py:84-121 | a decoder reading the chunks written so far is one pending run behind the encoder, for every list of opaque pixels |
| `Qoi.RunChunk` | scripts/generate_panic_image.py:88-96 | a run chunk repeats the last pixel and keeps the two tables in step although only the decoder stores run pixels |
| `Qoi.IndexChunk` | scripts/generate_panic_image.py:98-100 | an index hit means the same pixel to the decoder, slot 53 included |
| `Qoi.ColourStep` | scripts/generate_panic_image.py:101-119 | the difference, luma or colour chunk decodes to the pixel and both tables store it |
| `Qoi.ColourChunkDecodes` | scripts/generate_panic_image.py:101-119 | whichever of the three forms is chosen, the decoder reconstructs the pixel modulo 256 per channel |
| `Qoi.TablesDiffer` | scripts/generate_panic_image.py:78-86 | the tables are not always equal: after an initial run slot 53 holds opaque black for the decoder and the empty entry for the encoder |
| `Qoi.BigEndianReadsBack` | scripts/generate_panic_image.py:79 | the header's sizes read back |
| `QoiKernel.KernelReadsBack` | kernel/src/drivers/framebuffer.c:1533-1581 | the kernel reads the chunks of every opaque image back to its pixels, up to any count it asks for and whatever follows |
| `QoiKernel.FedRead` | kernel/src/drivers/framebuffer.c:1533-1581 | the kernel reader, which stores no run pixels, keeps exactly the table of the encoder after every pixel |
| `PanicImage.Draw` | kernel/src/drivers/framebuffer.c:1501-1582 | the drawing loop puts exactly the pixels the data stands for into the framebuffer, runs cut at the pixel count, and draws nothing without the magic bytes |
| `PanicImage.PaintedAt` | kernel/src/drivers/framebuffer.c:1574-1580 | every cell of the framebuffer: the image pixel shown there, centred and from row 12 on, or what was there before |
| `PanicImage.EncodeAndDraw` | kernel/src/drivers/framebuffer.c:1501-1582 | build time to screen: every pixel of an encoded image appears at its place and no other cell changes; of 2^32 pixels or more only the number modulo 2^32 is drawn |
| `CommandPath.Padvance` | userland/sh/exec.c:207-244 | one call hands out the first entry of the path with its option and leaves the rest, with percent signs special or, when the caller takes no option, ordinary; an empty entry is the current directory |
| `CommandPath.SearchMoves` | userland/sh/exec.c:390-443 | a match reached through absolute entries only is found from every directory |
| `CommandFiles.JoinedComponents` | userland/sh/exec.c:226-231 | a directory and a name are joined to one more component; without a directory the name stands alone |
| `CommandFiles.EntriesReadBack` | userland/sh/exec.c:207-244 | a search path written from directories and options reads back as those entries |
| `CommandFiles.FoundFirst` | userland/sh/exec.c:390-443 | over a file system given by components, the search finds entry i if and only if i is the first searched entry whose directory followed by the name is a regular file |
| `CommandFiles.CommandFound` | userland/sh/exec.c:345-463 | what a name stands for: a function, else a builtin, else the utility or function file in the first directory of the path that has it, else unknown, each if and only if |
| `CommandLookup.FindAgrees` | userland/sh/exec.c:345-463 | a lookup through a coherent cache gives the answer of a search without it and keeps it coherent; a function is never dropped or replaced by a builtin or location, only by the function that a lookup ignoring functions loads from a `%func` file |
| `CommandLookup.ApplyCoherent` | userland/sh/exec.c:495-541 | so do cd, PATH change, `hash -r`, rehash, definition, removal and a lookup under a temporary PATH |
| `CommandLookup.RunAgrees` | userland/sh/cd.c:312-323 | cache coherence over every run of these operations: the next lookup equals a fresh search under the current PATH and directory |
| `CommandLookup.FunctionStays` | userland/sh/exec.c:345-463 | over every run a function stays what it is, and is what a lookup finds, until it is defined again, removed, or loaded from a `%func` file by a lookup that ignores functions |
| `CommandLookup.CachedIndexRunsTheMatch` | userland/sh/exec.c:107-128 | executing from a cached index first tries exactly the file that was found |
| `CommandLookup.FirstName` | userland/sh/exec.c:107-128 | the walk skips the entries before the index and those with an option |
| `CommandTable.Table.CmdLookup` | userland/sh/exec.c:569-592 | a chain walk finds exactly the entries of the table and remembers the place |
| `CommandTable.Table.Enter` | userland/sh/exec.c:643-674 | the table gains or replaces one entry |
| `CommandTable.Table.DeleteCmdEntry` | userland/sh/exec.c:624-633 | exactly the entry last looked up is gone |
| `CommandTable.Table.ClearCmdEntry` | userland/sh/exec.c:521-541 | exactly the cached locations are gone |
| `CommandTable.Table.FindCommand` | userland/sh/exec.c:345-463 | answer, table and directory flag are those of the value-level lookup |
| `CommandTable.Table.HashCd` | userland/sh/exec.c:495-499 | locations are dropped only if one depends on the directory |
| `CommandTable.Table.UnsetFunc` | userland/sh/exec.c:683-693 | only a function is removed |
| `CommandTable.Table.RunOps` | userland/sh/exec.c:345-693 | any run of operations on the chains equals the run on the map and leaves the table coherent |
| `CommandTable.SearchPath` | userland/sh/exec.c:390-443 | the loop over the path finds the first match, its full name and option, and whether the way there depended on the directory |
| `WorkingDirectory.FindCwd` | userland/sh/cd.c:272-304 | from any absolute current directory, normalised or not, the string stack with its scans for slashes equals folding the components over a stack |
| `WorkingDirectory.PopComponent` | userland/sh/cd.c:293-294 | dropping back to the last slash pops one component, and nothing at the root |
| `WorkingDirectory.GetComponent` | userland/sh/cd.c:251-268 | hands out the first component and leaves the others |
| `WorkingDirectory.NormalForm` | userland/sh/cd.c:272-304 | from a normalised directory the result is absolute, has no empty, `.` or `..` component, resolving it again changes nothing, and no other normalised directory has that path |
| `WorkingDirectory.NormalIff` | userland/sh/cd.c:272-304 | from any absolute directory the result is normalised if and only if the path given is absolute or the components of the directory it leaves in place are proper |
| `WorkingDirectory.DoubledSlash` | userland/sh/cd.c:408-425 | with PWD=/a//b taken over at start-up, `..` gives /a/ and `../..` gives /a, one level too low |
| `WorkingDirectory.StackReadsBack` | userland/sh/cd.c:272-304 | the components of a normalised path are those it was made of |
| `WorkingDirectory.PathReadsBack` | userland/sh/cd.c:272-304 | the text of a directory resolves to that directory from anywhere |
| `WorkingDirectory.ResolveInSteps` | userland/sh/cd.c:272-304 | resolving a relative path after another equals resolving the two joined |
| `AliasTable.Table.Unalias` | userland/sh/alias.c:82-111 | exactly the named alias is gone, in use or not; the counter falls behind the number of aliases by one more if and only if the name is empty and a blanked entry is in its bucket |
| `AliasTable.EmptyNameHidesAlias` | userland/sh/alias.c:82-111 | a run of an alias in use, `unalias` of it, a new alias and `unalias ''`: the new alias is live and idle, the counter is zero, a lookup does not find it, and the listing collects one entry more than is counted |
| `AliasTable.Table.SetAlias` | userland/sh/alias.c:56-71 | the table as a map gains or replaces the alias, live names stay distinct and in their buckets, the counter stays as right as it was |
| `AliasTable.Table.RmAliases` | userland/sh/alias.c:114-135 | no alias is left and the counter is right again, whatever it was; exactly the entries in use stay linked, in their order, with a blank name |
| `AliasTable.Table.LookupAlias` | userland/sh/alias.c:138-153 | the first entry of the name unless the table counts no alias or the entry is in use and excluded; with a right counter that is the live alias of every proper name |
| `AliasTable.Table.CollectAliases` | userland/sh/alias.c:173-193 | the array filled for printing holds every live alias once; it is longer than the counter says by the removals of the empty name since all aliases were last removed |
| `ByteCopy.MemMove` | kernel/src/string.c:73-98 | for every overlap each destination byte is the old source byte and no other byte changes |
| `ByteCopy.MemCpy` | kernel/src/string.c:20-36 | the eight-byte steps are still right on overlapping ranges when copying downwards |
| `ByteCopy.MovedForward` | kernel/src/string.c:20-36 | moving a front part and then the rest is moving all, if the destination is below or apart |
| `ByteCopy.MovedBackward` | kernel/src/string.c:84-97 | moving the back part first is moving all, if the destination is above |
| `KernelPrint.Kvsnprintf` | kernel/src/kprint.c:56-161 | nothing outside the buffer is written and NUL follows the text printed, for every size; the value returned is the length of that text exactly if an int can hold it; in a size an int can hold as much of the text is printed as fits, and it is the start of the text if and only if no `%p` with a non-zero top digit is reached with room for one character |
| `KernelPrint.PrintedStarts` | kernel/src/kprint.c:56-161 | the pieces cut one by one to the room left make up the text cut once, or differ from it exactly at such a pointer |
| `KernelPrint.CutPointerExample` | kernel/src/kprint.c:136-144 | a kernel address printed into two characters is such a case |
| `KernelPrint.PutPointer` | kernel/src/kprint.c:136-144 | the prefix is dropped whole when it does not fit, and the digits are cut |
| `KernelPrint.FormatUint` | kernel/src/kprint.c:12-41 | the padded digits, cut to the room, then NUL, and nothing else touched |
| `KernelPrint.FormatInt` | kernel/src/kprint.c:43-54 | the same with the sign before the padding, the most negative value included |
| `KernelPrint.DigitsReadBack` | kernel/src/kprint.c:17-24 | the digits read back as the number in their base |
| `PrintLaws.DigitsShortest` | kernel/src/kprint.c:9-24 | the digits are the shortest numeral in the alphabet of their base and letter case |
| `PrintLaws.DirectiveReadsBack` | kernel/src/kprint.c:69-97 | a directive reads back as its zero flag, width, length and conversion |
| `PrintLaws.PrintsUnsigned` | kernel/src/kprint.c:121-135 | `%u`, `%x` and `%X`: the low 32 or 64 bits in base 10, base 16 with small letters, base 16 with capitals, filled to the width |
| `PrintLaws.PrintsSigned` | kernel/src/kprint.c:115-120 | `%d` and `%i`: the same bits as a signed number, the sign before the padding and inside the width |
| `PrintLaws.PrintsPointer` | kernel/src/kprint.c:136-144 | `%p`: all 64 bits in sixteen places of base 16 after `0x` |
| `PrintLaws.PrintsText` | kernel/src/kprint.c:99-114 | `%c`, `%s` with its null case, and the percent sign |
| `PrintLaws.LiteralPrinted` | kernel/src/kprint.c:63-67 | text without percent signs prints as it is |
| `KernelPrint.DigitsFit` | kernel/src/kprint.c:13-24 | a 64-bit value has at most 64 digits in any base, so the 65 characters suffice |
| `KernelPrint.TopPlace` | kernel/src/kprint.c:136-144 | a printed pointer has sixteen places and the first is zero exactly below 2^60 |

## Left out

- UntilIsWhileNot: not for every loop, because a return without an argument reads the last status; `UntilExample` is an input and `UntilExactly` the exact condition.
- UntilExactly: leaves out turns that begin by calling a function which itself begins with such a return; whether those loops agree depends on what the body makes of the status of the call, and `UntilIsWhileNot` does not claim it.
- DualityExactly: leaves out the same calls at the start of the right operand.
- NegatedTest: leaves out the same calls at the start of the branch that runs.
- Draw: the data is complete, that is, no chunk runs past its end, because the code does not check this; clearing the screen before, the copy to video memory after and the console cursor are not modelled.
- Unalias: the counter falls behind for `unalias ''` when a blanked entry is in the bucket of the empty name, and stays behind until all aliases are removed; the condition is exact and a failing run is `EmptyNameHidesAlias`.
- GetRenderRow: history and drawn rows differ after the width has changed; `RunSteady`, `ResizeWidth` and `ResetWidth` say exactly when it has, and `NarrowLineShowsZero` is an input.
- SetAlias: requires a non-empty name, because `aliascmd` refuses an empty argument and looks for `=` only after the first character (userland/sh/alias.c:209-224).
- EvaluateRendered: the literals of the tree are non-negative, since the lexer has no negative numbers.
- Encode: images with alpha other than 255 are not modelled, since the script makes every pixel opaque.
- RunStaysOnScreen: without resizes; a restore after a shrinking resize may put the cursor off the screen, and then only `RunInputs` applies.
- RunAgrees: the file system is fixed and every operation completes; a temporary PATH ended by an exception and the interrupt points inside an operation are not modelled.
- ResolveInSteps: the first path is not empty, because an empty path joined to another by a slash is an absolute path.
- MemCpy: models the portable form, not the inline assembly; memory is one array and address zero is the null pointer.
- Kvsnprintf: a null buffer and formats that end in the middle of a directive are not modelled, the latter because the code then reads past the end of the format; the width is an unbounded number.
- Shell arithmetic: `setvar` failures on read-only variables, `letcmd`, and the message texts.
- Tree evaluator: redirections, traps, jobs, errors other than illegal numbers, control builtins run through `command`, command substitution and the set-up of a simple command; child processes are an oracle returning a status.
- Terminal: device reports, the window title, X11 drawing, keyboard, selection and the PTY; control sequence parameters are unbounded numbers; a row is a value inside the grid array, so moves within a row are not modelled cell by cell in memory.
- Command table and alias table: a hash chain is a sequence in an array of buckets rather than linked nodes; the hash of characters above 127 follows their code, not a signed char.
- Command table: only the function named by the command is taken from a `%func` file; `hash` output, `type` and `itercmd`.
- `iteralias`, the alias commands' messages and sorting of the printed list.
- `cd`: the checks of each component on disk, CDPATH, and `getpwd`.
- Kernel: `memset` and the other string functions, the log ring, serial output and the rest of the framebuffer driver.
- QOI script: reading the BMP file and writing the C header.
- `userland/init`, the remaining userland programs, libc beyond number conversion, and the rest of the kernel.
