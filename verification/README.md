# Verified models of libqasm

libqasm reads cQASM programs and checks and simplifies them; beside it the repository holds a set of tools by which
the cQASM 1.0 grammar was prepared. The project models the parts with the most logic and proves what they promise.

**Grammar tools** (`doc/v1.0/qtools`). A grammar is a list of symbols, each with a list of rules; a derivation is a
forest of trees (`Grammar.dfy`). The tools are methods over one mutable `Grammar`, rewriting its rules in place:

- `Reachable.dfy`, `StartFollow.dfy`: marking of reachable symbols, start sets and follow sets, proved exact
- `SameRule.dfy`, `SqueezeSteps.dfy`, `SqueezeEnds.dfy`, `SqueezeDooms.dfy`, `Squeeze.dfy`, `SqueezeDecision.dfy`: inlining and
  removal of repeated rules, proved to keep every language, and to stop exactly on the grammars that are not doomed
- `Deempty.dfy`, `DeemptyMarks.dfy`, `DeemptyClean.dfy`, `DeemptyMeaning.dfy`: removal of the empty symbol; when exactly it
  keeps every language
- `Deebnf.dfy`, `Ebnf.dfy`, `DeebnfProcess.dfy`, `DeebnfMain.dfy`, `DeebnfMeaning.dfy`: removal of EBNF brackets; the plain
  rules generate what the EBNF expressions mean

**The cQASM 1.2 analyser** (`src/v1x`):

- `SemanticTree.dfy`, `SourceRuns.dfy`, `Sections.dfy`, `SourcePrograms.dfy`: what it means to execute a structured program, as
  a semantic tree and as it is written
- `Analysis.dfy`, `TreeParts.dfy`, `Legality.dfy`: which programs are legal and what their names and statements become
- `Pruning.dfy`, `PruningPlaces.dfy`, `LoopLegality.dfy`: what the analyser removes, when executions stay the same, and where
  break and continue end up
- `AnalyzerHelper.dfy`, `Program.dfy`, `ScopeStack.dfy`: the analyser itself as a class with its scope stack, subcircuits and
  gotos, lexical scoping
- `QubitRefs.dfy`, `Matrix.dfy`: indices, mappings and operands; matrices

**The cQASM 3 analyser** (`src/v3x`, `include/cqasm-overload.hpp`). `Promotion.dfy`: promotion and initialization lists;
`Overloads.dfy`, `Functions.dfy`: overload resolution and the typing of folded constants; `FunctionScopes.dfy`: scopes of
functions, `FunctionNames.dfy` what names and statements in them mean.

Five promises turned out not to hold for all inputs. Each comes with the exact condition under which it does and an input
on which it fails:

- `deempty` takes a symbol for possibly empty when all the evidence is a cycle through itself
  (`ExactWithoutPhantoms`, `KeptIffNoPhantoms`, `CycleGainsString`).
- `deempty` can leave a null rule behind, although the copies of rules it makes are meant never to be empty
  (`CleanEmpty`, `TrailingLeavesNull`).
- `squeeze` does not stop on every grammar: it stops exactly on those that are not doomed (`Squeeze`, `SqueezeFor`,
  `DoomedByMerging`), which can be decided beforehand (`IsDoomed`).
- `repeat ... until (true)` is replaced by its body even if a break or continue in it was bound to it
  (`RepeatOnce`, `BreakEscapes`): pruning is right in every place that may be reached exactly under the proviso `Tame`
  (`TameExactly`), which for a whole program suffices (`PruneRuns`, `ProgramKept`). At the top of a program splicing
  can leave a break or continue outside of any loop (`LegalAfterPruning`, `BreakLeftOver`).
- A function whose body has an error is registered all the same unless its return statements are wrong
  (`RegistersByStatement`, `RegisteredDespiteErrors`).

`check_promote` differs from `promote` on arrays (`PromoteDecided`).

## Model

| member | source | states |
|---|---|---|
| `Reachability.ReachTouch` | doc/v1.0/qtools/reachable.c:25-44 | On any closed grammar, cyclic ones included: marks only symbols that s reaches, and every newly marked symbol has all the symbols of its rules marked; the set of unmarked symbols is the termination measure. |
| `Reachability.MarkReachable` | doc/v1.0/qtools/reachable.c:20-44 | reachsetup followed by reachtouch(head): a symbol is TOUCHED exactly if a path through rule bodies leads to it from head, and every other symbol is UNTOUCHED. |
| `Reachability.ReachesDerives` | doc/v1.0/qtools/reachable.c:25-44 | What reachability means: every symbol on a path through rule bodies occurs in a sentential form derived from the start of the path. |
| `StartFollow.AddSymbols` | doc/v1.0/qtools/startfollow.c:29-48 | The union of one set into another through the live list cells, also when a set is merged into itself: the members are the union, without repetition and in order of arrival, and `changed` is raised exactly if something was added. |
| `StartFollow.StartsExact` | doc/v1.0/qtools/startfollow.c:54-81 | At the fixed point, t is in the start set of a marked symbol a exactly if t is a terminal and a derives a sentential form that begins with t; left recursion included. |
| `StartFollow.FollowsExact` | doc/v1.0/qtools/startfollow.c:87-150 | At the fixed point, t is in the follow set of a marked symbol x exactly if t is a terminal and some sentential form derived from head has x immediately followed by t. |
| `StartFollow.StartAndFollow` | doc/v1.0/qtools/startfollow.c:156-164 | The whole tool, whose loops terminate: for every symbol reachable from head both sets are exact in the above sense, provided no reachable rule is null. |
| `SameRules.SameRule` | doc/v1.0/qtools/samerule.c:21-33 | True exactly for equal rule bodies. |
| `Squeezing.Substitute` | doc/v1.0/qtools/squeeze.c:55-78 | Overwriting element e and copying the rest of the single rule behind it leaves the rules with that element replaced by the whole rule body, and the walk on the last copied element. A symbol may occur in its own single rule: in front this holds all the same, anywhere else - and only then - the copying never comes to an end. |
| `Squeezing.CopiesForever` | doc/v1.0/qtools/squeeze.c:66-76 | The copying loop on a rule that is its own source, from an element that is not in front: after any number of copied elements there is another one to copy. |
| `SqueezeSteps.InlineKeeps` | doc/v1.0/qtools/squeeze.c:55-78 | One substitution leaves the set of terminal strings of every sentential form unchanged, and turns every derivation into one that is no longer. |
| `SqueezeEnds.InlineLightens` | doc/v1.0/qtools/squeeze.c:37-83 | Give each symbol with a single rule more weight than its rule: one substitution strictly lowers the total weight of all rules, and the weights remain fit. |
| `SqueezeEnds.WeighableExactly` | doc/v1.0/qtools/squeeze.c:37-83 | Such weights exist if and only if there is no cycle of single rules: no non-empty set of symbols with a single non-null rule each that mentions the set again. |
| `SqueezeEnds.CycleInlined` | doc/v1.0/qtools/squeeze.c:37-83 | Every substitution keeps a cycle of single rules. (Of the uses of a symbol in its own single rule only the one in front is such a substitution in the code; for the others see CopiesForever.) |
| `Squeezing.SqueezeSymbols` | doc/v1.0/qtools/squeeze.c:37-83 | The substitution phase on any grammar. A pass keeps every language, the terminals and the number of rules. Without a cycle of single rules every pass ends, and lowers the total weight unless it substitutes nothing, in which case no element names a symbol with exactly one non-null rule; with a cycle no pass is the last, as it fails to end or substitutes something and leaves a cycle. So repeating passes ends exactly if there is no cycle. |
| `Squeezing.SqueezeRules` | doc/v1.0/qtools/squeeze.c:85-114 | Each symbol keeps the same set of rules with no rule twice, and the change flag is raised exactly if something was removed. |
| `SqueezeDooms.InlinedDoomed` | doc/v1.0/qtools/squeeze.c:37-83 | Call forms alike under the least congruence that makes a symbol alike to its rules once these are non-null and alike among themselves, and a grammar doomed if a non-empty set of symbols has such rules, one rule of each mentioning the set again. No substitution makes a grammar doomed or ceases to be. |
| `SqueezeDooms.DeduplicatedDoomed` | doc/v1.0/qtools/squeeze.c:85-114 | Removing repeated rules neither dooms a grammar nor saves it. |
| `SqueezeDooms.SettledNotDoomed` | doc/v1.0/qtools/squeeze.c:120-128 | Where squeeze has nothing left to do, the grammar is not doomed. |
| `SqueezeDooms.DoomedForever` | doc/v1.0/qtools/squeeze.c:120-128 | From a doomed grammar no sequence of substitutions and removals, in any order and of any length, leads to one where nothing is left to do. |
| `Squeezing.Squeeze` | doc/v1.0/qtools/squeeze.c:120-128 | On every grammar that is not doomed the loop terminates, all languages are kept, no symbol has two equal rules, and no element names a symbol with exactly one non-null rule. |
| `Squeezing.SqueezeFor` | doc/v1.0/qtools/squeeze.c:120-128 | On every grammar, however many rounds are allowed: if the loop is done the result is as above and the grammar was not doomed. With Squeeze: squeeze stops if and only if the grammar is not doomed. |
| `SqueezeDecision.IsDoomed` | doc/v1.0/qtools/squeeze.c:120-128 | Being doomed is decidable beforehand, for every grammar: the rounds of squeeze on a copy, given up before the first substitution on a grammar with a cycle of single rules, always end, and end at such a cycle if and only if the grammar was doomed. |
| `SqueezeDecision.FindCycle` | doc/v1.0/qtools/squeeze.c:37-83 | Decides whether there is a cycle of single rules, which is exactly when the substitution phase does not stop, by dropping symbols that cannot be on one. |
| `SqueezeDooms.DoomedBarren` | doc/v1.0/qtools/squeeze.c:120-128 | Every rule of every doomed symbol mentions a doomed symbol, so that none of them generates any string. |
| `SqueezeDooms.ProductiveNotDoomed` | doc/v1.0/qtools/squeeze.c:120-128 | If every symbol generates some string, squeeze stops. |
| `SqueezeDooms.UnproductiveSettled` | doc/v1.0/qtools/squeeze.c:120-128 | Not only then: a ::= x a / y a generates nothing, and squeeze leaves it alone. |
| `SqueezeDooms.DoomedByMerging` | doc/v1.0/qtools/squeeze.c:120-128 | A concrete failing grammar without any cycle of single rules at first: a ::= x a / y a, x ::= z, y ::= z is doomed. |
| `Deempting.CheckEmpty` | doc/v1.0/qtools/deempty.c:65-142 | One update raises the rule marks of s to the maximum over their elements' marks and gives s the mark that its rules add up to; `change` is raised exactly if a mark changed. |
| `Deempting.CheckRound` | doc/v1.0/qtools/deempty.c:265-273 | One pass over the symbol list only raises marks in ISEMPTY < CANBEEMPTY < NONEMPTY, of symbols and of rules; the change flag is raised exactly if a mark changed, and after a pass without a change no call of checkempty would change one. |
| `Deempting.MarkAll` | doc/v1.0/qtools/deempty.c:249-273 | The marking loop terminates, at marks that lie below all marks that suffice (terminals but the empty symbol NONEMPTY, no rule below any of its elements, no symbol below what its rules add up to). There a rule is ISEMPTY exactly if all its elements are, and NONEMPTY exactly if one is. |
| `Marks.MarkedSuffices` | doc/v1.0/qtools/deempty.c:249-273 | The marks that the loop ends with suffice themselves: with MarkAll, they are the least fixed point. |
| `Marks.MarksUnique` | doc/v1.0/qtools/deempty.c:249-273 | The grammar alone decides every mark of every symbol and rule. |
| `Marks.MarksMean` | doc/v1.0/qtools/deempty.c:249-273 | A symbol is ISEMPTY if and only if it reaches no terminal but the empty symbol, and NONEMPTY if and only if it belongs to no set of symbols that are each the empty symbol or have a rule made of members only. |
| `DeemptyMeaning.NullableUnmarked` | doc/v1.0/qtools/deempty.c:249-273 | A symbol that derives the empty string is never NONEMPTY. |
| `DeemptyMeaning.ExactWithoutPhantoms` | doc/v1.0/qtools/deempty.c:249-273 | The marks are exact - not NONEMPTY if and only if the empty string is derived - exactly for the grammars without a phantom: a set of symbols that do not derive the empty string, each with a rule made only of such symbols and of symbols that do. |
| `Cleaning.DupMinus` | doc/v1.0/qtools/deempty.c:144-185 | The copy of rule p without element e is linked behind p with p's mark, unless it is null or equal to some rule of s; nothing else changes. |
| `Cleaning.CleanEmpty` | doc/v1.0/qtools/deempty.c:187-232 | Although rules are inserted into the list while it is walked and repeats are refused, the walk terminates and the rules of s become exactly the rules obtained from the old ones by dropping ISEMPTY elements and any choice of CANBEEMPTY ones, short of the null rule; a null rule is left exactly under the condition LeavesNull on the old rules. |
| `DeemptyMeaning.StringsSurvive` | doc/v1.0/qtools/deempty.c:275-299 | Every non-empty string of every symbol is generated after deempty too, phantoms or not. |
| `DeemptyMeaning.KeptIffNoPhantoms` | doc/v1.0/qtools/deempty.c:238-300 | deempty keeps the language of every symbol up to the empty string, whose former presence the marks record, if and only if the grammar has no phantom. |
| `DeemptyMeaning.HeadWhole` | doc/v1.0/qtools/deempty.c:282-299 | A distinguished symbol that is CANBEEMPTY generates after the repair exactly the strings it generated before. |
| `DeemptyMeaning.EmptyGone` | doc/v1.0/qtools/deempty.c:282-299 | If the distinguished symbol is NONEMPTY, no sentential form derived from it contains the empty symbol any more. |
| `DeemptyMeaning.Deempty` | doc/v1.0/qtools/deempty.c:238-300 | The whole tool: without an empty symbol nothing changes; otherwise the rules are rewritten as above, head is eliminated if and only if it reaches no terminal but the empty symbol, the empty symbol stays if and only if head may be empty but is not eliminated, and languages are kept if and only if there is no phantom. |
| `DeemptyMeaning.CycleGainsString` | doc/v1.0/qtools/deempty.c:65-142 | A concrete failing grammar: s ::= y a, a ::= a a / x gains the string y. |
| `DeemptyMeaning.TrailingLeavesNull` | doc/v1.0/qtools/deempty.c:187-232 | A null rule is left behind for a ::= b empty with b possibly empty, but not for a ::= empty b. |
| `Deebnfing.ExtractUntil` | doc/v1.0/qtools/deebnf.c:146-262 | The group that opens at an element, found by counting its own bracket kind across production boundaries, becomes the rules of a new symbol in its place; what follows the closing bracket and the productions not taken stay; null productions get the empty symbol. No message is written exactly if the bracket is closed and no production of the group is null. |
| `DeebnfMain.AddEmptyRule` | doc/v1.0/qtools/deebnf.c:264-285 | The empty rule comes first; without an empty symbol there is a message and no change. |
| `DeebnfMain.MakeIterative` | doc/v1.0/qtools/deebnf.c:287-315 | Each rule of s is extended by s, and the empty rule is put first. |
| `Ebnf.ExtractGroup` | doc/v1.0/qtools/deebnf.c:188-236 | On the layout of any properly bracketed expression, whatever brackets of the same or other kinds it nests, the scan takes out exactly the layout of the group and leaves exactly the layout of the rest. |
| `DeebnfMain.Process` | doc/v1.0/qtools/deebnf.c:317-397 | Terminates on every input by the number of brackets ahead, and leaves s and all new symbols without brackets and every other symbol as it was. If the rules were the layout of an expression they come to stand for it, without a message; without a message they were such a layout. |
| `DeebnfMain.LayoutUnique` | doc/v1.0/qtools/deebnf.c:1-15 | A list of productions is the layout of at most one EBNF expression, so 'the EBNF reading' of a grammar is well defined. |
| `DeebnfMain.Deebnf` | doc/v1.0/qtools/deebnf.c:403-425 | Terminates on every input and leaves no bracket in any rule. It stays silent, given an empty symbol, exactly if the brackets are terminals and the rules of all symbols are properly bracketed without null alternatives inside brackets; each such symbol's rules then stand for its expression. |
| `DeebnfMeaning.EbnfKept` | doc/v1.0/qtools/deebnf.c:1-15 | Meaning preserved: for every sentential form of the old grammar, the strings generated under the EBNF reading of the old rules (groups, options, repetitions, arbitrarily nested) are exactly those generated by the new plain rules, the empty symbol standing for nothing. |
| `AnalyzerHelpers.AnalyzerHelper.AnalyzeStatements` | src/v1x/cqasm-analyzer-helper.cpp:260-288 | Whatever errors occur, the scope stack keeps its depth and all outer scopes, and the mappings end as the statements define them. No error is reported exactly if all rules hold, in dead branches too; then the current block or the subcircuits have grown by exactly the pruned form of the resolved statements, and the gotos by all their targets. |
| `AnalyzerHelpers.AnalyzerHelper.AnalyzeSubblock` | src/v1x/cqasm-analyzer-helper.cpp:294-315 | A subblock leaves the scope stack and the subcircuits untouched; inside, the mappings are those of the scope around, and the loop flag is that scope's or the block's own. |
| `AnalyzerHelpers.AnalyzerHelper.AnalyzeInstruction` | src/v1x/cqasm-analyzer-helper.cpp:472-723 | Without an error the instruction is there with its resolved operands unless its condition is constant false; an error is reported exactly if an operand, target or condition breaks a rule; the target of a goto is recorded even when the goto is dropped. In the instruction each expression has become what it resolves to in its place: the operands in order, the left-hand side of an assignment on the left, and true where there is no condition. |
| `AnalyzerHelpers.AnalyzerHelper.AnalyzeItems` | src/v1x/cqasm-analyzer-helper.cpp:405-414 | The instructions of a bundle that are not constant false, in order, each error being reported and passed over. |
| `AnalyzerHelpers.AnalyzerHelper.AnalyzeBundle` | src/v1x/cqasm-analyzer-helper.cpp:392-464 | A bundle of which no instruction is left is not added. |
| `AnalyzerHelpers.AnalyzerHelper.AnalyzeMapping` | src/v1x/cqasm-analyzer-helper.cpp:790-801 | A mapping that resolves replaces any earlier one of that name, regardless of case, in the current scope only; otherwise there is an error and no change. |
| `AnalyzerHelpers.AnalyzerHelper.AnalyzeSubcircuit` | src/v1x/cqasm-analyzer-helper.cpp:859-888 | Opens a subcircuit only at the top and with a positive constant count: an empty one of that name behind the others, with exactly that count, or with one if none is given. |
| `AnalyzerHelpers.AnalyzerHelper.AnalyzeForLoop` | src/v1x/cqasm-analyzer-helper.cpp:1015-1050 | The loop has the assignment before it in the first place and that after each pass in the second, each with what its sides resolve to; it is there whatever its condition. |
| `AnalyzerHelpers.AnalyzerHelper.AnalyzeForeachLoop` | src/v1x/cqasm-analyzer-helper.cpp:1057-1084 | The counter and the two bounds are what their expressions resolve to, in this order. |
| `AnalyzerHelpers.AnalyzerHelper.RemoveConstants` | src/v1x/cqasm-analyzer-helper.cpp:976-998 | The removal loop leaves the branches that are not constant, up to the first constant true one, whose block becomes the otherwise block. |
| `AnalyzerHelpers.AnalyzerHelper.AnalyzeIfElse` | src/v1x/cqasm-analyzer-helper.cpp:949-1009 | All conditions are boolean and all bodies obey the rules exactly if there is no error; then the pruned if-else, or in its place the statements of the one block that can run, is what the current block gains. |
| `AnalyzerHelpers.AnalyzerHelper.AnalyzeWhileLoop` | src/v1x/cqasm-analyzer-helper.cpp:1084-1107 | A while(false) is dropped, its body having been checked. |
| `AnalyzerHelpers.AnalyzerHelper.AnalyzeRepeatUntilLoop` | src/v1x/cqasm-analyzer-helper.cpp:1113-1141 | A repeat-until(true) gives way to the statements of its body; the condition is resolved outside the body. |
| `Pruning.PruneRuns` | src/v1x/cqasm-analyzer-helper.cpp:405-458 | For every outcome of the dynamic conditions and every bound on iterations, the pruned block makes the same tests, executes the same actions and ends in the same way as the block, if, in places that may be reached, no break can leave the body of a repeat-until(true), and a continue only where nothing follows in the loop around. |
| `Pruning.RepeatOnce` | src/v1x/cqasm-analyzer-helper.cpp:1113-1141 | Splicing the body of a repeat-until(true) into its surroundings is right if and only if neither break nor continue is among the ends of the body that May computes from its syntax. |
| `Pruning.MayExec` | src/v1x/cqasm-analyzer-helper.cpp:896-943 | No execution of a block ends in a way that May does not list, save by running out of test outcomes or iterations. |
| `Pruning.Reach` | src/v1x/cqasm-analyzer-helper.cpp:896-943 | Every end that May lists is reached by some outcomes of the tests, so May is exact. |
| `Pruning.PruneNormal` | src/v1x/cqasm-analyzer-helper.cpp:949-1141 | What pruning leaves has no constant false instruction, no empty bundle, no constant branch, no while(false) and no repeat-until(true), at any depth. |
| `Pruning.BreakEscapes` | src/v1x/cqasm-analyzer-helper.cpp:1131-1138 | A concrete failing program: in while (x) { repeat { break } until (true); act } the break leaves the outer loop once the inner one is spliced. |
| `PruningPlaces.TameExactly` | src/v1x/cqasm-analyzer-helper.cpp:1113-1141 | The proviso of PruneRuns is exact place by place: it holds if and only if every statement that may be reached, at any depth, runs in its place like what it is pruned to. |
| `PruningPlaces.RightByChance` | src/v1x/cqasm-analyzer-helper.cpp:1113-1141 | For a whole program the proviso is not necessary: while (x) { repeat { break } until (true); break } runs alike before and after. |
| `LoopLegality.LegalAfterPruning` | src/v1x/cqasm-analyzer-helper.cpp:1113-1141 | What the analyser accepts outside of a loop is pruned to a block whose breaks and continues all stand in loops if and only if no repeat-until(true) that stands outside of a loop lets a break or continue escape; what stands in a branch that constant conditions of an if-else rule out does not count, what stands behind a statement that never ends does. |
| `LoopLegality.BreakLeftOver` | src/v1x/cqasm-analyzer-helper.cpp:1113-1141 | A concrete failing program: repeat { break } until (true) is accepted at the top and pruned to a break outside of any loop. |
| `ScopeStack.LexicalScoping` | src/v1x/cqasm-resolver.cpp:25-55 | What analyze_statements makes of any block with its copied scopes - whether there is an error, the statements gained and the goto targets - is what becomes of the same block without any mappings once every name in it, at any depth, has given way to its latest binding in the innermost block that binds it. |
| `Programs.CheckNames` | src/v1x/cqasm-analyzer-helper.cpp:46-63 | Reports an error exactly if two subcircuits have one name, and collects the names. |
| `Programs.ResolveGotos` | src/v1x/cqasm-analyzer-helper.cpp:65-78 | Reports an error exactly if some goto names no subcircuit. |
| `SourceRuns.ElabRuns` | src/v1x/cqasm-analyzer-helper.cpp:260-288 | The statements are resolved to trees that do what they say: for all outcomes of the tests and every bound on iterations, the tree of a block makes the same tests, executes the same instructions and ends in the same way as the block itself, read as it is written, with names looked up on the way. |
| `SourceRuns.ForeachCounts` | src/v1x/cqasm-analyzer-helper.cpp:1057-1084 | A foreach loop with nothing in its body counts from its first bound to its second, up or down, both included. |
| `TreeParts.GotosExact` | src/v1x/cqasm-analyzer-helper.cpp:674-700 | The targets collected for linking are exactly those of the gotos that the resolved tree holds, at any depth. |
| `Legality.LegalExactly` | src/v1x/cqasm-analyzer-helper.cpp:260-288 | The rules, neither stricter nor laxer: a list of statements is legal if and only if its expressions resolve where they stand, to constants where one is needed, with subcircuits at the top and positive counts, and the tree has boolean conditions, assignments only to what can be assigned and of the same kind, integer counters that can be assigned, and break and continue in loops. |
| `Legality.LegalTrees` | src/v1x/cqasm-analyzer-helper.cpp:260-288 | Pruned or not, and at any depth, for-heads included, the trees of legal programs assign only to what can be assigned, a value of the same kind, and test only booleans. |
| `Sections.AssembleSections` | src/v1x/cqasm-analyzer-helper.cpp:859-888 | The subcircuits of a program are, in order, the sections that its headers begin, each holding exactly what the statements up to the next header become; one without a name comes first exactly if the statements before the first header become anything. |
| `Sections.SectionHeads` | src/v1x/cqasm-analyzer-helper.cpp:859-888 | The names and counts of the sections are those of the headers in order, each count being the constant its expression has under the mappings there, or one. |
| `Programs.ProgramRuns` | src/v1x/cqasm-analyzer-helper.cpp:18-80 | The subcircuits of a program, before pruning, run as often and in the order and with the gotos that the program says as it is written. |
| `Programs.AssembledJumps` | src/v1x/cqasm-analyzer-helper.cpp:65-78 | Once all targets are found, no execution of any subcircuit jumps to a name that is not there. |
| `Programs.AnalyzeProgram` | src/v1x/cqasm-analyzer-helper.cpp:18-80 | The analysis is silent exactly if the program obeys the rules, no two subcircuits share a name and every goto has a target; the result then holds the pruned sections of the program, in order, with positive counts and legal trees, every jump finds its target, and it runs like the program as it is written for all outcomes of the tests, under the proviso on repeat-until(true) for every subcircuit. |
| `Programs.ProgramKept` | src/v1x/cqasm-analyzer-helper.cpp:18-80 | Whole runs over all subcircuits, with their iteration counts and gotos between them, are the same before and after pruning, although a default subcircuit may disappear, if the proviso of PruneRuns holds for every subcircuit. |
| `QubitRefs.AnalyzeIndexList` | src/v1x/cqasm-analyzer-helper.cpp:1369-1411 | Succeeds exactly if every index and both ends of every range lie within the register and no range runs backwards; the result is the selection the entries spell out, in order. |
| `QubitRefs.SelectionAt` | src/v1x/cqasm-analyzer-helper.cpp:1369-1411 | Entry by entry in order: a single index selects itself, and a range all indices from its first to its last, one after the other; nothing else is selected. |
| `QubitRefs.SelectionMembers` | src/v1x/cqasm-analyzer-helper.cpp:1369-1411 | An index is selected if and only if it is a single index of the list or lies in one of its ranges, ends included. |
| `QubitRefs.IndexedName` | src/v1x/cqasm-analyzer-helper.cpp:1338-1364 | A name that stands for a register, with one index list: qubits stay qubits and bits stay bits, and the k-th index of an entry gives the element of the register it names. |
| `QubitRefs.AnalyzeRef` | src/v1x/cqasm-analyzer-helper.cpp:1338-1364 | A nested index expression yields qubits or bits as its innermost name does, found regardless of case, selected by the composition of its index lists; it fails exactly if the name is unknown, what it stands for is no reference, or some list is out of range. |
| `QubitRefs.ComposeTwice` | src/v1x/cqasm-analyzer-helper.cpp:1338-1364 | Indexing an indexed register is indexing the register by the composed selection. |
| `QubitRefs.AnalyzeQubits` | src/v1x/cqasm-analyzer-helper.cpp:157-183 | With a positive number of qubits q and b stand for all the qubits and all the measurement bits; otherwise there is an error and neither is mapped. |
| `QubitRefs.InitiallyAll` | src/v1x/cqasm-analyzer-helper.cpp:157-183 | Under q and b, element k is qubit k and bit k, for every k below the number of qubits and no other. |
| `QubitRefs.LastMappingHolds` | src/v1x/cqasm-analyzer-helper.cpp:790-801 | A name means what the last map statement that maps it resolves to where it stands. |
| `QubitRefs.NeverMapped` | src/v1x/cqasm-analyzer-helper.cpp:790-801 | A name that no map statement maps means what it meant before. |
| `Analysis.LowerSame` | src/v1x/cqasm-resolver.cpp:25-55 | Two names are the same exactly if they are letter by letter, in whatever case. |
| `QubitRefs.AnalyzeMappings` | src/v1x/cqasm-analyzer-helper.cpp:790-801 | The mappings that the qubits statement and a sequence of map statements lead to: later mappings of a name, in whatever case, replace earlier ones, and one in error maps nothing. |
| `QubitRefs.ReferencesInRange` | src/v1x/cqasm-analyzer-helper.cpp:1338-1411 | After any sequence of map statements, through any chain of mappings and nested indices, every qubit or bit reference that resolves is non-empty with all its indices in [0, n), for every n that the qubits statement may give. |
| `QubitRefs.CheckReusedQubits` | src/v1x/cqasm-analyzer-helper.cpp:515-527 | Accepts exactly the operand lists whose qubits are pairwise distinct across all operands. |
| `QubitRefs.DistinctExactly` | src/v1x/cqasm-analyzer-helper.cpp:515-527 | That is: no operand names a qubit twice and no two operands share one. |
| `QubitRefs.CheckIndexSizes` | src/v1x/cqasm-analyzer-helper.cpp:529-563 | Accepts exactly the operand lists whose qubit and bit references all have the same number of indices. |
| `QubitRefs.CheckOperands` | src/v1x/cqasm-analyzer-helper.cpp:515-563 | Both checks together, each unless the instruction type allows what it forbids. |
| `QubitRefs.OperandsInRange` | src/v1x/cqasm-analyzer-helper.cpp:472-478 | Whatever operand expressions resolve to, after any sequence of map statements, every reference among the operands is non-empty and within the register, as are all the qubits they name together. |
| `QubitRefs.AnalyzeOperands` | src/v1x/cqasm-analyzer-helper.cpp:472-563 | Operands resolved in order and then checked: succeeds exactly if all resolve and the checks that apply accept them. An accepted instruction that may not reuse qubits names pairwise distinct qubits of [0, n), and no more than n. |
| `Promotion.PromoteDecided` | src/v3x/cqasm-values.cpp:28-150 | Whether a value can be promoted depends on its type and size alone: exactly if check_promote allows it or it is one of the promotions of arrays; check_promote agrees with promote exactly outside the latter. |
| `Promotion.PromoteCoherent` | src/v3x/cqasm-values.cpp:28-134 | Promoting in two steps gives what promoting in one step gives, whenever both steps succeed, however integers are rounded to doubles. |
| `Promotion.CheckPromoteOrder` | src/v3x/cqasm-values.cpp:139-150 | check_promote is an order: transitive, and antisymmetric. |
| `Promotion.PromotedType` | src/v3x/cqasm-values.cpp:28-134 | The promoted value has the type asked for exactly if the types were equal or it is a constant and the type is not axis; its size never changes. |
| `Promotion.PromotionChains` | src/v3x/cqasm-values.cpp:28-134 | A value of another type can be promoted exactly along bool, int, float, complex, or along the arrays of the first three, or from an array of three elements to axis. |
| `Promotion.PromotedValue` | src/v3x/cqasm-values.cpp:28-134 | True becomes 1 and false 0, a number its conversion, a complex number has no imaginary part; arrays are promoted element by element, and what is only known at run time stays as it is. |
| `Promotion.InitializationList` | src/v3x/AnalyzeTreeGenAstVisitor.cpp:714-753 | Fails exactly for an empty list or an element that is not a constant bool, int or float; otherwise gives the array of the least type all elements promote to, of the same length, each element in its place and equal to its own promotion. |
| `Promotion.BuildArray` | src/v3x/AnalyzeTreeGenAstVisitor.cpp:691-703 | The array built for a type has every value promoted to it, in order. |
| `Overloads.ResolveOverload` | include/cqasm-overload.hpp:106-126 | Fails exactly if no overload is applicable; otherwise chooses the last applicable one and returns its tag with every argument promoted to its parameter. |
| `Overloads.OverloadedNameResolver.AddOverload` | include/cqasm-overload.hpp:158-166 | Appends the overload to those of its name, and to no other. |
| `Overloads.OverloadedNameResolver.Resolve` | include/cqasm-overload.hpp:175-180 | As for one name, failing also for an unknown name. |
| `Overloads.LeastChosen` | include/cqasm-overload.hpp:74-126 | If the more specific of two overloads of the same length always comes later, the overload chosen depends on the argument types alone and is pointwise the least of all applicable ones. |
| `Overloads.OrderMatters` | include/cqasm-overload.hpp:74-98 | In the opposite order the float overload is chosen for two integers. |
| `Functions.RegisterDefaults` | src/v3x/cqasm-functions.cpp:8-80 | Each function name ends up with exactly its registered overloads, in the order of registration. |
| `Functions.DefaultsOrdered` | src/v3x/cqasm-functions.cpp:8-80 | In the default registrations, a later overload of a name and length is never coarser than an earlier one. |
| `Functions.LeastDefault` | src/v3x/cqasm-functions.cpp:8-80 | For every default function and all arguments, the overload that runs is pointwise the least applicable one under bool, int, float. |
| `Functions.ChosenTakes` | include/v3x/cqasm-functions.hpp:26-80 | Whatever overload of a default function is chosen for constants, its implementation gets constants of exactly its parameter types; and the check that its arguments are constants fails exactly if one of those given is not. |
| `Functions.WellTypedSome` | include/v3x/cqasm-functions.hpp:34-80 | What Fold asks of the implementations - from constants of the parameter types of a registration they make a constant of its result type - can be met. |
| `Functions.Fold` | src/v3x/cqasm-resolver.cpp:88-94 | For every expression over the default functions, folding succeeds exactly if a type checker that never sees a value says so and every call in it is on constants; the value has the type that checker predicts and is a constant exactly if the operands are, whatever the implementations compute. It folds to v if and only if v is the value of the expression: that of a call is what the last applicable overload computes from the values of the operands, each in its place and promoted to its parameter. |
| `Functions.Apply` | src/v3x/cqasm-resolver.cpp:88-94 | A call on values yields exactly what the implementation of the last applicable overload computes from them in their order, promoted to its parameters, and nothing if there is none or one of them is no constant. |
| `Functions.ExactComputes` | src/v3x/cqasm-functions.cpp:8-80 | Constants of exactly the parameter types of a registration are given, as they are, to the implementation registered for them. |
| `Functions.DifferenceEvaluates` | include/v3x/cqasm-functions.hpp:26-80 | For all integers a and b, a - b has the value a - b, if the integer version of the function subtracts its second argument from its first. |
| `Functions.QuotientEvaluates` | include/v3x/cqasm-functions.hpp:26-80 | An integer divided by a float is divided as a float. |
| `FunctionScopes.Analyzer.ResolveVariable` | src/v3x/cqasm-analyzer.cpp:192-201 | Fails exactly if no frame has a variable of that name, and otherwise finds the one in the frame before which, counted from the current one, none has the name. |
| `FunctionNames.NamesInFunction` | src/v3x/AnalyzeTreeGenAstVisitor.cpp:231-280 | Anywhere in a function, a name stands for the last parameter or local variable of that name brought in so far, whatever the frames around hold, and if there is none for what it is around. |
| `FunctionNames.ParameterShadows` | src/v3x/cqasm-analyzer.cpp:192-201 | A function that returns its parameter of type int is registered although a mapping around has the name of the parameter. |
| `FunctionNames.BuildExactly` | include/v3x/AnalyzeTreeGenAstVisitor.hpp:95-130 | A written type is refused exactly for an unknown name or, except for axis, a size that is not positive; a size makes it the array of that many elements. |
| `FunctionNames.AssignsExactly` | src/v3x/AnalyzeTreeGenAstVisitor.cpp:142-169 | The same acceptance in terms of types and elements: equal sizes, a promotion that check_promote allows or one of arrays, and no axis of three zeros. |
| `FunctionNames.SilentExactly` | src/v3x/AnalyzeTreeGenAstVisitor.cpp:102-321 | A body has no error if and only if each of its statements is proper where it stands. |
| `FunctionScopes.Analyzer.DoAssignment` | src/v3x/AnalyzeTreeGenAstVisitor.cpp:142-169 | Accepts exactly if the sizes agree, the value can be promoted to the type of the left-hand side, and no axis would become zero. |
| `FunctionScopes.Analyzer.VisitInitialization` | src/v3x/AnalyzeTreeGenAstVisitor.cpp:171-201 | The right-hand side is resolved before the variable is bound, in the current frame only; the errors are counted exactly: one if it does not resolve, else one if the type cannot be built and one if the name has no value then or the value cannot be assigned. |
| `FunctionScopes.Analyzer.VisitStatement` | src/v3x/AnalyzeTreeGenAstVisitor.cpp:102-321 | A statement changes the current frame only, and adds exactly its own errors; a return whose name is unknown adds one error and leaves the frame as it is. |
| `FunctionScopes.Analyzer.VisitBlock` | include/v3x/AnalyzeTreeGenAstVisitor.hpp:158-167 | Every statement is visited in the frame that those before it leave, whatever their errors; the errors are those of all statements. |
| `FunctionScopes.RegistersByStatement` | src/v3x/AnalyzeTreeGenAstVisitor.cpp:204-257 | A function with a return type that can be built is registered exactly if, with the return type, some return statement resolves where it stands and every one that does can be promoted to it, or, without one, none resolves. |
| `FunctionScopes.RegisteredDespiteErrors` | include/v3x/AnalyzeTreeGenAstVisitor.hpp:158-167 | Two functions that are registered although their body has an error: one without a return type that returns an unknown name, and one of type int that returns an unknown name before an integer. |
| `FunctionScopes.SilentRegistered` | src/v3x/AnalyzeTreeGenAstVisitor.cpp:231-280 | Conversely, functions analysed without any error are all registered. |
| `FunctionScopes.Analyzer.VisitFunction` | src/v3x/AnalyzeTreeGenAstVisitor.cpp:231-280 | Succeeding or failing, the scope stack ends as it was; the function is registered exactly if its return type can be built and its resolved return statements match it; the errors are those of its parameters and statements and one more exactly if it is not registered. |
| `FunctionScopes.Analyzer.VisitFunctions` | src/v3x/AnalyzeTreeGenAstVisitor.cpp:231-280 | Over any sequence of functions no parameter or local variable is left behind, the functions registered are the sound ones in order, and the errors are those of each function alone. |
| `Matrices.Matrix.At` | include/v1x/cqasm-primitives.hpp:185-190 | Gives the element at the row-major place counted from one, and a range error exactly outside the matrix. |
| `Matrices.Matrix.Put` | include/v1x/cqasm-primitives.hpp:197-202 | Changes that element and no other, and outside the matrix reports a range error and changes nothing. |
| `Matrices.Promote` | src/v1x/cqasm-values.cpp:48-89 | Succeeds exactly for a matching size or an old-style row of 2n*n reals for an n by n type; the result has the size asked for wherever it is not left open; each complex element is the real one with imaginary part zero, or the pair at its place in the row. |
| `Matrices.Flatten` | include/v10/qasm_new_to_old.hpp:112-123 | Real and imaginary parts of all elements in turn, row by row. |
| `Matrices.OldStyleRoundTrip` | include/v10/qasm_new_to_old.hpp:112-123 | For every n > 0, an old-style row of 2n*n reals promoted to an n by n unitary and flattened again is the original row. |

## Left out

Grammar tools:

- Linked lists, `malloc` and pointer-to-pointer editing: symbols are numbered by their place in the symbol list, rule and
  element lists are sequences that are reassigned, and a list cell is named by its place. Sharing of cells does not occur
  in the tools; the merging of a set into itself while it grows is modelled.
- `readg.c`, `writeg.c`, `sample.c`, `gramstats.c` and the string table: the model starts from the grammar in memory.
  `inventsymbol` is only a fresh symbol; its naming scheme, line numbers and message texts are not modelled, only how many
  messages there are.
- StartFollow.StartAndFollow: asks that no rule reachable from head is null, because `dosymbol` dereferences the first
  element of each rule.
- Squeezing.Squeeze: asks that the grammar is not doomed, which is exactly when the loop ends; `SqueezeFor` is the same
  loop on any grammar, given up after some number of rounds. That a loop of the code never ends is returned as a flag.
- Deempting.MarkAll: asks that the empty symbol is a terminal, as `readg` demands with a message.
- DeemptyMeaning.Deempty: asks for a distinguished symbol and a terminal empty symbol, as `readg` demands with a message.
- DeebnfMain.Deebnf: `getdelsym` unlinks the brackets from the symbol list; in the model they stay in the list and are skipped.
  A bracket that a grammar does not use is a terminal that no rule mentions. The brackets are different symbols, and none of
  them is the empty symbol.
- DeebnfMeaning.EbnfKept: excludes empty alternatives inside brackets, which the tool reports as errors and repairs with
  the empty symbol.

cQASM 1.2 analyser:

- Operators and functions in expressions: a literal stands for any expression already folded to a constant or to a value
  known only at run time. Declared variables are mappings to such values; types are boolean and integer.
- AnalyzerHelpers.AnalyzerHelper.AnalyzeInstruction: instructions are accepted with any operands, as with
  `resolve_instructions` switched off. The operand checks of resolved instructions are modelled on their own in
  `QubitRefs.dfy`; instruction sets and `allow_conditional` are not part of this model.
- AnalyzerHelpers.AnalyzerHelper.AnalyzeBundle: `allow_parallel` is not part of this model.
- Pruning.PruneRuns: its proviso is exact place by place, but for a whole program only sufficient, as the rest of a program may
  by chance do what a misplaced break leads to (`RightByChance`).
- Programs.ProgramKept: the same holds of whole runs.
- Programs.AnalyzeProgram: the version and qubits statements, error models and the mappings saved in the tree are absent; the
  mappings that the qubits statement makes are in `QubitRefs.dfy`.
- The bundles of cQASM 1.0 and 1.1 (`analyze_bundle`), variables statements, annotations and source locations.
- AnalyzerHelpers.AnalyzerHelper.AnalyzeStatements: once an error is reported, says what happens to scopes, mappings and the
  count of errors, not which statements the rest of the tree holds.
- Subtrees shared between scopes and the result: a block is a value that moves to its place when its scope is popped.
  The copy made on looking up a mapping is inherent in values.
- What executing a program means is not defined in the code; `SemanticTree.dfy` and `Program.dfy` take the statements at
  their word: a goto continues at the start of its subcircuit, whose iterations begin anew.
- Cutting an execution short: loops run within a bound on iterations, and programs are compared for every bound; the
  instructions of a bundle are listed in order.
- QubitRefs.CheckIndexSizes: asks that references are not empty, which their type in the tree guarantees.
- QubitRefs.AnalyzeMappings: references are modelled apart from the statements of `Analysis.dfy`, whose values are booleans,
  integers and what is known only at run time; here everything that is no reference is one value.

cQASM 3 analyser:

- Functions.Fold: the implementations are a parameter that only has to return the declared type of its registration when given
  constants of its parameter types; that it returns is assumed, also for the integer division by zero. Doubles are reals, and
  the conversion from integers is a parameter, so that rounding is left open. NaN and infinities are not modelled.
- User-defined functions as callees, instructions, and indices of cQASM 3 (`visit_index`, `visit_gate`).
- Overloads.OverloadedNameResolver.Resolve: the resolver objects of the table are its values, sequences of overloads.
- Functions.RegisterDefaults: the calls are held as a list of registrations, function names and type shorthands as enumerations.
- FunctionScopes.Analyzer.VisitFunction: annotations and calls inside functions are absent, expressions being names or values;
  the semantic tree is reduced to what the checks read, the returned values.

Not modelled at all: lexers and parsers, tree-gen nodes, CBOR and JSON, language bindings, the v10 compatibility classes
apart from the flattening of unitaries, and version strings.
