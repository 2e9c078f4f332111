# A verified model of the parser generator, the class tables and the compilation protocols

This project models, in Dafny, the parts of the L compiler and of its parser generator `jay` whose correctness cannot be
read off a single function, and proves what each part is for.

**The LALR(1) generator (`jay/`, skeleton-k).** From the rules as the reader collects them to an accepting run of the
generated tables, every pass is a method over arrays, bit rows or mutable tables as in the original, proved against a
mathematical definition that does not mention the pass:

- `Numbering`, `TokenNumbers`, `PackedGrammars`, `PackedSymbols`: the packed grammar, and exactly when token values are distinct.
- `Words`, `Warshall`, `Preparation`, `Closures`: closures of relations on rows of 32-bit words, nullable symbols, item sets.
- `Kernels`, `Itemsets`, `Lr0`: the worklist that builds the LR(0) automaton (`Automata.IsLr0`). It ends because
  the code of a kernel as a binary number bounds the number of distinct kernels.
- `Digraph`: the depth-first traversal that spreads token sets over strongly connected components in place.
- `GotoMap`, `LaTable`, `ReadSets`, `IncludesRelation`, `Transposition`, `Lalr`: the lookahead sets.
- `Lr1`, `Lookaheads`, `LiveContexts`, `DeadContext`: canonical LR(1) items, and how the lookahead sets relate to them.
- `Actions`, `Conflicts`, `MkPar`: action lists, conflict resolution, default reductions.
- `Packing`, `Room`, `TokenRows`, `Columns`, `Output`, `Decode`: the base and check tables, when they are sure not to get too
  large, and what looking things up in them finds.
- `Trees`, `Jay`, `Parser`, `Completeness`: parse trees, the pipeline of all passes, and the parser that runs the tables.
- `Resolution`, `Ties`: the resolved action lists read as an LR parser of their own, and how the tables compare with it.
- `Brackets`, `WrongRule`: a small grammar with its tables written out, and what its parser does with inputs that are wrong.
- `OperatorChains`: a grammar with an operator, declared by `%left`, `%right` or `%nonassoc`.
- `Literal`: quoted literals and their canonical names.

The end result is `Completeness.ParserIsCorrect`: for every grammar without LALR(1) conflicts, the generated parser returns
without having reported an error exactly on the sentences of the grammar. `Parser.ParserIsSound` needs no assumption on
conflicts. Where conflicts were resolved, `Resolution.TablesFollowLists` and `Ties.TablesAcceptLists` say what the parser
accepts. What it returns after a report is worth nothing (`WrongRule.ReturnsAfterReport`).

**Class tables and interface dispatch (`container.l`).** `Interfaces` proves that a call through the combined table, and
through the collision thunk where slots are shared, reaches the method that the slow search finds. `Vtables` does the same for
virtual calls, and `ClassTables` joins the two tables: one address, counted from the table pointer of an object, serves for
both kinds of call. `Sorting` and `Coloring` give the interface slots.

**The forked work pool (`compilestate.l`).** `Pool` is a state machine over the atomic steps of the parent and its workers.

**Basic blocks (`parsecond.l`, `llvm.l`).** `Blocks` and `Statements` compile `if` and `switch` into a control flow graph
and prove that the graph is well formed and does what the statement means.

**The tree labeller (`lgeng.l`).** `Labeller` models the code that the generator emits.

`Relation` and `Counting` hold the notions of path, reachability and distinctness that the rest shares.

## Where the code does less than it is meant to

Each of these is proved, with the exact condition:

- An entry of the lookahead sets is right, measured by canonical LR(1) items merged over equal cores, exactly if the
  relations of DeRemer and Pennello give it, should they give it at all, also when tokens are read only behind items that
  are alive: reached without expanding a variable behind which nothing can follow. Aliveness needs the LR(0) automaton and
  FIRST only. `LiveContexts.LaIsLaOf` and `MergedIsLiveLa` characterise the two kinds of sets, `LalrIsMergedExactly` and
  `Lalr.LaIsMerged` compare them, and `LiveContexts.AliveSuffices` gives the simple case in which all items are alive. The
  sets are never smaller than the canonical ones (`Lookaheads.LalrCoversLr1`). For one grammar, `DeadContext.ComputeExcess`
  passes it through the generator and gets a row that is larger.
- Two tokens get one value exactly if their declared values clash (`TokenNumbers.DistinctValues`), as two that are both
  declared as 300 do (`TokenNumbers.GiveTwice`).
- An operator that is declared by `%nonassoc` can be accepted twice in a row. On a tie without associativity, conflict
  resolution takes both the shift and the reduction away (mkpar.c:290-294), so that the token is an error; but the reductions
  that are left in the state may then all be by one rule, which becomes the default for every token, that one included. The
  tables accept what the resolved lists accept with such defaults (`Resolution.TablesFollowLists`), and a run is one that the
  lists allow by themselves if and only if none of its turns is on a token that lost all its actions (`Ties.RunIsStrict`).
  Which tokens those are is `Ties.TiedExactly`; there are none unless `%nonassoc` is used (`Ties.AssociativeHasNoTies`). For
  `E: E OP E` and `E: A`, `OperatorChains.ChainIsAccepted` shows that every parser made by jay accepts A OP A OP A silently.
- The emitted `label` reaches a label function for every operator exactly if the highest operator is not a multiple of 50
  (`Labeller.DispatchHandles`); else labelling the highest one throws (`Labeller.LabelsAllDeclared`).
- A class table has the size of its layout exactly if no class overrides a method of the special slots 3 and 4
  (`Vtables.TableSize`). `Vtables.EmitOverriding` lays out a class that overrides the second of three methods of its parent,
  and gets four entries for three slots.
- The work pool ends as it should exactly if there is a ticket for every job and one more for every worker. `close`
  (compilestate.l:326-328) closes the end of the pipe that is read; nobody closes the ends that are written, which every
  worker inherits, so that a worker without a ticket waits for ever and the parent with it. Every run ends with exactly the
  jobs below the number of tickets done and as many workers blocked as tickets are missing, or all (`Pool.OpenPipe`). The
  callers write one ticket per class (compilestate.l:712). A worker that does meet the end of the pipe, for which
  `readTicketNumber` has a branch, gets through; then a job is lost exactly if there is no ticket for it (`Pool.LostJobs`).
- A syntax error does not end a run of the generated parser. Its error flag is never set, so that no recovery takes place
  either: `yyerror` (synskel.l:70-83) prints, and control goes on to a reduction by whatever number is at hand. With no
  default and no action left for the token, that is the sum of base and token value in a state that has reductions, and 0,
  without a report, in a state that has none (`Jay.GoesOnExactly`). The reduction takes place exactly if the number is that
  of a rule of the grammar and the stack is deep enough for it (`Parser.GoesOnAfterReport`); else an index out of range ends
  the run, which always happens with rule 0 (`Parser.RuleZero`). So an input may be reported and yield a result all the same:
  `WrongRule.ReturnsAfterReport` gives a grammar without conflicts and precedences and an input that is not one of its
  sentences. In general the inputs on which the parser returns are those that it accepts silently, which are the sentences if
  there are no conflicts, and some that it has reported, which then are not sentences (`Parser.ReturnsIsOneOf`,
  `Completeness.ReportTellsTrue`).

## Model

| member | source | states |
|---|---|---|
| Numbering.NumberSymbols | jay/reader.c:1426-1447 | the loops over the symbol list give each token and variable its number: tokens in order of appearance, then `$accept`, the goal, the other variables |
| Numbering.NumberingIsBijective | jay/reader.c:1399-1447 | the numbering is a bijection from the symbols to 1..nsyms-1 without `$accept`, tokens below ntokens and variables above |
| Numbering.NumberingKeepsOrder | jay/reader.c:1426-1447 | tokens keep their order of appearance from 1 on, the goal comes behind `$accept`, and the other variables keep theirs behind it |
| TokenNumbers.GiveValues | jay/reader.c:1460-1489 | declared values stay, `error` defaults to 256, every other token gets the least value from 257 on that nobody declared or was given before |
| TokenNumbers.GiveTwice | jay/reader.c:1460-1489 | two tokens that are declared as 300 both end with it, `error` gets 256 and a token without a value 257 |
| TokenNumbers.DistinctValues | jay/reader.c:1460-1489 | the token values are pairwise distinct if and only if no two declared values (with 0 for `$end` and 256 for an undeclared `error`) are equal |
| PackedSymbols.PackSymbols | jay/reader.c:1394-1516 | number, value, precedence and associativity of every symbol stand where the later passes look for them |
| PackedSymbols.ValuesSuit | jay/reader.c:1449-1513 | the values meet what table packing needs of them exactly if the declared ones do not clash |
| PackedGrammars.PackGrammar | jay/reader.c:1518-1575 | the packed arrays are a valid grammar that holds exactly the rules read, renumbered; a rule without a declared precedence has that of the last token on its right-hand side, with only variables behind it, or none and no associativity if there is no token there |
| PackedGrammars.PackRule | jay/reader.c:1547-1572 | one right-hand side is renamed in place up to its separator, and the precedence found is that of a token with only variables behind it, or 0 if all symbols are variables |
| Warshall.TransitiveClosure | jay/warshall.c:43-93 | in place on packed 32-bit words, for every n: bit (i, j) ends set exactly if j is reachable from i in one or more steps |
| Warshall.ReflexiveTransitiveClosure | jay/warshall.c:95-122 | the same for zero or more steps |
| Preparation.SetDerives | jay/lr0.c:518-546 | the list of every variable holds exactly its rules, ascending |
| Preparation.SetNullable | jay/lr0.c:577-623 | the fixpoint loop marks exactly the symbols that derive the empty word |
| Closures.SetEff | jay/closure.c:51-84 | after the transitive closure, the row of a variable holds exactly the variables that can stand at the left end of what it derives |
| Closures.SetFirstDerives | jay/closure.c:87-139 | the bit row of a variable holds exactly the rules that its closure brings in |
| Closures.ClosureIsOnePass | jay/closure.c:142-208 | the least set closed under expansion is the nucleus plus the starts of the precomputed rules, so one pass suffices |
| Closures.ClosureTables.Closure | jay/closure.c:142-208 | the merge writes the strictly ascending closure of any ascending nucleus, within the buffer |
| Itemsets.CountSymbols | jay/lr0.c:82-94 | the size of each symbol's kernel region is the number of its occurrences on right-hand sides |
| Itemsets.Buffers.NewItemsets | jay/lr0.c:284-316 | every successor kernel is collected, ascending, inside the region of its symbol, and exactly the symbols with one are listed |
| Kernels.MovedRoom | jay/lr0.c:72-111 | a successor kernel never outgrows the region that was sized for its symbol |
| Itemsets.Buffers.SortSymbols | jay/lr0.c:132-142 | the insertion sort leaves the same symbols, ascending |
| Kernels.KernelCount | jay/lr0.c:165-188 | there are at most 2 to the number of items distinct kernels, which is why the worklist ends |
| Lr0.Generator.GetState | jay/lr0.c:193-253 | the state with the collected kernel, old or new, with no kernel ever entered twice although state 0 is in no bucket |
| Lr0.Generator.AppendStates | jay/lr0.c:123-149 | the state gets a transition for every collected kernel, ascending by symbol |
| Lr0.Generator.SaveReductions | jay/lr0.c:469-515 | the reductions of a state are exactly the rules completed in it, ascending |
| Lr0.Generator.GenerateStates | jay/lr0.c:165-188 | the worklist ends with exactly the reachable LR(0) states, pairwise different kernels, complete sorted shift records and all reductions |
| Digraph.Traversal.Traverse | jay/lalr.c:623-678 | every visit of an unvisited node keeps the invariant of the stack and low links, leaves older nodes alone, and ends with the node finished or linked below; a visit that starts with an empty stack ends with one |
| Digraph.Spread | jay/lalr.c:597-620 | for any relation, cyclic or not, every row ends as the union of the initial rows of all nodes reachable from it; exactly the nodes with a successor or a predecessor were pushed onto the stack, each once |
| Digraph.ComponentRows | jay/lalr.c:659-676 | two nodes that reach each other have equal rows |
| GotoMap.SetGotoMap | jay/lalr.c:205-268 | the transitions on variables are laid out by variable, each list ascending by source state |
| GotoMap.GotoMapIsGotos | jay/lalr.c:205-268 | that numbers every nonterminal transition exactly once |
| GotoMap.GotoZero | jay/lalr.c:365 | transition 0 is the one from state 0 on the goal |
| GotoMap.MapGoto | jay/lalr.c:274-299 | the binary search finds the transition whenever the state has one on the symbol, so its assert never fails |
| LaTable.InitializeLa | jay/lalr.c:168-202 | one lookahead row for every reduction of every state |
| LaTable.AddLookbackEdge | jay/lalr.c:472-495 | the search finds the row of the rule in the state, so its assert never fails, and the transition is linked in there and nowhere else |
| ReadSets.InitializeF | jay/lalr.c:303-376 | row i of F holds exactly the tokens that can be read after transition i, skipping nullable variables |
| IncludesRelation.WalkRule | jay/lalr.c:410-431 | the walk of a right-hand side from a state that starts the rule stays on transitions and ends in a state that reduces it |
| IncludesRelation.BackRule | jay/lalr.c:433-445 | going back over nullable variables adds exactly the transitions whose follow set includes this one's by this rule |
| IncludesRelation.BuildRelations | jay/lalr.c:380-469 | the includes relation, after turning it round, and the lookback lists are exactly as defined by DeRemer and Pennello |
| Transposition.Transpose | jay/lalr.c:499-553 | the new lists hold the sources of every node in order, written within the buffers that were sized by counting |
| Transposition.TransposeEdges | jay/lalr.c:499-553 | the transposed relation has exactly the reversed edges |
| Lalr.ComputeFollows | jay/lalr.c:556-560 | spreading F over includes gives exactly the follow sets |
| Lalr.BuildLookaheads | jay/lalr.c:77-92 | all passes together: row (q, r) of LA holds exactly the tokens of the lookahead set of rule r in state q |
| Lookaheads.LalrIsMergedLenient | jay/lalr.c:303-594 | for every grammar: t is a lookahead of rule r in state q exactly if some LR(1) state with core q holds the completed item with t, where a closure step may also hand on no lookahead at all |
| Lookaheads.LalrIsMergedLr1 | jay/lalr.c:303-594 | in a grammar where something can follow every variable of a right-hand side, the same with canonical LR(1) items |
| Lookaheads.LalrCoversLr1 | jay/lalr.c:303-594 | for every grammar, no canonical LR(1) lookahead is missing |
| Lr1.CoreIsState | jay/lalr.c:303-594 | an item has a lookahead along a word exactly if it lies in the LR(0) state that the word reaches: always for lenient LR(1) items, in a live grammar for canonical ones |
| Lr1.ItemsAreClosed | jay/lalr.c:303-594 | the LR(1) items used as reference are themselves a family closed under goto and closure |
| Lr1.ItemIsLeast | jay/lalr.c:303-594 | they lie in every such family, so that they are the least one |
| LiveContexts.AliveIsItem | jay/lalr.c:303-594 | an item is alive, which needs the LR(0) automaton and FIRST only, exactly if some canonical LR(1) item has it |
| LiveContexts.LaIsLaOf | jay/lalr.c:303-594 | the lookahead sets are exactly what the relations give when tokens are read behind all items of a state |
| LiveContexts.MergedIsLiveLa | jay/lalr.c:303-594 | the merged canonical LR(1) lookaheads are exactly what they give when tokens are read behind alive items only |
| LiveContexts.LalrIsMergedExactly | jay/lalr.c:303-594 | the lookahead sets of an automaton are the canonical ones if and only if reading at alive items gives all that reading at all items gives |
| LiveContexts.AliveSuffices | jay/lalr.c:303-594 | so they are if every item of every state is alive, or if what is read behind a variable in a state is also read behind an alive item there |
| DeadContext.LalrExceedsLr1 | jay/lalr.c:303-594 | on the automaton of a given grammar, a lookahead that is not canonical |
| DeadContext.ComputeExcess | jay/main.c:324-326 | passing that grammar through the generator gives an automaton and a row of LA with that lookahead |
| Lalr.LaIsMerged | jay/lalr.c:303-594 | for every row of the finished table LA and every token: in it exactly if lenient LR(1) items have it, never missing if canonical ones have it, and right by the canonical ones exactly if reading at alive items gives it, too |
| Actions.GetShifts | jay/mkpar.c:90-123 | the sorted list of exactly the shifts of a state |
| Actions.AddReduce | jay/mkpar.c:151-189 | the reduction is linked in so that the list stays sorted by symbol, then shift before reduce, then rule number |
| Actions.ParseActions | jay/mkpar.c:78-148 | the sorted list of exactly the shifts and reductions that the automaton and LA call for |
| Conflicts.ResolveList | jay/mkpar.c:253-311 | in terms of precedence and associativity: a shift stays exactly if every reduction on its token has a lower precedence, the same with %right, or one of the two is unknown; a reduction stays against a shift exactly if it has the higher one or the same with %left and no earlier rule has; without a shift the first rule stays; at the end of the input in the final state the shift does; which of the others are reported follows too, and each count is the number of those of its kind |
| Conflicts.OneStays | jay/mkpar.c:253-307 | at most one action on a symbol stays |
| Conflicts.NoneStays | jay/mkpar.c:281-295 | none stays exactly if the shift drew against a reduction by equal precedence without associativity and lost to none |
| Conflicts.ShiftStays | jay/mkpar.c:268-301 | a shift stays exactly if every reduction on its token has a lower precedence, the same where the token is right associative, or a precedence is unknown; it is never reported |
| Conflicts.ReduceStays | jay/mkpar.c:268-301 | against a shift, a reduction stays exactly if its precedence is higher, or the same where the token is left associative, and no earlier rule has won; it is reported exactly if one has, or a precedence is unknown |
| Conflicts.FirstRuleStays | jay/mkpar.c:297-301 | without a shift, the reduction by the first rule stays and every other one is reported |
| Conflicts.CountsAre | jay/mkpar.c:262-307 | a reported action counts as reduce/reduce exactly if a reduction by an earlier rule stays on its token, and as shift/reduce else |
| MkPar.FindFinalState | jay/mkpar.c:192-206 | the state reached from state 0 on the goal |
| MkPar.SoleReduction | jay/mkpar.c:336-362 | the rule by which all unsuppressed actions of a state reduce, one of them on a token other than `error`; 0 exactly if a shift stays, or two rules do, or nothing but actions on `error` |
| MkPar.RemoveConflicts | jay/mkpar.c:241-313 | every list is resolved by precedence as ResolveList says; the shift/reduce total is the sum over the states of the actions lost to a shift, and the reduce/reduce total of those lost to a reduction |
| Packing.SortActions | jay/output.c:412-444 | the order lists exactly the non-empty vectors, by falling width from the least to the greatest entry, then falling number of entries, then rising number |
| Packing.Packer.MatchingVector | jay/output.c:509-546 | the search, cut short by the order, finds an earlier row with the same entries exactly if there is one |
| Packing.Packer.Probe | jay/output.c:573-607 | a place is accepted exactly if it is not 0, all its entries are free and no earlier vector has it; the table grows only by free entries |
| Packing.Packer.PackVector | jay/output.c:550-624 | the vector goes to the least place where it fits, and nothing written before changes; it fails only if every place where it fits needs too large an index |
| Packing.Packer.PackTable | jay/output.c:447-490 | every vector of the order gets a place, and identical rows share one |
| Packing.PackedIsTable | jay/output.c:447-490 | a base is 0 exactly for an empty vector, and only identical vectors share one |
| Packing.PackedExactly | jay/output.c:447-624 | at base + c inside the table, check holds c exactly if c is in the vector, and then the table holds its entry |
| Packing.LookupIsEntry | skeleton-k:97-115 | a lookup finds the entry of the vector for c, and nothing if there is none |
| TokenRows.ActionRow | jay/output.c:225-248 | the row of a state holds exactly its unsuppressed shifts and those reductions that are not the default, and the counts are the sizes of its halves |
| TokenRows.TokenVector | jay/output.c:251-290 | the vector of a half row has exactly its entries, under the token values |
| Columns.DefaultGoto | jay/output.c:334-366 | the most frequent target, and of several the one with the lowest number; 0 without any |
| Columns.SaveColumn | jay/output.c:370-410 | the column holds exactly the transitions that do not lead to the default |
| Output.TokenActions | jay/output.c:212-294 | the vectors of all states, both halves |
| Output.GotoActions | jay/output.c:297-331 | the columns and the defaults of all variables; the rows stay |
| Room.RoomyPacks | jay/output.c:550-624 | packing never gets stuck if, for each vector, its number of entries times that of all entries, plus the number of vectors, plus its greatest index, is below the limit |
| Output.OutputActions | jay/output.c:184-209 | the vectors of the parser, packed into tables; failure only if some vector fits nowhere below the largest index behind those packed before it, and never if all vectors have such room |
| Decode.MoveIsAction | skeleton-k:86-150 | for every state and every token with an unsuppressed action, decoding the tables gives that action |
| Decode.MoveWithoutAction | skeleton-k:86-150 | on any other token it gives the sole default reduction; failing that, a report and the number base + value, or rule 0 where the state has no row of reductions |
| Decode.ReductionRow | jay/output.c:225-290 | a state has a row of reductions exactly if some reduction that stayed is not its default |
| Decode.GotoIsTrans | skeleton-k:186-196 | for every state with a transition on a variable, decoding gives its target |
| Jay.OutputRuleData | jay/output.c:103-150 | left-hand sides and lengths of the rules as the parser numbers them |
| Jay.Generate | jay/main.c:324-329 | the pipeline of all passes: what each leaves behind is right for the grammar, and so are the tables unless they overflow, which they do not if all vectors have room |
| Jay.MoveIsSound | skeleton-k:86-150 | whatever the parser shifts is a transition and whatever it reduces is complete in the state, however conflicts were resolved; there is no such promise for a number it goes on with after a report, which comes only where there is no action |
| Jay.GoesOnExactly | skeleton-k:110-150 | the parser goes on with rule 0 exactly in a state without default and reductions and on a token without action, and reports and goes on with base + value exactly in one that has reductions |
| Jay.ActionMoves | skeleton-k:86-150 | without conflicts, the parser makes every move that the automaton and the lookaheads call for |
| Jay.SilenceIsConsent | jay/mkpar.c:241-313 | a grammar without precedences for which no conflict is reported has none |
| Parser.ReducePops | skeleton-k:150-165 | when a rule is reduced, the top of the stack spells its right-hand side and the state below has a transition on its left-hand side |
| Parser.RuleZero | skeleton-k:150-186 | going on with rule 0 always ends the run by an index out of range |
| Parser.GoesOnAfterReport | skeleton-k:110-186 | a turn reports an error and goes on exactly if the state has reductions but no default, the token has no action, and base + value is the number of a rule that the stack is deep enough for |
| Parser.ParserIsSound | skeleton-k:73-200 | for every grammar and every input: when the parser returns without having reported an error, the input has a parse tree |
| Parser.ReturnsIsOneOf | skeleton-k:73-200 | the parser returns exactly if it does so silently or after a report, and never both |
| Completeness.FeedTree | skeleton-k:73-200 | without conflicts, the parser works its way through every tree that the state expects and pushes its root |
| Completeness.ParserIsComplete | skeleton-k:73-200 | without conflicts, the parser returns on every sentence, without a report |
| Completeness.ParserIsCorrect | skeleton-k:73-200 | without LALR(1) conflicts, the parser returns without having reported an error exactly on the sentences of the grammar |
| Completeness.ReportTellsTrue | skeleton-k:110-150 | without conflicts, when the parser returns, it has reported an error exactly if the input is not a sentence |
| Resolution.TablesFollowLists | skeleton-k:73-200 | for every grammar, however its conflicts were resolved: the tables accept an input silently exactly if the resolved action lists accept it, read as the table of an LR parser with default reductions |
| Ties.RunExpected | jay/lalr.c:303-594 | for every grammar, in a run of the lists that gets to the end: every configuration expects its next token by the LR(1) items, and every reduction made, by default or not, is one that the lookaheads call for |
| Ties.RunIsStrict | jay/mkpar.c:241-362 | an accepting run does without default reductions if and only if none of its turns is on a token that lost all its actions |
| Ties.ListsAcceptExactly | jay/mkpar.c:241-362 | the lists by themselves accept exactly the inputs that have such a run |
| Ties.TablesAcceptLists | skeleton-k:73-200 | if no token lost all its actions, the tables accept exactly what the resolved lists accept without default reductions |
| Ties.TiedExactly | jay/mkpar.c:253-301 | a token of a state loses all its actions exactly if its shift has the precedence of a reduction, without associativity, and no reduction has a higher one |
| Ties.AssociativeHasNoTies | jay/mkpar.c:281-294 | that never happens if all tokens with a precedence are left or right associative |
| OperatorChains.OperatorsGroup | jay/mkpar.c:241-362 | in every parser for E: E OP E and E: A, behind A OP A on OP: with %left it reduces, with %right it shifts, and with %nonassoc the token has lost both actions |
| OperatorChains.ChainIsAccepted | jay/mkpar.c:241-362 | in every parser for that grammar with OP not associative, the resolved lists reject A OP A OP A, and with default reductions they accept it |
| OperatorChains.GenerateChain | jay/main.c:324-329 | passing that grammar through jay gives such lists, and tables that accept the input silently |
| Completeness.SilentParserIsCorrect | jay/mkpar.c:62-75 | ParserIsCorrect holds if there are no precedences and jay reports no conflict |
| WrongRule.IsGenerated0 | jay/main.c:324-329 | the tables written out for S: A S D and the empty rule satisfy all that is proved of generated ones, and there are neither conflicts nor precedences |
| WrongRule.FirstFit0 | jay/output.c:550-624 | each of its vectors stands at the least place where it fits behind those before it |
| WrongRule.ReturnsAfterReport | skeleton-k:110-200 | on A A A, which is not a sentence, that parser reports an error, reduces S: A S D and returns |
| WrongRule.GoesOnWithRuleZero | skeleton-k:110-186 | on A D D it comes to a state without reductions, goes on with rule 0 without a report and runs off the stack |
| Trees.FirstLeaf | jay/lalr.c:303-376 | the first leaf of trees that fit the rest of a rule is in the FIRST set of that rest |
| Literal.GetLiteral | jay/reader.c:443-579 | the contents read, with every escape, and the canonical name made from them; or the error that the source reports |
| Literal.HexValue | jay/reader.c:429-440 | the value of a hexadecimal digit of either case, and -1 exactly for every other character |
| Literal.HexReads | jay/reader.c:492-507 | a backslash, x and hexadecimal digits of either case up to a character that is none read as the byte whose digits they are, or as an error if it is above 255 |
| Literal.HexNeedsDigit | jay/reader.c:492-496 | without a digit behind the x the literal is in error |
| Literal.OctalReads | jay/reader.c:474-490 | a backslash and up to three octal digits read as the byte whose digits they are, or as an error if it is above 255 |
| Literal.LettersRead | jay/reader.c:466-517 | seven letters behind a backslash are control characters, a newline there goes on with the next line, and any other character stands for itself |
| Literal.PlainReads | jay/reader.c:459-461 | without a backslash, the quote ends the literal, a newline is an error and the rest stands for itself |
| Literal.EscapedIs | jay/reader.c:535-564 | in the canonical name, the quote and the backslash get a backslash, printable characters stay, seven bytes get letters and the others three octal digits |
| Literal.CanonicalQuotes | jay/reader.c:529-569 | the name of one byte stands in single quotes, any other in double ones |
| Literal.MakeName | jay/reader.c:522-571 | the loop builds the canonical name |
| Literal.RoundTrip | jay/reader.c:455-567 | reading the canonical name of any byte string gives back that string, whatever text follows |
| Literal.NamesAreExact | jay/reader.c:522-572 | two literals get the same name exactly if they are the same |
| Interfaces.PopulateAllImplementedInterfaces | container.l:1561-1587 | what the class lists, each interface followed by its supers, then what its ancestors below the root class list; so exactly the interfaces it implements |
| Interfaces.EmitInterfaceTables | container.l:2203-2403 | it reports an error exactly if for some interface method the slow search finds no method, a static one, or one whose type cannot be assigned; otherwise slots and collisions hold every method, in order |
| Interfaces.EmitExample | container.l:2203-2403 | for a class with an overriding method, an interface with a super, and a parent whose interface shares a slot: four slots with the codes of the class, the thunk in the shared one and none in the unused one, and the selector table |
| Interfaces.CalcIFaceOffset | container.l:2405-2440 | one more than the highest slot of an implemented method, 0 without any |
| Interfaces.InterfaceThunk | lrt-ithunk-linux-x86-64.s:23-37 | the search over the selector table ends at a pair with the selector |
| Interfaces.Invoke | container.l:2203-2403 | loading the entry at the method's address, and running the thunk if that is what is there, reaches the method that the slow search finds, whatever slots collide |
| Interfaces.Dispatch | container.l:2443-2467 | when no error is reported, calling any interface method that the class must implement reaches `findImplementedMethod` |
| Interfaces.DirectEntry | container.l:2272-2281 | an entry is direct exactly if its slot is not shared and the thunk is not forced |
| Coloring.BuildInterference | container.l:1603-1667 | the matrix marks exactly the pairs of interfaces that some class implements together, although classes without an implements list are skipped |
| Coloring.NextSlot | container.l:1760-1793 | the search ends at the first slot behind the last one that no interfering interface uses, new if need be |
| Coloring.AllocateSlots | container.l:1672-1677 | distinct slots for any two methods of one interface or of interfaces implemented together, each the least one open |
| Coloring.AllocateExample | container.l:1672-1677 | of three interfaces the first and third are implemented together: slots 0 and 1, then 0, then 2 and 3 |
| Coloring.OrderDoesNotMatter | container.l:1603-1677 | with the interfaces numbered in one order, the slots do not depend on the order in which the classes are listed |
| Sorting.Partition | lib/trusted/gsort.l:34-54 | in place, by the first value: what ends at or before the place returned is at most that value and the rest at least, with something on either side |
| Sorting.Sort | lib/trusted/gsort.l:10-32 | the quicksort leaves the same values, ascending |
| Coloring.BuildInterfaceTables | container.l:1603-1677 | interfaces in any order are sorted by name, numbered and coloured: no two methods that some class implements both share a slot, and each slot is the least one open |
| Coloring.AnyOrder | container.l:1623-1667 | the slot of every interface method is the same for any order in which the interfaces and the classes are met |
| Vtables.FindMethod | container.l:1288-1303 | the nearest class on the way up that has the method |
| Vtables.BuildClassTables | container.l:1856-2041 | a method that overrides nothing gets the next slot, any other the slot of the method it overrides, across all levels |
| Vtables.FoundIsIntroduced | container.l:2561-2567 | the owner test of the emitter selects exactly the members that introduced their method |
| Vtables.EmitClassTables | container.l:2481-2594 | parents first, one entry for every member that gets one, holding what the class finds for it |
| Vtables.TableSize | container.l:2517-2554 | the table has as many entries as there are slots exactly if no class overrides a special slot |
| Vtables.EmitOverriding | container.l:2517-2554 | for a class that overrides a special slot of its parent: three slots and four entries, with the special ones in slots 3 and 4; for a struct, three entries with the overriding code |
| Vtables.SlotHoldsMethod | container.l:1856-2041 | then the slot of every method, wherever it was introduced, holds the code that `findMethod` finds from the class at hand, special slots apart |
| ClassTables.SameSearch | container.l:2443-2467 | the search by levels and `findImplementedMethod` find the same method |
| ClassTables.EmitTables | container.l:2058-2157 | the whole table: interface slots from the last to the first, three words on the class, two fixed slots, the virtual table |
| ClassTables.LevelIs | container.l:1288-1303 | the member lists that the virtual table is built from are those of the class and its ancestors, each at its depth |
| ClassTables.VirtualEntry | container.l:2058-2157 | for every instance method of the class or an ancestor, the entry at IFaceOffset + 3 + Address is the code that `findImplementedMethod` finds for its signature, or one of the two special entries |
| ClassTables.StaticHasNone | container.l:1916-1920 | a static method has no Address and no entry |
| ClassTables.CombinedSize | container.l:2289-2290 | the table has the size reserved for it exactly if no class overrides a special slot |
| ClassTables.Dispatch | parseexpr.l:2118-2138 | loading the entry at the Address of an interface method, or of any instance method of the class or an ancestor, and running it reaches the method that `findImplementedMethod` finds for the class of the object |
| ClassTables.SubclassExtends | container.l:2481-2594 | every instance method of an ancestor keeps its Address in the table of a subclass, with the same entry unless the class has the method itself, and with its code if it has |
| Pool.StepInv | compilestate.l:255-356 | every atomic step of the parent or a worker keeps the invariant of tickets, workers and finished jobs |
| Pool.NoJobTwice | compilestate.l:304-324 | in every run, no job runs twice, and a waiting worker's ticket is not behind it, or is -1 |
| Pool.EveryJobOnce | compilestate.l:304-324 | when all workers are through and there was a ticket for every job, each has run exactly once, as in the branch without workers |
| Pool.LostJobs | compilestate.l:342-356 | when all workers are through, a job has run exactly if a ticket was written for it |
| Pool.NeverBlocked | compilestate.l:330-340 | with a ticket per job and worker, nobody who wants a ticket meets an empty pipe once all are written |
| Pool.DoneNeedsTickets | compilestate.l:330-356 | while the pipe stays open, that many tickets are also needed |
| Pool.OpenPipe | compilestate.l:255-356 | with the pipe open, every run that cannot go on has done exactly the jobs that have a ticket; as many workers are blocked as tickets are missing to one per job and worker, or all; and all are through exactly if none is missing |
| Pool.CanGoOn | compilestate.l:255-356 | with enough tickets, or a pipe that is closed, no run is stuck before all workers are through |
| Pool.RunsEnd | compilestate.l:255-356 | every run ends |
| Pool.ProcessPool.Submit | compilestate.l:304-324 | the three branches of submit: a job is processed by the worker whose ticket it is, at once without workers, and not at all in the parent |
| Pool.WorkerRun | compilestate.l:255-340 | walking through all jobs with any ascending tickets, a worker processes exactly its tickets below the number of jobs |
| Blocks.IRBlock.Label | llvm.l:1194-1227 | a jump is added exactly if the current block has no terminator, and the block becomes the inserted, current one |
| Blocks.IRBlock.JumpLabel | llvm.l:1230-1238 | the current block is ended by a jump, and the next one is entered |
| Blocks.IRBlock.Branch | llvm.l:1262-1275 | the current block is ended by a branch to the target or to a new block, which is entered |
| Blocks.EndedShaped | llvm.l:1194-1275 | ending the current block and entering a pending one keeps the graph well formed |
| Blocks.RunsGrown | llvm.l:1194-1275 | what ran before still runs after more was added |
| Statements.MatchExample | parsecond.l:56-211 | a switch of the model evaluates its expression once, then those of the cases up to the first match, and runs that case alone |
| Statements.DefaultExample | parsecond.l:56-77 | without a match it evaluates them all and runs the default, if any |
| Statements.IfExample | parsecond.l:281-306 | an `if` evaluates its condition and runs the branch for its value |
| Statements.CompileIf | parsecond.l:281-306 | an `if` without `else` does what it means, and keeps the graph well formed |
| Statements.CompileIfElse | parsecond.l:281-306 | the same with `else` |
| Statements.CompileSingle | parsecond.l:149-175 | a case with one expression: the body runs exactly if the value equals it, then control leaves the switch |
| Statements.CompileMany | parsecond.l:176-211 | a case with several: the expressions are evaluated in order up to the first that equals the value |
| Statements.CompileSwitch | parsecond.l:56-77 | the first case that matches runs and no other, else the default block if there is one |
| Statements.CompileBody | parsecond.l:56-211 | a whole statement, whatever its primitive statements and expressions do: running the code changes the state as the statement means; every inserted block but the last is ended once and branches lead to inserted blocks |
| Labeller.State.Record | lgeng.l:1619-1633 | a match that costs less is recorded, and the chain rules are followed; costs sink only to what a derivation attains |
| Labeller.State.Closure | lgeng.l:1289-1302 | nested closures end, even with cyclic chain rules, because each lowers a cost, and leave no chain rule that would lower one |
| Labeller.ClosedIsCheapest | lgeng.l:1198-1318 | costs closed under the rules of the operator and the chain rules are no higher than any derivation |
| Labeller.MatchIsFill | lgeng.l:1828-1857 | the emitted test succeeds exactly on the trees that come from filling the variables of the pattern with trees, and the costs are taken from just those trees |
| Labeller.DerivesIsBuilds | lgeng.l:1198-1286 | a derivation is one by which the tree can be built from the rules, without matching |
| Labeller.LabelExample | lgeng.l:1198-1318 | on a tree with operators below operators, the rule with the nested pattern wins and all costs and rules of its nodes are given as numbers |
| Labeller.Label | lgeng.l:1198-1286 | it fails exactly where the emitted code throws on a bad terminal; else every variable of every node that needs it ends with the cost of its cheapest derivation, capped at 0x7FFF, and a rule that attains it |
| Labeller.LabelTree | lgeng.l:1486-1526 | with the highest operator as emitlabel finds it: labelling succeeds exactly if there is one above 0 and the tree does not throw, and on every tree of declared operators unless it is a multiple of 50 |
| Labeller.LabelsAllDeclared | lgeng.l:1459-1526 | labelling throws on no tree of declared operators if and only if the highest operator is not a multiple of 50 |
| Labeller.Dispatch | lgeng.l:1502-1526 | the chain of tests calls the right label function whenever there is one |
| Labeller.DispatchHandles | lgeng.l:1486-1526 | every operator up to the highest has one if and only if the highest is not a multiple of 50 |

## Left out

- Lookaheads.LalrIsMergedLr1: one way only; the condition on the grammar is sufficient, and the exact condition is in LiveContexts.LalrIsMergedExactly.
- Completeness.ParserIsComplete: only for grammars without conflicts; where conflicts were resolved, some sentences are no longer accepted, and Resolution.TablesFollowLists and Ties.TablesAcceptLists say which inputs are.
- OperatorChains.GenerateChain: does not exclude that the tables overflow, in which case there is no parser to run; what it says of the lists holds either way.
- Packing.Packer.ScanLowzero: the scan stops at the end of the buffer; the original reads on behind it when the buffer is full.
- PackedSymbols.ValuesSuit: values and numbers are unbounded integers, and the bound of a short is a premise.
- Sorting.Sort: values are numbers; the names of interfaces stand for their places in the order of strings, and are distinct.
- Pool.RunsEnd: pipe capacity, partial reads, signals and failing forks are not modelled.
- Rows of F and LA are sets of token numbers here; the packing of rows into words is modelled in `Words`, `Warshall` and `Closures` only.
- Linked lists of states, shifts, reductions, actions and lookback edges are sequences; numbers are unbounded instead of shorts.
- Reading the grammar file, rule actions and their types, `%prec` parsing, messages, temporary files, verbose output and the text around the tables; "maximum table size exceeded" is a failure result of the packing.
- Semantic values in the generated parser, and its branches for an error flag that is not 0, which nothing sets. The stack of the model has no limit, where the original throws at a depth of 256 (skeleton-k:74-82). An index out of range ends a run of the model; in the original it is the exception that the wrapper (synskel.l:124-138) reports as a parse error and replaces by another.
- `get_literal` reads one text instead of a line buffer that is refilled, and the lookup of the name in the symbol table is not modelled.
- The hash of a method name: interface slots are arbitrary in `Interfaces`, so that every hash is covered.
- Interface methods that redeclare an inherited one, anonymous methods, and mixes of static and instance overrides in class tables.
- Member lookup by argument types: a signature is a number, and a class has at most one method for each.
- Type errors, declarations, loops and blocks placed at the end of a function in the compilation of statements; an expression is evaluated by one instruction, and a condition by one instruction and a branch.
- Labeller.Label: needs an operator above 0; without one, no label function is emitted for `label` to call.
- Statements.CompileBody: no statement of the model is a `break` to the exit block of a labelled switch.
- Costs given as code in rules of the tree labeller, and the reducer that walks the labelled tree.
- Exception tables, unwinding, the LLVM wrappers, linking and the command line.
