# OpenHoldem: verified models

Dafny models of the parts of OpenHoldem whose correctness is hardest to see from
the code: the compiler front end of OH-script and OpenPPL, and eight smaller
cores. Run `dafny verify dfyconfig.toml` to check everything.

## The compiler front end

`CFormulaParser` reads an expression without looking at priorities and builds a
right-nested tree; `CParseTreeRotator` repairs it in place with pointer
rotations. OpenPPL when-sequences are a linked list first and become a directed
acyclic graph when the false-edges of open-ended when-conditions are
back-patched; evaluation walks that graph.

* `Tokens`, `ParseTrees`, `Precedence`: tokens with their priorities, trees as
  values, rotation as a function, and, independently of it, what it means that a
  tree respects priority and associativity on both sides of every operator
  (`WellRead`).
* `ExpressionParser`, `FunctionBodies`: the parser as a function on tokens. The
  main results are `ErrorFreeExpressionIsWellRead`, `EveryReadingIsFound`,
  `ReadingIsUnique` and `ErrorFreeBodyIsWellRead`.
* `OperatorPrecedence`: the program's own table against the table of operators in the
  user manual: what is read is exactly what the manual says (`ReadingFollowsManual`).
* `WrittenBodies`: how whole bodies are written, with all words for actions, and that
  the parser finds exactly these (`EveryBodyIsFound`, `ErrorFreeBodyIsWritten`).
* `RotationCount`: at most n(n-1)/2 rotations, and when exactly that many.
* `ParseTreeNodes`, `ParseTreeRotator`, `WhenLists`, `BackPatching`,
  `FormulaParser`: the node class with its three siblings on the heap, and the
  methods that read tokens, link nodes, thread the graph and rotate it. A ghost
  tree describes the nodes; every method is proved against the functions above.
* `WhenSequences`: evaluation on the graph, against a plain left-to-right scan.
* `Meanings`: laws about values in terms of tokens and lines, such as which line of a
  body decides (`FirstLineDecides`).
* `Compilation`: all of it in sequence. `CompileAndEvaluate` gives the value of
  the conventional reading of the tokens.

Unary operators may stand at any height of the priority table: the proofs need
only that infix operators have a priority, that brackets bind loosest, and that
equal priorities share associativity (`ProperTable`). The structural results
(nodes, order of tokens, no rotation left, number of rotations) hold for any
table whatsoever.

## The other cores

* `LevDistance`: the Levenshtein matrix against edit scripts.
* `FunctionValues`, `FunctionCache`: the result cache and the recursion counter of
  functions for any library, recursive ones included, and when the cache makes no
  difference (`HeartbeatIsTrue`).
* `HandresetDetector`: the vote over three heartbeats, against the full history.
* `AutoConnector`: several instances, a named mutex and shared memory, with every
  access to shared memory as a step of its own.
* `HandRanks`, `Dealing`: the tables made of the list of starting hands, and the
  swap dealer, the standard dealer and the enhanced dealer for any values of rand(),
  with the fairness of rejection sampling, of the shuffle and of the weighted choice.
* `HandLists`: hand lists, their text, and reading the text back.
* `ManualMode`: the chip ledger of the table simulator, in whole cents.
* `Common`, `Numerals`, `TablemapLines`, `Tablemap`: printf formats, tokens, atol() and
  strtoul(), the lines of a tablemap file, and saving and loading whole maps.

## Where the code does not do what it says

* `ExpectMatchingBracketClose()` falls through its switch: "(1]" is accepted
  although the message asks for the bracket of the same type
  (`BracketAcceptedExactlyWhen` says when).
* The manual lists "ln a" with exponentiation; the token is classified as a binary
  operator, so that an expression cannot begin with it (`LogarithmIsNoPrefix`).
* The constructor of the hand-reset detector does not clear the three slots
  (`UnclearedSlotsReportCorrectlyWhen` says when that is harmless).
* The old balances that one of the nine methods compares with are never stored: over
  every run they are those of the construction (`Detector.OnNewHeartbeat`). Other
  balances than the previous ones decide as meant if and only if they are the same
  wherever one is positive (`OtherBalancesDecideRightlyWhen`), and whatever they hold,
  some history is reported wrongly (`NoOldBalancesReportRightly`).
* The error of a recursion that is too deep leaves the recursion counter two higher
  for good: after fifty such errors every function is zero (`ErrorsAddUp`).
* Four of the predefined bet sizes have no entry in `TokenString()`, so that
  their nodes all have the same name (`NamedActionsAreTold`).
* A hash point with an x of four characters runs into the name of its record and
  is read back wrong (`PointIsReadExactlyWhen`); the blank as a character of a font is
  lost, and strings with white space around them, with capitals in site and network
  names, or with the names of hash types are changed or skipped. For whole files
  `FileRestoresMapsExactlyWhen` says exactly what comes back.
* The comment on `IsHandInWeightedRange()` draws a slope for the best hands as well;
  the code rejects such a hand for one single value of rand()
  (`TopClipRejectsOnlyZero`).
* A call before the flop, when nobody has bet, pays the small blind, and the big
  blind is to be matched afterwards (`CallStaysMatchedWhen`).
* The search for an unserved table in `SelectTableMapAndWindowAutomatically()`
  can never fail: `FirstCandidateIsChosen`.

## Model

| member | source | states |
|---|---|---|
| Tokens.SourceTableIsProper | OpenHoldem/TokenizerConstants.cpp:274-361 | the program's own priorities satisfy what the reading theorem needs: infix operators have one, brackets are lowest, equal ones share associativity |
| ParseTrees.RotatedKeepsInOrder | OpenHoldem/CParseTreeRotator.cpp:82-221 | for any table, rotation keeps the nodes in their order from left to right |
| ParseTrees.RotatedIsFullyRotated | OpenHoldem/CParseTreeRotator.cpp:82-249 | for any table, no node needs a left rotation afterwards |
| Precedence.RotatedNaiveIsWellRead | OpenHoldem/CParseTreeRotator.cpp:82-221 | a right-nested tree becomes one that respects priority and associativity on both sides, with the same tokens; the left side comes from the atomic left operands |
| Precedence.RotatedUnrolled | OpenHoldem/CParseTreeRotator.cpp:82-221 | every well-read tree is what rotation makes of the right-nested tree with its tokens |
| ExpressionParser.ErrorFreeExpressionIsWellRead | OpenHoldem/CFormulaParser.cpp:378-500 | parsing without error and rotating gives a well-read tree over exactly the tokens consumed |
| ExpressionParser.EveryReadingIsFound | OpenHoldem/CFormulaParser.cpp:378-500 | every well-read tree is the result of parsing and rotating its own tokens, whatever follows |
| ExpressionParser.ReadingIsUnique | OpenHoldem/CFormulaParser.cpp:378-500 | a token sequence has at most one well-read tree |
| ExpressionParser.AcceptedExactlyWhenSpelled | OpenHoldem/CFormulaParser.cpp:378-500 | the parser accepts exactly the spellings of expressions |
| ExpressionParser.SourceReading | OpenHoldem/CFormulaParser.cpp:378-500 | the same under the program's own priorities: the reading is the only one |
| OperatorPrecedence.TableFollowsManual | Documentation/Chapters/oh_script/oh_script_syntax.lyx:432-906 | the program's priorities and associativity are those of the table of operators in the user manual, for every pair of operators |
| OperatorPrecedence.ReadingFollowsManual | Documentation/Chapters/oh_script/oh_script_syntax.lyx:432-906 | a tree is what parsing and rotating makes of the tokens if and only if it has these tokens and follows the manual: no looser operator in an operand outside brackets, and none of the same category on the wrong side |
| OperatorPrecedence.PairIsGrouped | Documentation/Chapters/oh_script/oh_script_syntax.lyx:432-906 | x op y op z groups the tighter operator first, wherever it stands, and two of one category in its direction; conditionals included |
| OperatorPrecedence.UnaryIsGrouped | Documentation/Chapters/oh_script/oh_script_syntax.lyx:432-906 | -x op y is -(x op y) exactly if op is tighter than unary operators, otherwise (-x) op y |
| OperatorPrecedence.UnaryMayFollow | Documentation/Chapters/oh_script/oh_script_syntax.lyx:432-906 | behind an operator a unary operator takes its own operand alone |
| OperatorPrecedence.Examples | OpenHoldem/TokenizerConstants.cpp:274-361 | 1 + 2 * 3 is 1 + (2 * 3), and -2 ** 2 is -(2 ** 2) |
| OperatorPrecedence.LogarithmIsNoPrefix | Documentation/Chapters/oh_script/oh_script_syntax.lyx:432-906 | "ln a", as the manual writes it, is an error whatever follows |
| ExpressionParser.BracketAcceptedExactlyWhen | OpenHoldem/CFormulaParser.cpp:207-222 | a bracket may be closed by its own or any later kind, and by no earlier one |
| ExpressionParser.MismatchedBracketsAccepted | OpenHoldem/CFormulaParser.cpp:207-222 | "(1]" is accepted, "[1)" is not |
| RotationCount.RotationsAreQuadratic | OpenHoldem/CParseTreeRotator.cpp:112-155 | n operators take at most n(n-1)/2 left rotations, for any table |
| RotationCount.ChainAttainsBound | OpenHoldem/CParseTreeRotator.cpp:112-155 | a chain of one left-associative operator takes exactly that many |
| ParseTreeNodes.ParseTreeNode.SetRightMostSibbling | OpenHoldem/CParseTreeNode.cpp:420-429 | which of the three siblings is replaced, and that the others stay |
| ParseTreeRotator.NeedsLeftRotationOf | OpenHoldem/CParseTreeRotator.cpp:157-204 | the test on the heap node decides as the test on the tree, in every branch |
| ParseTreeRotator.Lift | OpenHoldem/CParseTreeRotator.cpp:206-217 | one rotation of pointers: the right operand on top, the old node with its left operand below |
| ParseTreeRotator.RotateLeft | OpenHoldem/CParseTreeRotator.cpp:206-221 | the nested recursion ends, settles the node and counts its rotations |
| ParseTreeRotator.RotateLeftAsLongAsNecessary | OpenHoldem/CParseTreeRotator.cpp:112-155 | the same, when no rotation may be needed |
| ParseTreeRotator.Rotate | OpenHoldem/CParseTreeRotator.cpp:82-110 | the whole graph is rotated in place, stays threaded, and every node is visited once |
| ParseTreeRotator.RotatedKeepsNodes | OpenHoldem/CParseTreeRotator.cpp:82-221 | exactly the same set of nodes, each once |
| ParseTreeRotator.RotatedIsWhenSequence | OpenHoldem/CParseTreeRotator.cpp:182-186 | rotating a when-sequence leaves its spine, and the next open-ended node, as they were |
| ParseTreeRotator.VerifyCorrectRotation | OpenHoldem/CParseTreeRotator.cpp:231-249 | the self-check holds exactly for fully rotated trees |
| ParseTreeRotator.RotateFunction | OpenHoldem/CParseTreeRotator.cpp:58-66 | after rotating a function the self-check never fails, for any table |
| WhenSequences.ScanSkipsSection | OpenHoldem/CParseTreeNode.cpp:356-384 | without a true guard nothing counts before the next open-ended when-condition |
| WhenSequences.ScanStep | OpenHoldem/CParseTreeNode.cpp:356-384 | one step over the edges is one step of the left-to-right scan |
| WhenSequences.EvaluateExpression | OpenHoldem/CParseTreeNode.cpp:242-384 | expressions have their value, with && and \|\| stopping early |
| WhenSequences.EvaluateWhen | OpenHoldem/CParseTreeNode.cpp:356-384 | walking the graph of when-conditions gives the result of the scan, user variables included |
| WhenSequences.Evaluate | OpenHoldem/CParseTreeNode.cpp:137-218 | any body has its meaning |
| Meanings.FirstLineDecides | OpenHoldem/CParseTreeNode.cpp:356-384 | the result is that of the first line whose condition is true and whose last open-ended condition before it is, if any; user variables set by lines before are set |
| Meanings.NoLineDecides | OpenHoldem/CParseTreeNode.cpp:356-384 | without such a line it is zero |
| Meanings.OrderGives | OpenHoldem/CParseTreeNode.cpp:137-218 | what each kind of action gives |
| Meanings.ConditionalChooses | OpenHoldem/CParseTreeNode.cpp:356-384 | the tokens of "c ? a : b" have the value of a or of b, by the value of c |
| Meanings.OperatorApplies | OpenHoldem/CParseTreeNode.cpp:265-354 | the tokens of "a op b", without looser operators in a and b, have the value of op on both values; && and || that of their truth |
| Meanings.BracketsKeepValue | OpenHoldem/CParseTreeNode.cpp:242-268 | brackets of any accepted kinds change no value |
| Meanings.ReplacedKeepsValue | OpenHoldem/CParseTreeNode.cpp:242-384 | parts of equal value may be exchanged |
| BackPatching.RotatedKeepsConditions | OpenHoldem/CParseTreeRotator.cpp:89-102 | rotation never replaces a when-condition: the same nodes in the same order, open-ended ones included |
| BackPatching.BackPatchOpenEndedWhenConditionSequence | OpenHoldem/CFormulaParser.cpp:723-762 | every open-ended when-condition gets the next one as false-edge, and nothing else changes |
| BackPatching.SetFalseEdge | OpenHoldem/CFormulaParser.cpp:723-762 | one such edge, with all lists and actions kept |
| BackPatching.EdgesLeadForward | OpenHoldem/CParseTreeNode.h:76-89 | every edge between when-conditions leads strictly forward |
| WhenLists.Append | OpenHoldem/CFormulaParser.cpp:525-580 | a new when-condition goes to the end of the list, by the sibling its predecessor calls for |
| WhenLists.SetAction | OpenHoldem/CFormulaParser.cpp:525-580 | the action becomes the second sibling of its when-condition, and the rest of the list stays |
| WhenLists.ListedIsLinked | OpenHoldem/CFormulaParser.cpp:525-580 | a list built that way is the when-sequence of its items |
| FunctionBodies.NamedActionsAreTold | OpenHoldem/TokenizerConstants.cpp:207-272 | the node of an action identifies the action exactly when the action has a string |
| FunctionBodies.ErrorFreeBodyIsWellRead | OpenHoldem/CFormulaParser.cpp:350-376 | in every error-free body all conditions, amounts and results are well-read after rotation |
| WrittenBodies.TableHasTheWords | OpenHoldem/TokenizerConstants.h:97-170 | the table of action words has exactly the words of each action, its own and its aliases, and the lookup finds them |
| WrittenBodies.NodeHasOwnWord | OpenHoldem/CParseTreeNode.cpp:96-102 | the node of a predefined action is named by the word of that action, if it has a string |
| WrittenBodies.NaiveBodyIsParsed | OpenHoldem/CFormulaParser.cpp:350-721 | every body with right-nested expressions is what parsing makes of its tokens, whatever words its actions are written with |
| WrittenBodies.EveryBodyIsFound | OpenHoldem/CFormulaParser.cpp:350-721 | parsing and rotating the tokens of any body gives the tree that is meant: conditions, predefined actions, returned values, amounts, percentages and user variables |
| WrittenBodies.ErrorFreeBodyIsWritten | OpenHoldem/CFormulaParser.cpp:350-721 | the tokens of every error-free body are those of such a body and of nothing else, and its tree is the one after rotation |
| WrittenBodies.AcceptedExactlyWhenWritten | OpenHoldem/CFormulaParser.cpp:350-721 | the parser accepts exactly the tokens of bodies |
| WrittenBodies.VariableNamesAre | OpenHoldem/CFormulaParser.cpp:591-592 | user variables begin with "user" in any letter case, memory commands with "me_" |
| FormulaParser.FormulaParser.ParseExpression | OpenHoldem/CFormulaParser.cpp:378-436 | the recursive descent builds fresh nodes for the tree of the function, consumes its tokens and reports its errors |
| FormulaParser.FormulaParser.ParseOperand | OpenHoldem/CFormulaParser.cpp:378-394 | the same for the first operand |
| FormulaParser.FormulaParser.ParseBracketExpression | OpenHoldem/CFormulaParser.cpp:438-451 | the same for brackets |
| FormulaParser.FormulaParser.ExpectMatchingBracketClose | OpenHoldem/CFormulaParser.cpp:207-222 | one token is taken, and an error reported unless it closes the bracket |
| FormulaParser.FormulaParser.ParseUnaryExpression | OpenHoldem/CFormulaParser.cpp:453-463 | the same for unary operators |
| FormulaParser.FormulaParser.ParseSimpleExpression | OpenHoldem/CFormulaParser.cpp:465-484 | the same for identifiers and numbers |
| FormulaParser.FormulaParser.ParseConditionalPartialThenElseExpressions | OpenHoldem/CFormulaParser.cpp:486-500 | the parts of "? then : else", or the error for a missing ":" |
| FormulaParser.FormulaParser.ParseOpenEndedWhenConditionSequence | OpenHoldem/CFormulaParser.cpp:525-580 | the loop builds the linked list of the when-sequence, with no false-edge set |
| FormulaParser.FormulaParser.ParseOpenPPLUserVar | OpenHoldem/CFormulaParser.cpp:582-604 | a user variable to be set, or the error for a wrong name |
| FormulaParser.FormulaParser.ParseOpenPPLAction | OpenHoldem/CFormulaParser.cpp:606-639 | the node of each kind of action and the keyword after it, none for user variables |
| FormulaParser.FormulaParser.ExpectKeywordForce | OpenHoldem/CFormulaParser.cpp:641-670 | the keyword is taken; a missing keyword is an error and costs one token, a delay is an error and costs two more |
| FormulaParser.FormulaParser.ParseAmount | OpenHoldem/CFormulaParser.cpp:672-721 | the raise actions with an amount |
| Compilation.ParseFunctionBody | OpenHoldem/CFormulaParser.cpp:350-376 | a body without error is a threaded graph for the tree of the tokens |
| Compilation.Compile | OpenHoldem/CFormulaParser.cpp:241-313 | parsing, the check for extra tokens, and rotation together |
| Compilation.CompileAndEvaluate | OpenHoldem/CParseTreeNode.cpp:137-218 | the value computed on the heap is the meaning of the well-read body of the tokens, and of whatever body these tokens are written for |
| Compilation.CachedValueIsHeapValue | OpenHoldem/CFunction.cpp:71-98 | the cached value of a function is what its nodes on the heap evaluate to, with every identifier at its own value |
| LevDistance.NoScriptIsCheaper | OpenHoldem/CLevDistance.cpp:77-161 | no script of insertions, deletions and substitutions is cheaper than the distance |
| LevDistance.BestScript | OpenHoldem/CLevDistance.cpp:77-161 | some script costs exactly the distance |
| LevDistance.DistanceIsLeastCost | OpenHoldem/CLevDistance.cpp:77-161 | the distance is the least cost of all scripts between two arbitrary strings |
| LevDistance.DistanceBounds | OpenHoldem/CLevDistance.cpp:77-161 | between the difference of the lengths and the longer length |
| LevDistance.DistanceZero | OpenHoldem/CLevDistance.cpp:77-161 | zero exactly for equal strings |
| LevDistance.DistanceSymmetric | OpenHoldem/CLevDistance.cpp:77-161 | symmetric |
| LevDistance.DistanceTriangle | OpenHoldem/CLevDistance.cpp:77-161 | the triangle inequality |
| LevDistance.CellsAreSeparate | OpenHoldem/CLevDistance.cpp:44-47 | the flat index stays in the matrix, and different cells have different indices |
| LevDistance.PutAt | OpenHoldem/CLevDistance.cpp:65-71 | one cell changes, all others stay |
| LevDistance.LD | OpenHoldem/CLevDistance.cpp:77-161 | the matrix method computes the distance |
| FunctionValues.HeartbeatIsTrue | OpenHoldem/CFunction.cpp:50-99 | for any library in which no user variable is set: whenever evaluation without a cache ends within the limit, evaluation with all caches gives the same value, the counter is back, every entry of the caches is true, and each cached body has been evaluated exactly once |
| FunctionValues.PlainCall | OpenHoldem/CFunction.cpp:50-99 | evaluation without a cache that ends from some depth ends from every smaller one, with the same value |
| FunctionValues.CacheFreeRecursion | OpenHoldem/CFunction.cpp:50-99 | that value is the meaning of the body with every identifier at its own value |
| FunctionValues.IdentifiersAreWorth | OpenHoldem/CFunctionCollection.cpp:552-586 | what each identifier is worth there: lists, functions, missing and empty ones, and names of other engines |
| FunctionValues.ScriptNamesAre | OpenHoldem/COHScriptObject.h:34-36 | the collection answers for exactly the names that begin with "f$", "list" or a capital |
| FunctionValues.AcyclicEnds | OpenHoldem/CFunction.cpp:55-69 | without cycles evaluation ends unless functions are nested more than the limit |
| FunctionValues.VariableMakesStale | OpenHoldem/CFunction.cpp:71-98 | a function that reads a user variable keeps its old result after the variable has changed |
| FunctionValues.EndlessRecursion | OpenHoldem/CFunction.cpp:54-69 | a function that calls itself is zero, and the counter is two higher afterwards |
| FunctionValues.ErrorsAddUp | OpenHoldem/CFunction.cpp:54-69 | over any number of heartbeats with such an error the counter grows by two each, and from the fiftieth on every function is zero |
| FunctionCache.ScriptObject.SetValue | OpenHoldem/CFunction.cpp:131-134 | the value counts as cached |
| FunctionCache.FunctionCollection.EvaluateFunction | OpenHoldem/CFunction.cpp:50-99 | for any library and any state, the result and all caches, counters and user variables are those of the evaluation function |
| FunctionCache.FunctionCollection.EvaluateSymbol | OpenHoldem/CFunctionCollection.cpp:552-586 | the same for functions, lists and missing names; other names are declined |
| FunctionCache.FunctionCollection.EvaluateIdentifier | OpenHoldem/CParseTreeNode.cpp:234-240 | an identifier is asked from the functions first and from all other engines then |
| FunctionCache.FunctionCollection.EvaluateExpression | OpenHoldem/CParseTreeNode.cpp:242-384 | an expression is evaluated from left to right, each operand in the state the one before has left |
| FunctionCache.FunctionCollection.EvaluateBody | OpenHoldem/CParseTreeNode.cpp:356-384 | the loop over when-conditions is the walk over their edges, user variables included |
| FunctionCache.FunctionCollection.Evaluate | OpenHoldem/CFunctionCollection.cpp:195-200 | at any time in a heartbeat: the exact result and state, and, where no user variable is set and evaluation ends, the true value, only true entries in all caches and no body evaluated twice |
| FunctionCache.FunctionCollection.ClearCache | OpenHoldem/CFunctionCollection.cpp:379-388 | afterwards no result is cached |
| FunctionCache.FunctionCollection.ClearIsConsistent | OpenHoldem/CFunctionCollection.cpp:379-388 | empty caches are consistent with whatever the next heartbeat brings |
| HandresetDetector.BitcountReachesTwo | OpenHoldem/NumericalFunctions.cpp:37-49 | counting bits in parallel fields reaches two exactly when two bits are set, for all 32-bit words |
| HandresetDetector.BitcountCountsMethods | OpenHoldem/CHandresetDetector.cpp:65-72 | the bit count reaches two exactly when two different methods fired |
| HandresetDetector.ResetsFollowHistory | OpenHoldem/CHandresetDetector.cpp:53-91 | over every run from cleared slots a reset is reported exactly when two different methods fired within three heartbeats since the previous reset |
| HandresetDetector.FiringsAreUsedOnce | OpenHoldem/CHandresetDetector.cpp:82-86 | twice the resets and all firings still pending never exceed the firings so far |
| HandresetDetector.HandsAreAtMostHalfTheFirings | OpenHoldem/CHandresetDetector.cpp:72-86 | hands played is at most half of all firings |
| HandresetDetector.HeadsupCounterIsLatestRun | OpenHoldem/CHandresetDetector.cpp:76-81 | the heads-up counter is the length of the latest unbroken run of heads-up resets |
| HandresetDetector.UnclearedSlotsReportCorrectlyWhen | OpenHoldem/CHandresetDetector.cpp:35-44 | whatever the slots hold at first, the reports are those of cleared slots for every history if and only if the first two slots are empty |
| HandresetDetector.Detector.IsHandresetBy | OpenHoldem/CHandresetDetector.cpp:120-223 | each of the nine methods fires under its condition |
| HandresetDetector.Detector.BitVectorFiringHandresetMethods | OpenHoldem/CHandresetDetector.cpp:93-118 | nine shifts give the bit-vector of exactly the methods that fire |
| HandresetDetector.Detector.CalculateIsHandreset | OpenHoldem/CHandresetDetector.cpp:53-91 | the slots, the report and the counters take one step of the run |
| HandresetDetector.Detector.OnNewHeartbeat | OpenHoldem/CHandresetDetector.cpp:236-288 | nothing happens before the symbol engines exist; otherwise the report is the vote over the full history, in which balances are compared with those of the construction |
| HandresetDetector.MethodsFollowHistory | OpenHoldem/CHandresetDetector.cpp:121-297 | each of the nine methods fires at a heartbeat exactly when what the table shows and what it has shown before tell so |
| HandresetDetector.OtherBalancesDecideRightlyWhen | OpenHoldem/CHandresetDetector.cpp:193-205 | comparing with other balances than the previous ones decides as meant for all current balances if and only if they are the same wherever one of them is positive |
| HandresetDetector.NoOldBalancesReportRightly | OpenHoldem/CHandresetDetector.cpp:266-278 | for every initial content of the old balances there is a history with another report than that of a detector that stores balances |
| AutoConnector.StepKeepsInv | OpenHoldem/CAutoConnector.cpp:217-417 | every step of every instance keeps the invariant |
| AutoConnector.NoWindowIsServedTwice | OpenHoldem/CAutoConnector.cpp:217-417 | in every interleaving no two instances are attached to the same window |
| AutoConnector.HandleAgreesWithSlot | OpenHoldem/CAutoConnector.cpp:227-258 | outside the mutex the own handle is the shared slot, and only one instance is inside |
| AutoConnector.FirstCandidateIsChosen | OpenHoldem/CAutoConnector.cpp:428-442 | once a window is listed, the first one is chosen |
| AutoConnector.ConnectAttachesFirstUnserved | OpenHoldem/CAutoConnector.cpp:217-325 | over every run a whole Connect() ends attached, by handle and slot, to the first offered window that no slot held when it was compared, and stays as it was exactly if there was none |
| AutoConnector.DisconnectDetaches | OpenHoldem/CAutoConnector.cpp:359-417 | over every run a whole Disconnect() leaves neither handle nor slot |
| AutoConnector.FreeWindowCanBeAttached | OpenHoldem/CAutoConnector.cpp:217-325 | while the mutex is free, any free window can be attached by any idle instance in 2 n + 8 steps of its own |
| AutoConnector.NobodyIsStuck | OpenHoldem/CAutoConnector.cpp:217-417 | whoever is not idle can go on |
| HandRanks.RanksArePlaces | OpenHoldem/PrWinHandranges.cpp:43-62 | for any order of the 169 kinds, any two different cards are looked up, in either order, under the place of their kind |
| HandRanks.EveryHandIsListedOnce | OpenHoldem/CIteratorThread.cpp:378-443 | for any order of the kinds the vanilla table has every hand of two cards exactly once |
| HandRanks.EntriesDiffer | OpenHoldem/CIteratorThread.cpp:378-443 | every entry is two different cards, and no two entries are the same hand |
| HandRanks.ListIsComplete | OpenHoldem/CIteratorThread.cpp:363-444 | the index of the table ends at exactly 1326 |
| HandRanks.VanillaIsValid | OpenHoldem/CIteratorThread.cpp:446-447 | the table made at startup is one the enhanced dealer can work with |
| HandRanks.PrwinTables.PutHands | OpenHoldem/CIteratorThread.cpp:380-443 | the three cases write exactly the hands of the kind |
| HandRanks.PrwinTables.InitHandranktTableForPrwin | OpenHoldem/CIteratorThread.cpp:358-471 | both rank tables, and ten chairs that all have the vanilla table |
| HandRanks.PrwinTables.constructor | OpenHoldem/CIteratorThread.cpp:92-103 | after construction the rank of any two cards is the place of their kind |
| Dealing.SamplingIsUnbiased | OpenHoldem/CIteratorThread.cpp:674-684 | for every limit up to RAND_MAX each index is the result of exactly RAND_MAX/limit accepted values |
| Dealing.ShuffledIsDeck | OpenHoldem/CIteratorThread.cpp:499-518 | the shuffled deck is a permutation of the deck |
| Dealing.ChoicesAreVisible | OpenHoldem/CIteratorThread.cpp:510-518 | different choices of the shuffle give different decks |
| Dealing.EveryOrderIsReached | OpenHoldem/CIteratorThread.cpp:510-518 | every order of the deck is the result of some choices |
| Dealing.Dealer.Shuffle | OpenHoldem/CIteratorThread.cpp:504-518 | the loop of swaps in place is that shuffle; it returns exactly if 52 values are to come |
| Dealing.Dealer.ScanDeck | OpenHoldem/CIteratorThread.cpp:526-530 | the scan stops at the next unused card and never leaves the deck |
| Dealing.FrontOfDeckIsFair | OpenHoldem/CIteratorThread.cpp:520-544 | unused cards from the front of a deck are different and new |
| Dealing.Dealer.SwapDealingAlgorithmForMoreThan13Opponents | OpenHoldem/CIteratorThread.cpp:499-545 | it returns exactly if 52 values are to come; the hands are the first unused cards of the deck and the board the next ones, whenever known and needed cards fit in it |
| Dealing.SearchCanEnd | OpenHoldem/CIteratorThread.cpp:551-564 | some raw value ends the search for a card exactly when not all cards are in use |
| Dealing.Dealer.GetRandomCard | OpenHoldem/CIteratorThread.cpp:547-565 | the first raw value that is a card and not in use, and the values after it; nothing exactly if there is no such value |
| Dealing.Dealer.IsHandInWeightedRange | OpenHoldem/PrWinHandranges.cpp:19-98 | the rank is looked up; the regions of the graph are decided without a draw, the slopes by one raw value |
| Dealing.TopClipRejectsOnlyZero | OpenHoldem/PrWinHandranges.cpp:80-85 | a hand below the top clip that is not always played is rejected by the raw value zero and no other: the slope drawn for the best hands is none |
| Dealing.PoorHandsAreOnASlope | OpenHoldem/PrWinHandranges.cpp:87-97 | of the raw values of any number of blocks of wontplay - willplay, exactly wontplay - rank - 1 in each block let a hand of that rank through: one less for each further rank, none for the last |
| Dealing.SureExactlyWhen | OpenHoldem/PrWinHandranges.cpp:64-78 | no raw value rejects a hand if and only if it is always played, in the 100% region, or behind it with no room for a slope |
| Dealing.HopelessExactlyWhen | OpenHoldem/PrWinHandranges.cpp:59-63 | every raw value rejects a hand if and only if its rank is never played, or the last one of the slope |
| Dealing.WeightedHandIs | OpenHoldem/CIteratorThread.cpp:582-618 | a sure hand is dealt at once and a hopeless rank passed over, with no value spent on it; otherwise one value decides |
| Dealing.CardsAreDrawnEvenly | OpenHoldem/CIteratorThread.cpp:547-565 | in every block of 64 raw values each free card has exactly one |
| Dealing.BigBlindPlaysAnything | OpenHoldem/CIteratorThread.cpp:582-618 | a big blind that is free has the next two cards; the hands behind are weighted |
| Dealing.Dealer.DealWeightedHand | OpenHoldem/CIteratorThread.cpp:582-618 | exactly the hand and the remaining values of the function of the values to come; the hand is new and playable, and rejected hands leave no card in use |
| Dealing.Dealer.StandardDealingAlgorithmForUpTo13Opponents | OpenHoldem/CIteratorThread.cpp:567-628 | whether it returns, its hands, board and remaining values are those of the function of the values to come; all cards are different and new, and the used set is the initial one and the dealt cards |
| Dealing.Dealer.ChooseHand | OpenHoldem/CIteratorThread.cpp:674-709 | the hand, and the values that remain, are the function of the values to come; the hand is below the limit, has a positive weight and no dead card |
| Dealing.HandCanBeFound | OpenHoldem/CIteratorThread.cpp:677-709 | some values end the search if and only if some hand within the limit has a weight and no dead card |
| Dealing.VanillaSearchCanEnd | OpenHoldem/CIteratorThread.cpp:446-466 | with the vanilla table, if and only if some hand within the limit has no dead card |
| Dealing.ChoiceIsEven | OpenHoldem/CIteratorThread.cpp:679-693 | every live hand that is always dealt is chosen at once by exactly RAND_MAX/limit values |
| Dealing.ChoiceIsWeighted | OpenHoldem/CIteratorThread.cpp:679-706 | every other live hand is chosen and let pass by pairs of values in exact proportion to its weight, if the level divides the number of values |
| Dealing.CommonCardsAreNew | OpenHoldem/CIteratorThread.cpp:719-726 | for all values the board consists of new and different cards, as many as are missing |
| Dealing.EnhancedHandsAreFair | OpenHoldem/CIteratorThread.cpp:649-717 | for all values the hands are new and different, and each is one that the chair allows |
| Dealing.UnweightedDealersAgree | OpenHoldem/CIteratorThread.cpp:649-717 | to opponents that are ignored or free the enhanced dealer deals what the standard dealer does without weighting |
| Dealing.Dealer.EnhancedDealingAlgorithm | OpenHoldem/CIteratorThread.cpp:631-727 | the same as for the standard dealer, for exactly the active opponents in order, each with a hand that his chair allows |
| HandLists.CellsAreHands | OpenHoldem/COHScriptList.cpp:36-63 | two descriptions mean the same cell exactly when they are the same unordered hand |
| HandLists.SetChangesOneHand | OpenHoldem/COHScriptList.cpp:36-101 | setting a hand is seen for that hand, in either order of ranks, and for no other |
| HandLists.WordIsOneToken | OpenHoldem/CTokenizer.cpp:261-299 | identifier, number or cards: every written hand is read as one token |
| HandLists.WordMeansItsCell | OpenHoldem/COHScriptList.cpp:103-136 | every written hand stands for the cell it came from |
| HandLists.HandWordsAre | OpenHoldem/COHScriptList.cpp:103-136 | exactly which words are hands, and for which cell |
| HandLists.TextRestoresMatrix | OpenHoldem/COHScriptList.cpp:179-225 | parsing the text of any matrix into an empty list restores the matrix |
| HandLists.LineCommentIsSkipped | OpenHoldem/CTokenizer.cpp:434-444 | a comment up to the end of its line changes nothing |
| HandLists.CommentIsSkipped | OpenHoldem/CTokenizer.cpp:446-470 | a comment up to the first star and slash behind its first slash changes nothing |
| HandLists.HandList.Clear | OpenHoldem/COHScriptList.cpp:26-32 | no cell is set afterwards |
| HandLists.HandList.Set | OpenHoldem/COHScriptList.cpp:36-63 | exactly one cell is added |
| HandLists.HandList.Remove | OpenHoldem/COHScriptList.cpp:67-78 | exactly one cell is removed |
| HandLists.HandList.IsOnList | OpenHoldem/COHScriptList.cpp:80-101 | whether the cell of the hand is set |
| HandLists.HandList.SetMember | OpenHoldem/COHScriptList.cpp:103-136 | a valid word sets its cell, any other one nothing |
| HandLists.HandList.Parse | OpenHoldem/CFormulaParser.cpp:319-348 | the loop sets the cells of all words, whatever comments are between them, up to the first that is no hand |
| HandLists.HandList.GenerateFunctionTextFromHandlistMatrix | OpenHoldem/COHScriptList.cpp:179-225 | the nested loops write the three lines of the matrix |
| ManualMode.StepKeepsLedger | ManualMode/ManualModeDlg.cpp:2277-2396 | every action keeps balances plus bets plus pot and makes no balance negative |
| ManualMode.RunKeepsTotal | ManualMode/ManualModeDlg.cpp:2277-2396 | so does any sequence of actions |
| ManualMode.CallMatchesOrIsAllIn | ManualMode/ManualModeDlg.cpp:2291-2305 | after a call the player has matched the bet that was to match, or is all-in |
| ManualMode.CallStaysMatchedWhen | ManualMode/ManualModeDlg.cpp:2377-2396 | with enough money the bet is still matched afterwards, except exactly when nobody had bet before the flop and the small blind lies strictly between nothing and the big blind |
| ManualMode.SwagTopsOrIsAllIn | ManualMode/ManualModeDlg.cpp:2622-2650 | a swag changes nothing, tops the current bet, or is all-in |
| ManualMode.RaiseTopsOrIsAllIn | ManualMode/ManualModeDlg.cpp:2307-2323 | a raise tops the bet to match by the big blind, or by two with a fixed limit on turn and river, or is all-in |
| ManualMode.AllInBetsEverything | ManualMode/ManualModeDlg.cpp:2325-2334 | the whole balance goes to the bet |
| ManualMode.OnlyThePlayerBets | ManualMode/ManualModeDlg.cpp:2291-2334 | nothing else changes with a bet |
| ManualMode.BoardCollectsBets | ManualMode/ManualModeDlg.cpp:2336-2374 | a board dealt card by card takes the bets with its first card, the turn and the river, and with no other |
| ManualMode.StepKeepsCards | ManualMode/ManualModeDlg.cpp:1509-1532 | every action keeps the used cards the visible ones, all different, as long as only cards are set that the menu offers |
| ManualMode.FoldTakesTheCards | ManualMode/ManualModeDlg.cpp:2277-2289 | who folds has no visible cards; other cards and all money stay |
| ManualMode.Dialog.GetCurrentBet | ManualMode/ManualModeDlg.cpp:2377-2396 | the highest bet, or the blind to come |
| ManualMode.Dialog.GetBr | ManualMode/ManualModeDlg.cpp:2398-2417 | the betting round by the community cards |
| ManualMode.Dialog.Userchair | ManualMode/ManualModeDlg.cpp:2431-2444 | the first chair with visible cards |
| ManualMode.Dialog.DoCall | ManualMode/ManualModeDlg.cpp:2291-2305 | the state is that of a call |
| ManualMode.Dialog.DoRaise | ManualMode/ManualModeDlg.cpp:2307-2323 | the state is that of a raise |
| ManualMode.Dialog.DoAllin | ManualMode/ManualModeDlg.cpp:2325-2334 | the state is that of an all-in |
| ManualMode.Dialog.DoFold | ManualMode/ManualModeDlg.cpp:2277-2289 | the cards go, no money moves |
| ManualMode.Dialog.ExecuteSwag | ManualMode/ManualModeDlg.cpp:2622-2650 | the state is that of a swag, and the amount is forgotten |
| ManualMode.Dialog.DoScrapeBetsIntoPot | ManualMode/ManualModeDlg.cpp:2336-2374 | the bets go into the pot when flop, turn or river come |
| ManualMode.Dialog.SetCard | ManualMode/ManualModeDlg.cpp:1986-2001 | a card is placed, and the pot follows for a community card |
| Numerals.ValueOfDigits | CTablemap/CTablemap.cpp:773-866 | reading printed digits gives the number back, in both bases |
| Numerals.AtolOfDecimal | CTablemap/CTablemap.cpp:320-330 | atol() reads what "%d" printed, for all 32-bit numbers |
| Numerals.StrtoulOfHex | CTablemap/CTablemap.cpp:446 | strtoul() reads what "%x" printed, with or without leading zeros |
| Numerals.ShortDecimals | CTablemap/CTablemap.cpp:826 | exactly the numbers from -99 to 999 have at most three characters |
| Numerals.TokensOfParts | CTablemap/CTablemap.cpp:290 | a blank separates the tokens before it from those behind it |
| TablemapLines.SizeIsRead | CTablemap/CTablemap.cpp:307-331 | every size line is read back as its record |
| TablemapLines.TrimIs | CTablemap/CTablemap.cpp:282 | trimming takes the white space away on both sides, and nothing else |
| TablemapLines.SymbolIsRead | CTablemap/CTablemap.cpp:348-389 | the line of any string is read as the string with its text trimmed, in lower case where the name says so, or is skipped |
| TablemapLines.SymbolComesBackExactlyWhen | CTablemap/CTablemap.cpp:348-389 | a string comes back if and only if its text is trimmed, in lower case where the name says so, and it is not one of the skipped ones; what comes back once does so again |
| TablemapLines.RegionIsRead | CTablemap/CTablemap.cpp:393-464 | every region line is read back as its record |
| TablemapLines.FontIsRead | CTablemap/CTablemap.cpp:486-513 | the line of any font is read with the same columns, without its character if that is a blank, and with a key made of the columns |
| TablemapLines.PointIsReadExactlyWhen | CTablemap/CTablemap.cpp:534-567 | a hash point is read back if and only if its x, printed as a signed number, is between -99 and 999 |
| TablemapLines.PointIsReadAs | CTablemap/CTablemap.cpp:534-567 | which point is read for any printed one |
| TablemapLines.LongPointIsRead | CTablemap/CTablemap.cpp:549-567 | otherwise the point (y, 0) is read |
| TablemapLines.HashIsRead | CTablemap/CTablemap.cpp:587-611 | every hash value is read back as its record |
| TablemapLines.ImageHeaderIsRead | CTablemap/CTablemap.cpp:632-662 | every image header is read back, unless the image is too large |
| TablemapLines.RowIsRead | CTablemap/CTablemap.cpp:668-690 | every row of pixels is read back, through moving alpha to the end and back |
| TablemapLines.LineFailsExactlyWhen | CTablemap/CTablemap.cpp:307-730 | which lines have an unknown type, and which a syntax error |
| Tablemap.AddAllRestores | CTablemap/CTablemap.h:176-182 | inserting all records of a map in any order builds the map again |
| Tablemap.UnfitPointIsLost | CTablemap/CTablemap.cpp:549-583 | a group with a point that does not fit its field is never restored, whatever the other points are read as |
| Tablemap.PointsComeBackExactlyWhen | CTablemap/CTablemap.cpp:534-584 | the hash points of all groups are restored if and only if all fit |
| Tablemap.SymbolsComeBackExactlyWhen | CTablemap/CTablemap.cpp:348-389 | all strings are restored if and only if each of them is stable |
| Tablemap.FontsComeBackExactlyWhen | CTablemap/CTablemap.cpp:486-530 | the fonts of all groups are restored if and only if no character is a blank and each key is made of the printed columns |
| Tablemap.FileRestoresMapsExactlyWhen | CTablemap/CTablemap.cpp:195-869 | loading a file that lists all records, in any order, succeeds and restores sizes, regions, hash values and images exactly, and strings, fonts and hash points each if and only if all of them are ones that come back |
| Tablemap.RefusedExactlyWhen | CTablemap/CTablemap.cpp:227-275 | which files are refused before any record: those of empty lines only, and those of other versions |
| Tablemap.VersionsLoadAlike | CTablemap/CTablemap.cpp:252-305 | a file of OpenHoldem loads as one of OpenScrape |
| Tablemap.Tablemap.Tokenize | CTablemap/CTablemap.cpp:290 | the next token from the cursor, or nothing |
| Tablemap.Tablemap.ReadLine | CTablemap/CTablemap.cpp:288-730 | reading token by token gives the record of the line, or its error |
| Tablemap.Tablemap.InsertRecord | CTablemap/CTablemap.h:176-182 | a record is entered unless its key exists |
| Tablemap.Tablemap.LoadTablemap | CTablemap/CTablemap.cpp:195-739 | the status and the maps after loading any file |
| Tablemap.Tablemap.SaveTablemap | CTablemap/CTablemap.cpp:751-869 | the loops write a file that lists all records of all maps; with printable names, loading it restores the maps if and only if all strings, fonts and hash points come back |

## Left out

- The tokenizer of formulas as a whole: the front end starts from tokens. Only the tokens of hand lists are read from characters.
- ParseTreeRotator.Rotate: trees with missing operands, which the original rotates after a parse error, are excluded.
- ParseTreeRotator.RotateFunction: the same for whole functions with parse errors.
- Compilation.ParseFunctionBody: after a parse error the original back-patches as well; nothing is stated for it.
- Compilation.Compile: after a parse error the original adds and rotates the function as well; nothing is stated for it but the error.
- Line numbers, traces and the texts of error messages.
- The percentage operator that is pushed back in "RaiseBy 60% Force" ends the amount; the push-back flag itself is not a part of the state.
- Floating point: values are real numbers, money is whole cents, and the formats of two decimals are not modelled.
- The meaning of single operators and of raise amounts: parameters of the semantics.
- FunctionValues.HeartbeatIsTrue: libraries in which a function sets a user variable are excluded, as `VariableMakesStale` shows that the cache does make a difference there; the methods of FunctionCache cover them.
- FunctionCache.FunctionCollection.EvaluateBody: function bodies are values there; evaluation of their nodes is covered by WhenSequences, and `CachedValueIsHeapValue` connects the two.
- FunctionCache.FunctionCollection.Evaluate: the parser's additions to the function map happen before; the map is fixed.
- AutoConnector.NoWindowIsServedTwice: the destructor, which clears the slot before the handle and without the mutex, is not a step; neither are windows with a null handle.
- The dealers take the values of rand() from a finite list. A dealer that has used up all of them has not returned; nothing is stated about its cards then.
- HandRanks.PrwinTables.InitHandranktTableForPrwin: the list of the 169 kinds is an input, any order of all of them; its text form is not read.
- HandLists.HandList.Parse: a line comment without a line end, or a comment without its star and slash, makes the original read behind the end of the text; here it is no token, so that parsing fails. Characters outside ASCII are not modelled.
- Tablemap.FileRestoresMapsExactlyWhen: the index of images is a parameter, the derived bitmap of an image is left out, and version and time text have no white space but blanks.
- Tablemap.Tablemap.SaveTablemap: the order of std::map is not fixed; any order will do.
- Numerals.StrtoulOfHex: signs before hexadecimal numbers are not part of the model.
- Hash values of images and their collisions (UpdateHashes).
- HandLists: NHandsOnList(), which uses ranks as indices and reads outside the matrix.
- Windows, dialogs, painting, registry, DLLs, logging and XML-RPC.
