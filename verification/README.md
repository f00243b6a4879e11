# GSL: parser, layout, evaluator and lexer

GSL generates code from scripts. A script line is read token by token into a tree; the tree
is evaluated, and its pieces are laid out side by side into output lines. This project models
the parts of that which are hardest to get right, and proves what they do.

Each part is there twice: as the imperative code the repository has, with linked nodes, flat
buffers and loops, and as a short specification on values that the code is proved against. The
theorems are about the specification, for all inputs and all runs.

| files | what they model |
|---|---|
| `ParseTree`, `CursorLaws`, `CursorFrame`, `Precedence` | the cursor that builds parse trees by climbing, as a zipper: columns and brackets over every run, operands that are built alike everywhere, and the equality with parsing by precedence |
| `Arguments`, `Literals` | calls, numbers and strings as operands |
| `ParseCursor`, `ExpressionDialog` | the same with linked nodes and parent links, and the expression dialog that drives it |
| `LayoutSpec`, `ResultWalk`, `Concatenate`, `Trim`, `OutputBuffer` | `concatenate_results`: the walk without a stack, the two passes, the flat buffer, trimming, and extended lines |
| `Evaluation`, `ConstantCache` | what expressions mean, and the results kept on constant nodes |
| `PrettyPrint`, `Justify` | the modifiers of a substitution, `justify` among them |
| `ScopeSort`, `SiblingSort`, `Forest` | sorting siblings in place, and moving items without making cycles |
| `MacroCall`, `ScopeStack` | binding parameters by climbing two lists in step, and the scopes of a call |
| `Blocks`, `LeftAlign`, `Numbers`, `Template` | blocks of lines, `strleft`, numbers and texts, template tokens and escapes |
| `ZsLexTable`, `ZsLex`, `ZsLexLaws` | the ZeroScript lexer |
| `Wrappers` | a value that may be missing |

Conventions. Integers are unbounded, texts are sequences of characters without a null, and
buffers are long enough. An exception of the dialog is a result that stops the run. Nodes that
the source links by pointers are objects here, and ghost values say what they represent; a
method's contract says what it does to that value.

## What the proofs found

- Unary operators bind tightest, `NOT` too, although its entry in the priority table is low:
  the climb passes every parent without a first operand (ggpars.c:1643). The comment above the
  function says it stops there; the model follows the code.
- An operator in an argument that follows an empty first argument climbs past the comma, since
  the comma has no first operand either: `f (, b + c)` is read as `f ((, b) + c)`.
  So does a last `?`: `f (, b ?)` is read as `f ((, b) ?)`. `ArgumentAfterEmpty` says exactly
  when an argument stays in its place, and `EmptyFirstCaptured` is the run of the first.
- An open bracket that the root node holds is never reported: `(a` is accepted.
  `UnclosedReported` says exactly which are.
- A substitution is kept as constant when its parts are, although at the end of an extended
  line its space is what the text before it leaves (ggcode.c:3548-3561). What it prints then
  depends on that text if and only if the substitution is stale (`FixedExactly`). Without a
  format that is: there is room, and its text comes to a `justify` with two words or more that
  no later modifier runs together (`StaleExactly`, `JustifiedExactly`). `StaleSubstitution` is
  one for every two words.
- The space of a substitution is meant to reach to the next piece, but the node that is looked
  at (ggcode.c:3524-3537) is the one that ends with the substitution itself, so its own spaces
  are added. The model follows the code.
- A `substitute` mark is recognised in a template if and only if the character after its first
  is a parenthesis; otherwise the text before it takes it, as in `%%x` with the mark `%%`
  (`MarkNeedsParenthesis`, `MarkIsTakenAsText`).
- The lexer does not clear the text of its token: the empty string, and brackets, show the text
  of the token before (`StringTextExact`, `SingleToken`). In a string left open every further
  call at the end of the text adds a newline (`NullStable`).
- More actual than formal parameters are found after the scopes of the macro have been pushed
  (ggcode.c:3221-3246), and these stay on the stack: `InitialiseMacroBlock` says that they do
  so in every case, `CallWithoutFormals` is an example, and `FailedCallMisleadsReturn` says
  what the next return then takes off.
- The walk over the operands of a concatenation goes down through operators of every kind but
  climbs only through concatenations (ggcomm.c:1376-1419). `NextOperand` says exactly where it
  ends.
- A move without `to`, `before` or `after` is refused, and the report of that reads the name of
  the new parent's class, which is null (ggcode.c:2674-2683). `MoveTheItem` says that it is
  refused if and only if the locator is empty.
- Joined rows have no separator, and the trimming that follows looks one character before the
  buffer if and only if the result begins with a newline (ggcomm.c:1356). What it finds there
  does not matter (`TrimLines`).

## Model

| member | source | states |
|---|---|---|
| ParseCursor.Parser.FieldHolding | src/gsl/ggpars.c:1685-1716 | the field of the grandparent that holds the parent is found; the anomaly branch is never reached |
| ParseCursor.Parser.ReturnOneLevel | src/gsl/ggpars.c:1650-1720 | climbing one link keeps the linked tree consistent and does to it what the zipper step does, with the same exceptions |
| ParseCursor.Parser.FindInsertionPoint | src/gsl/ggpars.c:1631-1647 | the climb ends, and where the priorities say |
| ParseCursor.Parser.InsertTheNode | src/gsl/ggpars.c:1565-1623 | relinking puts the operator node above what the climb found and the operand under it, moving spaces, width and brackets to the highest node |
| ParseCursor.Parser.InsertSimpleNode | src/gsl/ggpars.c:1533-1554 | a new leaf takes the pending brackets |
| ParseCursor.Parser.InsertUnaryOperator | src/gsl/ggpars.c:2217-2224 | a unary operator is inserted as a leaf and then given its operator |
| ParseCursor.Parser.InsertOperator | src/gsl/ggpars.c:2229-2238 | a binary operator is inserted above and takes the pending brackets |
| ParseCursor.Parser.InsertDataSpecifier | src/gsl/ggpars.c:2126-2153 | the node at the cursor becomes the scope of a new one, which takes over its columns and brackets |
| ParseCursor.Parser.InsertSpacesOnly | src/gsl/ggpars.c:1937-1948 | spaces at the end of a line become an empty text, unless there are none and a node is there |
| ParseCursor.Parser.ReadyFor | src/gsl/ggpars.c:1735-1868 | the cursor goes into a field of its node; a field already taken raises an exception |
| ParseCursor.Parser.ReturnTo | src/gsl/ggpars.c:1953-2065 | each return climbs as long as its kind of parent is above |
| ParseCursor.Parser.ReturnToParent | src/gsl/ggpars.c:1993-1999 | one level up, if there is one |
| ParseCursor.Parser.CountToken | src/gsl/ggpars.c:2088-2105 | columns are added to the node at the cursor or deferred until there is one |
| ParseCursor.Parser.AddOneBracket | src/gsl/ggpars.c:2166-2171 | a bracket is pending until a node takes it |
| ParseCursor.Parser.CloseOneBracket | src/gsl/ggpars.c:2243-2269 | climbs to the nearest open bracket and closes it, or reports that there is none |
| ParseCursor.Parser.SetExtendFlag | src/gsl/ggpars.c:1906-1916 | the flag goes to the node at the cursor or to its parent |
| ParseCursor.Parser.CopyTheOperator | src/gsl/ggpars.c:1892-1901 | the node at the cursor gets the operator |
| ParseCursor.Parser.ChangeKind | src/gsl/ggpars.c:2204-2212 | the node at the cursor becomes a call |
| CursorLaws.ActConservesColumns | src/gsl/ggpars.c:1586-1618 | no parser action loses or invents a column: widths and spaces from the root to the cursor, with what is deferred, grow by exactly what is counted; after the exception for a taken field the columns of the node in it are counted twice |
| CursorLaws.RunConservesColumns | src/gsl/ggpars.c:1665-1683 | the same over every run of actions |
| CursorLaws.RootHoldsAllColumns | src/gsl/ggpars.c:1953-1959 | after a return to the root, its width and spaces are all the columns counted, and nothing is deferred |
| CursorLaws.ActAccountsForBrackets | src/gsl/ggpars.c:2243-2269 | only nodes on the cursor's path hold brackets, and only opening and closing changes how many are open |
| CursorLaws.RunAccountsForBrackets | src/gsl/ggpars.c:2166-2171 | over every run, open brackets are opens minus closes |
| CursorLaws.UnclosedReported | src/gsl/ggpars.c:1654-1663 | an open bracket is reported at the end of a line if and only if a node below the root holds it or it is pending |
| CursorLaws.UnclosedLeftOnRoot | src/gsl/ggpars.c:1953-1959 | when nothing is reported, the root holds exactly the brackets that were not closed |
| CursorLaws.UnclosedAtRootAccepted | src/gsl/ggpars.c:1659-1663 | `(a` is accepted with its bracket open |
| CursorFrame.ActEmbed | src/gsl/ggpars.c:1565-1720 | an action inside an operand does the same to it wherever the operand stands, whatever columns and brackets its node already has |
| CursorFrame.RunEmbed | src/gsl/ggpars.c:1565-1720 | so does every run that stays inside an operand |
| CursorFrame.BuildsAnywhere | src/gsl/ggpars.l:390-463 | the actions that follow the node of an operand build the same operand there, with what the node had added |
| Arguments.FeedLeads | src/gsl/ggpars.l:714-754 | reading the tokens of an expression inside an operand never leaves it |
| Arguments.CallIsOperand | src/gsl/ggpars.l:678-712 | a call is an operand whatever its arguments are and whichever of them are empty; each is its own precedence tree, commas join them from the left with an empty side for an empty argument, and only the operators of the second climb past its comma when the first is empty; so the precedence theorem holds at every depth of calls |
| Literals.NumberIsOperand | src/gsl/ggpars.l:578-608 | a whole number is an operand; the sign goes to its text |
| Literals.DecimalIsOperand | src/gsl/ggpars.l:609-620 | a number with a fraction is an operand of two pieces and has all their columns; the sign goes to the number |
| Literals.StringIsOperand | src/gsl/ggpars.l:120-146 | a string is an operand; its pieces are joined from the left, and spaces at its end, or nothing at all, are an empty piece |
| Precedence.ParsesByPrecedence | src/gsl/ggpars.c:1565-1647 | reading the tokens of an expression grouped by precedence, wherever an expression may start, builds exactly its tree: left operators never of lower priority, right ones strictly higher, unary ones tightest, groups atomic, operands with whatever is inside them, and a last `?` with nothing after it in its place |
| Precedence.BuildsDangling | src/gsl/ggpars.l:730-734 | an expression that ends in `?` is left with the empty field of that operator, inside its own tree |
| Precedence.CanonicalTreeUnique | src/gsl/ggpars.c:138-146 | a sequence of tokens is that of one precedence tree only |
| Precedence.WellFormedIsCanonical | src/gsl/ggpars.l:390-480 | every sequence that the dialog accepts, operands and operators in turn with brackets matched and nothing needed after a `?`, spells an expression grouped by precedence |
| Precedence.CanonicalIsWellFormed | src/gsl/ggpars.l:390-480 | and the dialog accepts what every such expression spells |
| Precedence.ParsesEveryExpression | src/gsl/ggpars.c:2229-2269 | every sequence that the dialog accepts, whatever its operands, widths and spaces, is parsed without an exception into its one precedence tree |
| Precedence.FeedConservesColumns | src/gsl/ggpars.c:2088-2105 | reading tokens keeps all their columns, and those counted inside operands |
| Precedence.ArgumentAfterEmpty | src/gsl/ggpars.c:1640-1646 | any argument after an empty first argument is parsed without an exception, and in its own place if and only if it has no binary operator outside brackets, a last `?` included; otherwise its operators climb past the comma, and the tree they make is given |
| Arguments.EmptyFirstCaptured | src/gsl/ggpars.c:1640-1646 | the run of `f (, b + c)` from the start comes to that place and ends on the tree of `f ((, b) + c)` |
| Precedence.JoinsPieces | src/gsl/ggpars.c:1571-1611 | pieces of text are joined to what is before them, from the left |
| ExpressionDialog.ReadLexeme | src/gsl/ggpars.l:390-480 | what the dialog does with a token, and inside an operand, on linked nodes |
| ExpressionDialog.ReadLexemes | src/gsl/ggpars.l:390-480 | on linked nodes, tokens do what they do to the zipper |
| ExpressionDialog.ReadExpression | src/gsl/ggpars.l:390-480 | reading any sequence the dialog accepts with linked nodes raises nothing and leaves its one precedence tree, with all its columns, at the cursor |
| ExpressionDialog.ExpressionRead | src/gsl/ggpars.c:1565-1647 | the tree left is the precedence tree, and it holds all the columns of the tokens |
| ZsLex.Lexer.StartNewToken | examples/zs_lex.c:183-189 | the size is reset and the type is null; the text of the buffer stays |
| ZsLex.Lexer.StoreTheCharacter | examples/zs_lex.c:195-201 | the character follows the token so far |
| ZsLex.Lexer.StoreNewlineCharacter | examples/zs_lex.c:234-240 | a newline follows the token so far |
| ZsLex.Lexer.ParseNextCharacter | examples/zs_lex.c:207-215 | the pointer stays at the end of the text; the event is that of the character |
| ZsLex.Lexer.PushBackToPrevious | examples/zs_lex.c:221-227 | the pointer goes back by one, if it can |
| ZsLex.Lexer.Transition | examples/zs_lex_fsm.h:180-866 | each branch of the machine does what the transition table says |
| ZsLex.Lexer.FsmExecute | examples/zs_lex_fsm.h:168-901 | the machine stops on every input, and does what one call of the scanner function does |
| ZsLex.Lexer.Next | examples/zs_lex.c:148-153 | a call reads on from the pointer |
| ZsLex.Lexer.First | examples/zs_lex.c:136-142 | a new text is read from its start, in the state the last one left |
| ZsLexTable.Scan | examples/zs_lex_fsm.h:168-181 | one call keeps the token within its buffer |
| ZsLexLaws.Progress | examples/zs_lex.c:207-227 | a call never moves back despite push-back, takes at least a character for every token, and returns null only at the end of the text |
| ZsLexLaws.NullStable | examples/zs_lex_fsm.h:353-361 | null comes again if and only if the lexer expects a token; inside an open string every call adds a newline |
| ZsLexLaws.ReadsRun | examples/zs_lex_fsm.h:385-476 | inside a token the longest run of characters that go on is stored as it is |
| ZsLexLaws.RunToken | examples/zs_lex_fsm.h:385-815 | a function name or a number is exactly the longest run of its characters in the text, and what ends it is lost only if it is blank, a colon or invalid |
| ZsLexLaws.StringToken | examples/zs_lex_fsm.h:816-866 | a string is the text between its quotes, or stays open with a newline added |
| ZsLexLaws.StringTextExact | examples/zs_lex.c:183-189 | the text of a string token is what stands between the quotes if and only if that is not empty or nothing was in the buffer |
| ZsLexLaws.SingleToken | examples/zs_lex_fsm.h:331-384 | lists and invalid characters are single characters; their text is that of the token before |
| ZsLexLaws.DrainEnds | examples/zs_lex_fsm.h:168-901 | a text of n characters gives at most n tokens |
| ZsLexLaws.ScanShifted | examples/zs_lex.c:136-153 | what is before the pointer does not matter |
| ZsLexLaws.LineByLine | examples/zs_lex_fsm.h:816-866 | lexing a line and then the rest in a new text gives the tokens, and leaves the state, of both in one text with a newline between, also with a string left open |
| ZsLexLaws.LinesAreOneText | examples/zs_lex.c:136-153 | however a text is cut into lines, the tokens and the final state are the same |
| ZsLexLaws.EmptyStringShowsLastToken | examples/zs_lex.c:183-189 | `abc <>` gives the empty string with the text `abc` |
| LayoutSpec.PassesAgree | src/gsl/ggcomm.c:1222-1370 | the measured totals are the length and the number of the rows that are written |
| LayoutSpec.ShuffleCountIsDrift | src/gsl/ggcomm.c:1292-1299 | without newlines the shuffle count is how far the output is ahead of the script column, which starts again after an extended line |
| LayoutSpec.ShuffleAligns | src/gsl/ggcomm.c:1233-1242 | an operand after at least `shuffle` spaces starts at its own column if that leaves `shuffle` spaces before it, and `shuffle` spaces after the text before it if not; smaller gaps stay |
| LayoutSpec.FlatWrite | src/gsl/ggcomm.c:1323-1340 | writing at line * length + column changes that row of the flat buffer and no other |
| ResultWalk.FirstOperand | src/gsl/ggcomm.c:1376-1389 | going down, past operators of every kind, ends at the first leaf, and passes on the spaces of the node it started from |
| ResultWalk.NextOperand | src/gsl/ggcomm.c:1392-1419 | climbing without a stack comes to the next leaf to the right; it ends exactly where none is left to the right or the first operator with one is no concatenation |
| ResultWalk.GoesOnToTheLast | src/gsl/ggcomm.c:1392-1419 | when every operator is a concatenation the climb ends only after the last leaf |
| ResultWalk.Begin | src/gsl/ggcomm.c:1226-1230 | the walk starts on the first leaf, with the spaces before the whole |
| ResultWalk.Step | src/gsl/ggcomm.c:1301 | each step comes to the next leaf, with the spaces of the highest node that starts there, and ends after the last |
| Concatenate.BlockSize | src/gsl/ggcomm.c:1251-1261 | the number of lines of a block and its width |
| Concatenate.LastLineLength | src/gsl/ggcomm.c:1177-1190 | the characters after the last newline |
| Concatenate.AddOperand | src/gsl/ggcomm.c:1244-1299 | what an operand adds to the totals |
| Concatenate.MeasureOperand | src/gsl/ggcomm.c:1233-1299 | an operand gets its indent; a missing block ends the pass silently, an undefined value with a report |
| Concatenate.MeasureOperands | src/gsl/ggcomm.c:1222-1302 | the first pass gives every leaf its indent and finds the totals, or the first operand without a value |
| Concatenate.WriteOperand | src/gsl/ggcomm.c:1312-1343 | an operand fills its cells in all the rows, a block line by line and a text in every row |
| Concatenate.FillOperands | src/gsl/ggcomm.c:1308-1345 | the second pass leaves in the buffer exactly the rows, one after the other, and its run length is the measured one |
| Concatenate.ConcatenateResults | src/gsl/ggcomm.c:1193-1373 | the result is the rows of all operands in order, trimmed; there is one if and only if every operand has a value; only an undefined value is reported |
| Concatenate.CellWritten | src/gsl/ggcomm.c:1316-1340 | copying an operand at its place completes its cell and nothing else |
| Concatenate.BlockWritten | src/gsl/ggcomm.c:1313-1332 | below a block the cells are blank |
| Trim.TrimLines | src/gsl/ggcomm.c:1349-1368 | in place: every line that ends in a newline loses the white space before its ending, whatever stands before the buffer; the character there is looked at if and only if the text begins with a newline |
| Trim.TrimKeeps | src/gsl/ggcomm.c:1349-1368 | trimming loses no visible character and no line |
| Trim.TrimTwice | src/gsl/ggcomm.c:1349-1368 | no line of a trimmed text has anything to trim |
| OutputBuffer.Buffer.Graft | src/gsl/ggcode.c:1331-1353 | the leaves of a line hung beside the lines kept are theirs followed by its own, each after its own spaces |
| OutputBuffer.Buffer.CopyLine | src/gsl/ggcode.c:1318-1374 | an extended line is kept; a line that is not is written with all those kept before it as one concatenation of all their operands |
| OutputBuffer.Buffer.CopyLines | src/gsl/ggcode.c:1318-1374 | over a whole run of lines, however they are extended, what is written is one concatenation for every line that does not go on, of its operands after those of the lines before it that do |
| ConstantCache.Evaluator.Evaluate | src/gsl/ggcode.c:4819-5110 | with results kept on nodes, in any state and with macros that evaluate the same nodes again, evaluation of every tree without a stale substitution gives the value, the operands and the symbols that it gives without |
| ConstantCache.Evaluator.EvaluateAll | src/gsl/ggcode.c:4819-5110 | so it is for every sequence of evaluations under changing symbols |
| ConstantCache.Evaluator.EvaluateLiteral | src/gsl/ggcode.c:3589-3609 | a literal is constant if its text is |
| ConstantCache.Evaluator.EvaluateNumber | src/gsl/ggcode.c:3630-3660 | a number is constant if its parts are |
| ConstantCache.Evaluator.EvaluateSymbol | src/gsl/ggcode.c:3665-3696 | a symbol is looked up and never constant; an undefined scope leaves it undefined |
| ConstantCache.Evaluator.EvaluateCall | src/gsl/ggcode.l:607-618 | a call is never constant; its macro gets the values of all its arguments and may evaluate any node again |
| Evaluation.ArgumentsAreItems | src/gsl/ggcode.c:3302-3323 | a call gets one argument for each item of its list, in order, and none for an item that is missing |
| ConstantCache.Evaluator.EvaluateOperator | src/gsl/ggcode.l:1007-1089 | the operators, with their early returns |
| ConstantCache.Evaluator.ReturnEarly | src/gsl/ggcode.c:4554-4814 | an early return of `?` keeps whether its operand is constant; the others never do |
| ConstantCache.Evaluator.ReturnSecond | src/gsl/ggcode.c:4570-4579 | the second operand is returned, constant if both are |
| ConstantCache.Evaluator.Calculate | src/gsl/ggcode.c:3898-4090 | arithmetic is constant if its operands are; undefined operands leave it undefined |
| ConstantCache.Evaluator.Concatenate | src/gsl/ggcode.c:4516-4549 | a concatenation inside another, or of a whole line, is left to it; otherwise it is constant if both operands are and the second has no spaces before it |
| ConstantCache.Evaluator.EvaluateSubstitute | src/gsl/ggcode.c:3424-3583 | a substitution, stale or not, prints its value by its modifiers and its format into the space it has, and fails as the source does; what is kept of its parts stays right |
| ConstantCache.Evaluator.PrintSubstitute | src/gsl/ggcode.c:3454-3456 | a substitution, stale or not, is constant if and only if its value, its modifiers and its format are |
| ConstantCache.FixedOperator | src/gsl/ggcode.c:3907-3909 | an operator whose operands have one result in every state, and which does not return early, has one result in every state |
| ConstantCache.FixedDefault | src/gsl/ggcode.c:4554-4565 | `x ? y` with such an `x` has its result |
| ConstantCache.FixedSubstitute | src/gsl/ggcode.c:3454-3456 | a substitution of such parts that is not stale has one result in every state |
| ConstantCache.KeptIsFixed | src/gsl/ggcode.c:4819-4850 | the value that a node keeps is its value in every state, after every text and at every depth of calls |
| ConstantCache.FixedExactly | src/gsl/ggcode.c:3517-3564 | a substitution that is kept has one result for all states if and only if it is not stale |
| ConstantCache.StaleExactly | src/gsl/ggcode.c:3543-3564 | without a format it is stale if and only if its space is what the text before it leaves, there is room, and its text comes to a `justify` with two words or more that no later modifier runs together |
| ConstantCache.JustifiedExactly | src/gsl/ggcode.c:3517-3564 | so, without a format, these are exactly the kept substitutions whose kept result is wrong after some text |
| ConstantCache.StaleSubstitution | src/gsl/ggcode.c:3543-3564 | a substitution of any two words with `justify`: it is kept as one line, after one character that is its result, and after two characters its result is two lines |
| ConstantCache.PairIgnoresShuffle | src/gsl/ggcode.c:4541-4546 | two pieces with no spaces between them are joined the same whatever `shuffle` is |
| Justify.FillsLines | src/libsfl/sflstr.c:1318-1344 | filling is greedy: no line with a second word is longer than the width, and the first word of the next line would not have fitted |
| Justify.JustifyKeepsWords | src/libsfl/sflstr.c:1313-1348 | filling a text keeps its words, and filling again for another width is filling once for that |
| Justify.WidthMatters | src/libsfl/sflstr.c:1325-1336 | the width matters if and only if there are two words or more |
| Justify.StrJustify | src/libsfl/sflstr.c:1293-1348 | the lines are written into a buffer with room for them, the null at their end and, if there are words, one character more |
| Justify.FilledSize | src/libsfl/sflstr.c:1310-1343 | for every width the filled text is one character shorter than the measured size of the words |
| Justify.WordsOfFilled | src/libsfl/sfltok.c:57-115 | taken apart again, the filled lines give the same words: none is lost, split or joined to another |
| PrettyPrint.PrettyPrint | src/gsl/ggcomm.c:888-1018 | the modifiers are applied in turn, and an unknown one is an error |
| PrettyPrint.SpaceMatters | src/gsl/ggcomm.c:985-989 | what is printed depends on the space if and only if the text comes to a `justify` with two words or more and no later modifier runs the words together; then no space and one column differ already |
| PrettyPrint.FailsExactly | src/gsl/ggcomm.c:1001-1008 | printing fails if and only if a modifier is unknown, whatever the space is |
| ScopeSort.SaveKey | src/gsl/ggcode.c:4209-4242 | a key keeps its text; the sort is by number only as long as every key is one |
| ScopeSort.SaveKeys | src/gsl/ggcode.c:4209-4242 | keys are compared as numbers if and only if every one of them is a number, and then all have their numbers; otherwise as texts |
| ScopeSort.ListSort | src/libsfl/sfllist.c:157-199 | the comb sort ends with the same items in order |
| ScopeSort.TextTransitive | src/gsl/ggcode.c:2205-2214 | texts are ordered consistently |
| SiblingSort.Children.Move | src/gsl/ggxml.c:851-873 | an item is taken out and put in front of a sibling or at the end |
| SiblingSort.FindAnchors | src/gsl/ggcode.c:2100-2160 | every item of the scope gets as its anchor the first sibling after it that is not in the scope |
| SiblingSort.Reattach | src/gsl/ggcode.c:2165-2197 | moving the items in front of their anchors fills the places of the scope in the new order |
| SiblingSort.SortByKeys | src/gsl/ggcode.c:2069-2242 | from the values to the places: the places of the scope hold the same items, in the order of the numbers of their values if all are numbers and of their texts otherwise, and every other sibling is where it was |
| SiblingSort.SortTheItems | src/gsl/ggcode.c:2069-2202 | the places of the scope hold the same items in sorted order, and every other sibling is where it was |
| SiblingSort.OthersStay | src/gsl/ggcode.c:2090-2197 | a sibling that is not in the scope keeps its position |
| SiblingSort.PlacesFilled | src/gsl/ggcode.c:2090-2197 | the positions of the scope hold the sorted items, in order |
| SiblingSort.AnchorFromNext | src/gsl/ggcode.c:2110-2160 | the next sibling of an item is the next of the scope, with the same anchor, or it is the anchor |
| Forest.Tree.ParseLocator | src/gsl/ggcode.c:1900-1972 | the parent and sibling of a locator, and exactly when it is wrong; one with none of `to`, `before` and `after` stands for the innermost item |
| Forest.Tree.Scan | src/gsl/ggcode.c:2651-2665 | the scan ends, and meets the item if and only if it is the new parent or above it |
| Forest.Tree.Relink | src/gsl/ggxml.c:851-873 | detaching and attaching changes one parent and the two lists, and no item becomes its own ancestor |
| Forest.Tree.MoveTheItem | src/gsl/ggcode.c:2612-2687 | a move goes ahead if and only if the locator is right and not empty and the new parent is not inside what is moved; otherwise nothing changes; the tree stays a tree |
| Forest.Tree.NoneIsItsOwnAncestor | src/gsl/ggcode.c:2651-2665 | in every state that moves can reach no item is above itself |
| Forest.OrderKept | src/gsl/ggcode.c:2612-2687 | all other children keep their order |
| Forest.MoveInPlace | src/gsl/ggcode.c:2667-2669 | moving an item before itself, after itself or after what it follows changes nothing |
| MacroCall.Symb.SubstituteParams | src/gsl/ggcode.c:3251-3325 | the i-th actual parameter, or nothing if it is empty, is bound to the i-th formal one; more actual than formal parameters are refused with nothing bound |
| MacroCall.EachIsBound | src/gsl/ggcode.c:3302-3323 | with different names every formal has the value of its actual |
| MacroCall.OthersUnbound | src/gsl/ggcode.c:3302-3323 | a name without an actual keeps what it had |
| ScopeStack.Scopes.InitialiseMacroBlock | src/gsl/ggcode.c:3210-3236 | a call pushes the scope of the macro and its alias `my`, in every case, and binds its parameters in their item; it fails if and only if the actual parameters outnumber the formal ones, and then nothing is bound and the scopes stay |
| ScopeStack.FailedCallMisleadsReturn | src/gsl/ggcode.c:3086-3247 | the return that follows a failed call takes off the scopes of that call and leaves those of the macro that made it |
| ScopeStack.CallWithoutFormals | src/gsl/ggcode.c:3210-3247 | one actual parameter for a macro without formal ones: the call fails and leaves its two scopes on a stack that was empty |
| ScopeStack.Scopes.CloseMacroBlock | src/gsl/ggcode.c:3086-3113 | everything down to the last macro is taken off, or nothing is left and the return fails |
| ScopeStack.Scopes.DestroyForBlock | src/gsl/ggcode.c:2219-2234 | everything down to the last loop is taken off |
| ScopeStack.Scopes.IterateForLoop | src/gsl/ggcode.c:2451-2467 | what is open in a loop is closed, and the loop itself when it is done |
| ScopeStack.Scopes.Execute | src/gsl/ggcode.c:3086-3247 | over every run of calls, returns, scopes and loops the stack is the one that the run of events gives |
| ScopeStack.ReturnUndoesCall | src/gsl/ggcode.c:3086-3113 | a return takes off the two scopes of the macro and all that is above them |
| ScopeStack.StepsAgree | src/gsl/ggcode.c:3086-3113 | one event does to the stack what it does to the macros that are running |
| ScopeStack.CallReturns | src/gsl/ggcode.c:3086-3247 | after a call, any body whose own calls have returned, and a return, the stack is what it was, whatever the body left open |
| ScopeStack.ReturnFails | src/gsl/ggcode.c:3101-3107 | a return fails if and only if no macro is running |
| Blocks.MeasureBlock | src/gsl/ggcomm.c:821-838 | the number of lines of a text and the room they take |
| Blocks.ConstructBlock | src/gsl/ggcomm.c:807-866 | the block holds exactly the lines of the text, packed into exactly the room that was measured |
| Blocks.CopyBlock | src/gsl/ggcomm.c:230-245 | the copy finds its lines again and holds the same ones |
| Blocks.BlockToText | src/gsl/ggcomm.c:485-511 | the text is the lines padded to the widest, with a newline between |
| Blocks.JoinOfSplit | src/gsl/ggcomm.c:807-866 | joining the lines of a text gives it back |
| Blocks.SplitOfBlockText | src/gsl/ggcomm.c:485-511 | splitting the text of a block gives its lines, padded |
| Blocks.StableAfterOneRound | src/gsl/ggcomm.c:485-511 | after one round of joining and splitting nothing changes |
| Blocks.TextOfBlock | src/gsl/ggcomm.c:485-511 | a text that becomes a block and a text again is the same if and only if its lines are equally long |
| LeftAlign.MeasureLeft | src/gsl/ggcomm.c:1094-1137 | the common leading spaces and the size of the result |
| LeftAlign.StrLeft | src/gsl/ggcomm.c:1077-1174 | the text moved to the left, filling exactly the size that was computed |
| LeftAlign.LeftKeepsShape | src/gsl/ggcomm.c:1111-1125 | blank lines become empty, differences in indentation stay, and some line that is not blank starts at the left |
| LeftAlign.LeftTextLines | src/gsl/ggcomm.c:1077-1174 | the result has as many lines as the text, and moving it again changes nothing |
| LeftAlign.SizeIs | src/gsl/ggcomm.c:1131-1137 | the computed size is that of the lines that are written |
| Numbers.NumberValue | src/gsl/ggcomm.c:533-585 | a text is a number if and only if it is not empty and consists of an optional sign, digits and a point with digits; then its value is what these mean |
| Numbers.NumberIsReadToEnd | src/gsl/ggcomm.c:549-585 | the texts that are read to their end are exactly the numbers |
| Numbers.StringValue | src/gsl/ggcomm.c:472-483 | nine decimals, less the zeros at the end and then the point |
| Numbers.RoundTrip | src/gsl/ggcomm.c:472-585 | a number with at most nine decimals that is written and read is the same number |
| Template.Tokeniser.CollectSpaces | src/gsl/ggpars.c:626-633 | the spaces before a token are counted and skipped |
| Template.Tokeniser.GenerateTextEvent | src/gsl/ggpars.c:636-674 | a text ends before a space, a substitution, the end or an escape that ends the line; an escape takes the next character with it |
| Template.Tokeniser.GenerateExtendEvent | src/gsl/ggpars.c:677-696 | an escape with nothing but spaces after it extends the line |
| Template.Tokeniser.GetTemplateToken | src/gsl/ggpars.c:607-623 | the token after the spaces, its place and its width |
| Template.TokenIsLossless | src/gsl/ggpars.c:607-716 | what is read is the spaces, the token and, after an extension, spaces; a text, a substitution or an extension takes something; the line ends only at its end |
| Template.OtherExactly | src/gsl/ggpars.c:708-716 | a token of no known kind occurs exactly where the mark's first character is followed by a parenthesis that is not the mark; never with `$(` |
| Template.MarkNeedsParenthesis | src/gsl/ggpars.c:660-663 | a mark begins a substitution if and only if the character after its first is a parenthesis; if it is not, a text has taken the mark |
| Template.MarkIsTakenAsText | src/gsl/ggpars.c:660-663 | with the mark `%%` all of `%%x` is a text |
| Template.LineIsItsTokens | src/gsl/ggpars.c:607-716 | the pieces read for the tokens of a line are the line |
| Template.LineEnds | src/gsl/ggpars.c:607-716 | a line of n characters has at most n tokens and its end |
| Template.TokenTextIsWellEscaped | src/gsl/ggpars.c:647-657 | in the text of a token every escape is followed by a character |
| Template.MeasureText | src/gsl/ggcode.c:3743-3760 | the first pass finds the size of the result |
| Template.EvaluateText | src/gsl/ggcode.c:3728-3799 | both passes agree: the result is the sign and the text with every escape replaced by what it stands for |

## Left out

- The dialogs of the parser and the evaluator, except for expressions, calls, numbers, strings and the evaluation of operators; how tokens other than those of templates are recognised.
- Data specifiers with members and attributes, substitutions inside strings, and signs before numbers that are scopes: that their dialogs stay inside their operand is a condition of the precedence theorem, proved for calls, numbers and strings; `separate_name_from_scope`, `unset_stacked_flag` and `rewind_token` are not modelled.
- Arguments.EmptyFirstCaptured: the widths and spaces of the call itself are zero.
- Script nodes keep their scalar fields in one record and their operand pointers in one map from field to node.
- ConstantCache.Evaluator.Evaluate: a tree with a stale substitution is excluded, because the property is false there; `shuffle`, the escape and `ignorecase` are fixed; the depth of macro calls is bounded by a parameter, and the theorem holds for every bound.
- ConstantCache.Evaluator.EvaluateAll: excludes the same trees as Evaluate.
- Evaluation.Eval: arithmetic, comparison, formats, the names of modifiers, the look-up of symbols and functions outside the script are any functions; copying the case of an identifier, culprits of errors, references and simple scopes are not modelled; a macro runs a list of definitions and returns an expression.
- PrettyPrint.PrettyPrint: copying the case of an example, which comes after the modifiers, is not modelled; letters and digits are those of ASCII.
- Justify.Words: `tok_split` is this function, and not the code that fills its table.
- Results kept on the roots of statements are not modelled, since they are not read when a node is evaluated.
- Concatenate.ConcatenateResults: every operator in the tree is a concatenation, and the node above it is not; strings and template lines hold no other operators outside substitutions.
- The pieces of a concatenation have their values when it is laid out; converting numbers and pointers to text is not part of it, nor is a block that has also been turned into a text.
- SiblingSort.SortTheItems: the children of one item are a sequence; links and reference counts of items are not modelled, nor are items of other classes than XML items.
- Forest.Tree.MoveTheItem: renaming is not modelled, nor is what the report for an empty locator does with a null class.
- MacroCall.Symb.SubstituteParams: the first formal parameter must not be missing, since the source follows its parent link; the dialog for formal parameters demands an identifier for each (ggpars.l:1125-1149).
- ScopeStack.Scopes.InitialiseMacroBlock: the same.
- ScopeStack.CallReturns: a body closes only scopes that it opened, which the block structure of a script ensures; leaving several named loops at once is the closing of one after the other.
- Numbers.RoundTrip: numbers are exact decimals with at most nine digits after the point, not floating point, and `printf` is its specification on them.
- Characters of the lexer with codes above 127, its limit on the length of a token, tracing and exceptions.
- The regular expressions; the XML parser and writer; files, messages and threads.
- Memory transactions, the list of free result nodes and the width of integers.
