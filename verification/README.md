# Kukicha in Dafny

Kukicha is a language that compiles to Go. This project models the parts of its
toolchain whose correctness is not visible from any one function, and proves what
those parts promise: for all inputs, and where a promise does not hold on all of
them, with the exact condition under which it does.

`dafny verify dfyconfig.toml` checks everything.

## What is modelled

**`onerr` pipe chains** (`Names`, `Ir`, `Machine`, `Pipes`, `Lowering`, `StepProof`,
`HandlerProof`, `HidingProof`, `ChainProof`, `StatementProof`, `CountProof`, `Signatures`,
`ShapeProof`, `ExactProof`, `DefaultProof`, `DefaultExact`, `StatedExact`, `EmptyExact`,
`VarUse`, `GotoProof`, `SwitchProof`, `SwitchExact`).
`Pipes` gives a chain its meaning: step-by-step evaluation with a trace of calls, each
answered by an arbitrary oracle that sees the whole history. `Ir` is the target language
as a machine with nested scopes, labels and jumps. `Lowering` is the lowerer, as methods
that append to a block and draw names from a shared counter, each proved against a
specification function. The proofs relate the two by simulation and then give exact
conditions. Within what is modelled, this goes wrong and nothing else:

- A step written as a shorthand method passes its receiver twice in this code path, and
  a bare `pkg.Func` drops the piped value; all other steps are rendered right.
- An error-only step does not advance the pipe value, so every call nested in it is
  made again. A plain step behind the last fallible one makes the declaration declare
  its target a second time.
- `onerr error ...` in a function with one or two results returns the error behind the
  variable at hand if there is one, and else alone. With two results and no variable,
  or one result and a variable, the number of returned values is wrong.
- A default value reaches the variable only from the last step of a declaration, when
  that step returns a value and an error and nothing before it can fail. Otherwise some
  failure loses it: the chain goes on, or what the failed call returned is assigned over
  it. The one assignment where it works is `x = x |> check() onerr d`. As a statement,
  `chain onerr d` goes on to the calls behind a failed check.
- `onerr empty` is documented as a fallback, the zero value. The inline form renders it as
  a bare return, so it is right only where nothing can fail; the goto form initialises the
  variable with nil, so it is right only for types with that zero value.
- Names that an `onerr` block declares are not reserved, so the error variable of a check
  may carry one of them. That is wrong exactly where the block declares the name as
  something else than the error and lets the difference reach a call, a panic or a return.
- The goto form of a piped switch is refused by Go where nothing on the left can fail (its
  handler's label is unused), where the handler does not make use of the error (the
  variable that records it is unread: `continue`, `break`, every literal default, `empty`),
  and where the handler declares a variable between a goto and its label. Returned zero
  values of named types are such variables (`var _zero0 T`), for every named type that is
  not an interface.

**Expressions** (`Syntax`, `Printer`, `Parser`, `RoundTrip`, `RoundTripExact`, `Grouping`,
`Fragment`). The printer writes tokens with parentheses by precedence number; the parser
is the cursor with its methods, each proved against a function on the remaining tokens.
`Grouping` says what an expression means by the operators as they are written: eight
groups, loosest first, and the root is the last of the loosest operators. The parser is
proved to build that tree for every expression. A derivation relation stands between
printer and parser, for which the parser is sound and complete, and `Fragment` gives the
trees that come back from their own printed text, again by the operators as they are
written. The two programs disagree on `not in` (precedence 0 when printing), on a
relational right operand of an equality (one comparison level in the parser, two in the
printer), on pipes below operators other than `or` and on `or` below a pipe, on the right
stage of a pipe that is itself a pipe, on infix expressions behind a minus sign, `&` or
`dereference` and in the place of a callee, and on two minus signs in a row; and on nothing
else that is made of operators the parser knows.

**Tokenizer** (`LexText`, `EscapeProof`, `TripleQuote`, `Literals`, `Layout`, `LineScan`,
`Lexer`, `MergeLines`, `PipeLayout`, `LayoutText`, `Continuation`, `Lexemes`, `Tokenizer`).
The tokenizer as one object over characters, with its indent, brace, closure and
interpolation stacks. Strings splice text into the source in front of the cursor; a
lexicographic measure still decreases. `LineScan` says as a function of the text what
tokens a source has, if it has any, and on every source the object is proved to compute
them, or to find an error where there are none. The function is then described by what
holds of texts:

- A statement spread over lines inside brackets, literals' braces and calls has the tokens
  of the statement on one line; a line end in a call counts only where the body of a closure
  follows, and between a block's braces line ends count and blanks do not.
- A multi-line literal is one token with the dedented text as its value, line by line,
  exactly where nothing is interpolated in it.
- A brace opens a block exactly behind one of nine keywords on its line.
- The pass that joins pipe chains over several lines conserves depth and content, and the
  multi-line layout of a chain is compared with the one-line layout. The two become the
  same tokens, except where the next line rejoins one of them only, and where a later stage
  has a block brace: the pass then takes the dedent of that brace for the one that ends the
  stage lines.

**Blend** (`BlendApply`, `BlendDiff`, `BlendHunks`). Edit application as a largest
choice of disjoint edits, the line diff as a shortest script, and unified hunks as a
patch that works in both directions. The comment on edit application says that the
outermost of overlapping edits wins; the code processes the latest start first, so the
inner one does.

**Numeric loops and positions** (`ForLoop`, `Encodings`, `Positions`). The emitted stepping
loop under 64-bit wrap-around, and the conversions between UTF-16 positions and byte
offsets, stated by the lengths of the text in the two encodings.
An inclusive range over all integers visits nothing, because its start is its own bound;
a range from a literal 0 to a negative bound visits nothing, although other ranges run
downwards.

## Reading the model

- Calls are answered by an oracle, a function of the whole history and the call. Nothing
  is assumed about a called function beyond the signature a theorem names, or, in the
  versions with a set of pure functions, that those depend on their arguments alone.
- Exits are compared by equality: the same statement, with the same values in number and
  order. A statement that leaves returns the zero values its function's results have, the
  error last. The variables of the program are not part of an exit: code that leaves has
  assigned none of them.
- Go's scoping is part of the machine: `:=` without a new name, an assignment to a name
  that is not in scope and a wrong number of values have no meaning.
- A complete line of a source is one whose text scans by itself, with nothing left open:
  no bracket, brace, interpolation or literal goes on behind its end. The theorem on the two
  layouts of a chain speaks of such lines; `LineScan` has no such restriction.
- The tokenizer's error messages are counted, not rendered.
- A sort that is not stable may leave equal elements in any order; theorems about edit
  application hold for every order it may leave.

## Model

| member | source | states |
|---|---|---|
| ExactProof.LoweringCorrectExactly | internal/codegen/lower.go:250-351 | for every chain, leaving clause, form and well-typed signature: the lowered statement agrees with the meaning under all oracles and histories, same exit, same values, same calls, if and only if every step is rendered as meant, no error-only step looks at a value with calls still nested in it, a declaration has no plain step behind its last fallible one, an `onerr error` returns the right values with the error, and no block handler hides its error under the name that a check draws for it |
| ExactProof.ErrorWithoutItsZero | internal/codegen/codegen_onerr.go:75-99 | f piped into g with `onerr error "bad"` in a function with two results returns one value |
| HandlerProof.HandsOnRight | internal/codegen/codegen_onerr.go:75-99 | the values `onerr error` returns are those of the clause exactly for three results or more, for at most one result with no variable at hand, or for two results with the zero value at hand |
| StatementProof.StatementMeans | internal/codegen/lower.go:245-351 | soundness for one oracle: same exit, or same stored value, after visibly the same calls as the chain with its handler as lowered at the check that fails, when only pure calls are nested at error-only steps |
| StatementProof.ChainSimulates | internal/codegen/lower.go:250-351 | running the lowered nodes of a whole chain leaves an expression that still has to be evaluated and yields the chain's value, panics where it panics, or ran the handler on the first error |
| ChainProof.StepsSimulate | internal/codegen/lower.go:295-348 | the simulation from any point of a run, for every list of steps |
| CountProof.ChainCount | internal/codegen/lower.go:334-340 | conservation of calls: the lowered chain makes the chain's calls plus, at each error-only step, once more every call nested in the value |
| ExactProof.UnsoundDiffers | internal/codegen/lower.go:334-340 | a chain that fails one of the first three conditions differs already when every call succeeds: its calls differ or it is not a Go program |
| ShapeProof.UnrenderedDiffers | internal/codegen/codegen_onerr.go:249-304 | one step that is not rendered as meant anywhere in a chain shows in the calls of the whole statement, or leaves no code |
| CountProof.NoRepeatsExactly | internal/codegen/lower.go:334-340 | nothing is repeated exactly when no call is nested at any error-only step |
| StepProof.StepCorrectExactly | internal/codegen/codegen_onerr.go:249-304 | a rendered step hands its callee what the step means under every oracle if and only if it is not a shorthand method, not a bare qualified name and not unsupported |
| StepProof.StepCallMeaning | internal/codegen/codegen_onerr.go:249-304 | whatever the left expression evaluates to reaches the callee in the right place, after the left side's own calls |
| StepProof.PipeArgsMeaning | internal/codegen/codegen_onerr.go:306-335 | the argument list evaluates to what the callee receives: piped value at the first placeholder, else in front |
| HandlerProof.HandlerMeaning | internal/codegen/lower.go:164-207 | the lowered clause leaves as `LoweredHandle` says on every caught error: as the clause means, but for `onerr error` in functions with one or two results, for a block that declares the name of its error variable, and for `onerr empty`; zero-value declarations and variables the handler declares included |
| HandlerProof.BodyMeaning | internal/codegen/codegen_onerr.go:112-117 | a block handler makes its calls in order and leaves as its statements do, its error variable being what the block last declared under that name |
| HandlerProof.ReturnsZeros | internal/codegen/lower.go:636-659 | the built return, with the variables declared in front of it, gives the zero values and the error in the last place |
| HandlerProof.HandlerHidesError | internal/codegen/codegen_walk.go:11-128 | names declared in an onerr block are not reserved, so the handler can hide the generated error variable and return its own |
| HidingProof.BlockRightExactly | internal/codegen/codegen_walk.go:11-128 | for every block handler that leaves and every name its error variable may have: the rendered handler leaves as the clause means, for every caught error, history and oracle, if and only if it does not declare that name as something else than the error and let the difference reach a call, a panic or a returned value |
| HidingProof.HarmlessNames | internal/codegen/codegen_walk.go:11-128 | three blocks that are right: a name that only looks generated, a hidden error that goes no further than a variable, and a copy of the error under its own name |
| DefaultExact.DefaultDeclaredExactly | internal/codegen/codegen_onerr.go:124-139 | for every typed chain, `x := chain onerr d` gives the chain's value or the default after exactly the chain's calls, for every default, history and oracle, if and only if every step is rendered as meant and either nothing can fail or the last step, which returns a value and an error, is the only one that can |
| DefaultExact.DefaultReassignedExactly | internal/codegen/codegen_onerr.go:379-406 | for every typed chain, `x = chain onerr d` does so if and only if every step is rendered as meant and nothing can fail or the statement only pipes the target itself into one error-only step |
| StatedExact.DefaultStatedExactly | internal/codegen/codegen_onerr.go:351-375 | for every typed chain, `chain onerr d` as a statement makes exactly the chain's calls, for every default, history and oracle, if and only if every step is rendered as meant and no call is made behind the first check |
| EmptyExact.EmptyCorrectExactly | internal/codegen/codegen_onerr.go:122-124 | for every typed chain and all three forms, `onerr empty` gives the zero value, under all oracles and histories, if and only if every step is rendered as meant and nothing can fail |
| EmptyExact.EmptyReturns | internal/codegen/codegen_onerr.go:122-124 | x declared from f piped into a failing g, with `onerr empty`: the function returns without values |
| DefaultExact.DefaultLost | internal/codegen/codegen_onerr.go:379-406 | x assigned from f piped into a failing g, with `onerr 8080`: x is what g returned |
| DefaultProof.DefaultAssigned | internal/codegen/codegen_onerr.go:124-139 | the sufficient half for one oracle and without types: pure calls may be nested where they are evaluated again |
| DefaultProof.DefaultIgnoredInside | internal/codegen/lower.go:327-330 | one check whose handler has no name: the chain goes on with what the failed call returned |
| DefaultProof.DefaultOverwritten | internal/codegen/codegen_onerr.go:392-404 | one check and the assignment behind it: the default is overwritten by what the failed call returned |
| Lowering.Lowerer.LowerOnErrPipeChain | internal/codegen/lower.go:250-351 | the loop over steps emits exactly the specified nodes, value expression and counter, or gives up exactly on an unsupported step |
| Lowering.Lowerer.LowerInlineBase | internal/codegen/lower.go:281-305 | the base, materialised when it can fail, takes the target's name exactly when all steps are error-only |
| Lowering.Lowerer.LowerInlineStep | internal/codegen/lower.go:307-348 | one step of the loop against its specification, for each kind of step |
| Lowering.Lowerer.LowerOnErrPipeChainWithLabels | internal/codegen/lower.go:355-418 | the goto form of the loop emits exactly the specified nodes |
| Lowering.Lowerer.AddInlineCheck | internal/codegen/lower.go:324-332 | comment, assignment and check are appended in that order |
| Lowering.LastErrStep | internal/codegen/lower.go:256-266 | the pre-scan finds the last fallible step, or none |
| Lowering.LowerOnErrHandler | internal/codegen/lower.go:164-207 | the handler block built node by node is the specified one, declarations in front of a return included |
| Lowering.GenerateOnErrHandler | internal/codegen/codegen_onerr.go:67-139 | each kind of handler is rendered node by node as specified |
| Lowering.ReplaceGenericZeroExprs | internal/codegen/codegen_stmt.go:10-27 | the loop replaces each `*new(T)` by a variable of its position and declares that variable, in order |
| Lowering.BuildReturnNode | internal/codegen/lower.go:636-659 | the block has one declaration for each result of a named type, then the return of zero values and the error |
| Lowering.BuildPipeArgs | internal/codegen/codegen_onerr.go:306-335 | the two loops build the specified argument list |
| Lowering.GeneratePipedStepCall | internal/codegen/codegen_onerr.go:249-304 | one call, or none exactly for unsupported targets |
| Lowering.GenerateOnErrVarDecl | internal/codegen/codegen_onerr.go:15-33 | the declaration form, with a final copy exactly when the value is not in the target |
| Lowering.GenerateOnErrAssign | internal/codegen/codegen_onerr.go:379-406 | the assignment form |
| Lowering.GenerateOnErrStmt | internal/codegen/codegen_onerr.go:351-375 | the statement form |
| Lowering.LowerPipedSwitchVarDecl | internal/codegen/lower.go:423-502 | the piped-switch block is exactly the specified one |
| Ir.Block.Add | internal/ir/ir.go:28-30 | appends one node |
| Ir.Block.AddAll | internal/ir/ir.go:33-37 | appends all nodes of another block, none for no block |
| SwitchExact.SwitchCorrectExactly | internal/codegen/lower.go:423-502 | goto form, for every well-typed statement whose clause leaves control or supplies a value: Go accepts the gotos, the labels and the recorded error, and the code agrees with the meaning under all oracles and histories, if and only if it computes what it should, something on the left can fail, and the handler declares no variable where it stands, is no default that initialises the variable, and makes use of the error |
| SwitchExact.SwitchComputesExactly | internal/codegen/lower.go:423-502 | for a handler that declares nothing: the goto form agrees with the meaning under all oracles and histories if and only if every step is rendered as meant, nothing is called twice, `onerr error` returns the right values, and nil is the zero value where `onerr empty` may be asked for it |
| SwitchExact.UnusedLabelRefused | internal/codegen/lower.go:493-494 | a switch on a plain variable with `onerr return`: the label of the handler is declared and not used |
| SwitchExact.UnreadErrorRefused | internal/codegen/lower.go:435-442 | a switch on a fallible call with a literal default: the variable that records the error is never read |
| VarUse.HandlerReads | internal/codegen/lower.go:164-207 | a lowered clause that declares nothing reads its error variable exactly when the clause returns, explains or mentions the error |
| VarUse.UserVariablesKept | internal/codegen/lower.go:250-351 | whatever a chain with a clause that leaves does before it leaves, it assigns and declares generated names and the target only |
| SwitchProof.SwitchMeans | internal/codegen/lower.go:423-502 | soundness for one oracle: without a failure the variable gets the switch's value and no handler runs; otherwise nothing after the failing step runs and the handler gets that step's error, or the default is the value |
| SwitchProof.SwitchFailed | internal/codegen/lower.go:493-500 | after a failure control passes the labels to the handler once, or to the end with the default |
| SwitchProof.SwitchTaken | internal/codegen/lower.go:485-491 | after success the value is stored and the handler is jumped over |
| GotoProof.SwitchObeysGo | internal/codegen/lower.go:433-501 | no goto enters a block or skips a declaration if and only if the handler declares no variable where it stands, in its statements or for the zero value of a result; both labels are declared once, and used exactly when some step can fail (Go specification, "Goto statements" and "Labeled statements") |
| GotoProof.StructReturnRefused | internal/codegen/codegen_stdlib.go:435-461 | a piped switch with `onerr return` in a function that returns a struct: a goto skips the declaration of the zero value |
| GotoProof.StepsJump | internal/codegen/lower.go:355-418 | the lowered steps jump to the error label exactly when one of them can fail |
| Names.RunNamesAreDistinctAndFree | internal/codegen/codegen.go:349-357 | over any run of calls with any prefixes the names are pairwise distinct and none is reserved |
| Names.NextIdIsFirstFree | internal/codegen/codegen.go:349-357 | the search ends within one step more than there are reserved names, at the first free number |
| Names.NumberedInjective | internal/codegen/codegen.go:352 | prefix and number can be read back from a name |
| Names.Generator.UniqueId | internal/codegen/codegen.go:349-357 | the loop returns the first free name and leaves the counter there |
| Fragment.ComesBackExactly | internal/formatter/printer.go:1393-1481 | for every tree, by the operators as they are written: its printed tokens parse back to it without error exactly when it has no relation on the right of an equality, no pipe under an operator but `or`, nothing looser than a comparison under `not in` and no other comparison on its right, no `or` under a pipe and no pipe on a pipe's right, no infix expression under a minus sign, `&` or `dereference`, no minus sign under a minus sign, only names and calls as callees, and only operators the parser knows |
| Fragment.ParensExactly | internal/formatter/printer.go:1424-1440 | exactly which operands are printed in parentheses, by the operators as they are written |
| RoundTripExact.RoundTripExactly | internal/formatter/printer.go:1393-1481 | the same equivalence by levels: every unparenthesised child stands at the level its place asks for |
| Grouping.GroupsSo | internal/parser/parser_expr.go:55-303 | every expression of operands, infix and prefix operators, parentheses and calls is parsed without error to the tree whose root is the last of its loosest operators, the operators being listed in eight groups |
| Grouping.TwoOperators | internal/parser/parser_expr.go:55-254 | of two operators the one of the later group binds tighter, and of one group the left one |
| RoundTrip.PrintedParses | internal/parser/parser_expr.go:55-303 | an agreed tree comes back and exactly its text is consumed, whatever stopping text follows |
| RoundTrip.Complete | internal/parser/parser_expr.go:55-303 | every derivable text is parsed to its tree, at every level, consuming exactly that text |
| RoundTripExact.Sound | internal/parser/parser_expr.go:55-303 | the parser, without errors, consumed a text that derives the tree it returned |
| RoundTripExact.ArgLoopSound | internal/parser/parser_stmt.go:11-58 | the same for call arguments |
| RoundTrip.AgreedDerives | internal/formatter/printer.go:1424-1481 | the printed text of an agreed tree derives it |
| RoundTripExact.DerivedAgrees | internal/formatter/printer.go:1424-1481 | only agreed trees are derived by their own printed text |
| RoundTripExact.PrintedShape | internal/formatter/printer.go:1194-1260 | printed text is balanced and has the tree's size, minus signs that merge into `--` included |
| RoundTripExact.ComparisonRegrouped | internal/formatter/printer.go:1393-1420 | `a == (b < c)` is printed so that it comes back as `(a == b) < c` |
| Printer.JoinedIsPrint | internal/formatter/printer.go:1498-1570 | joining the flattened stages of a pipe is printing it |
| Printer.FlattenPipeChain | internal/formatter/printer.go:1560-1577 | the stages, leftmost first |
| Printer.ReverseInPlace | internal/formatter/printer.go:1572-1575 | swapping from both ends reverses the stages |
| Parser.Cursor.ParseOrExpr | internal/parser/parser_expr.go:55-70 | left-associative loop: tree, rest and errors are those of level 0 |
| Parser.Cursor.ParsePipeExpr | internal/parser/parser_expr.go:72-121 | level 1, without the piped switch |
| Parser.Cursor.ParseComparisonExpr | internal/parser/parser_expr.go:174-220 | level 5, with the two-word operators |
| Parser.Cursor.MatchComparison | internal/parser/parser_expr.go:174-220 | one-word operators, or `not` directly before `equals` or `in`, else the cursor stays |
| Parser.Cursor.ParseUnaryExpr | internal/parser/parser_expr.go:256-303 | prefix operators |
| Parser.Cursor.ParsePostfixExpr | internal/parser/parser_expr.go:305-324 | calls, left to right |
| Parser.Cursor.ParseCallArguments | internal/parser/parser_stmt.go:11-58 | arguments up to the closing parenthesis, trailing comma allowed |
| Parser.Cursor.ParsePrimaryExpr | internal/parser/parser_expr.go:463-570 | leaves, grouping, and the error that consumes one token |
| Parser.Cursor.Advance | internal/parser/parser.go:240-245 | moves over one token that is not skipped, never past the end |
| Parser.Cursor.Match | internal/parser/parser.go:254-260 | moves exactly when the token is there |
| Parser.Cursor.SkipIgnoredTokens | internal/parser/parser.go:129-140 | comments, semicolons and directives are stepped over |
| Parser.LoopShift | internal/parser/parser_expr.go:55-265 | errors of a level's loop only add up: a start with more errors ends with as many more |
| Lexer.Lexer.ScanTokens | internal/lexer/lexer.go:98-122 | on every source, although strings splice text into it: the scan ends, it finds an error exactly where the source has no tokens as a function of its text, and otherwise the tokens are those; all indents are closed, no prefix closes more than it opens, the stream is balanced exactly when no block brace is left open |
| Lexer.Lexer.ScanToken | internal/lexer/lexer.go:125-393 | each step keeps the invariant, only appends tokens, decreases (single quotes, double quotes, characters ahead, line not yet indented) lexicographically, and keeps tokens so far plus tokens to come, or finds an error where there are none to come |
| Lexer.Lexer.StartLine | internal/lexer/lexer.go:126-170 | blanks at a line start are nothing where the line goes on inside brackets and between the braces of a block; elsewhere they are indentation, once for every line |
| Lexer.Lexer.HandleIndentation | internal/lexer/lexer.go:414-513 | tabs, blank, comment and decorative lines change nothing; otherwise levels, open closures, emitted tokens and errors are exactly those of the number of spaces |
| Lexer.Lexer.StepLevels | internal/lexer/lexer.go:443-513 | the levels and closures opened or closed by that many spaces, and one error for spaces that fit no level |
| Lexer.Lexer.OpenLevel | internal/lexer/lexer.go:461-479 | one level and one indent, and the closure it opens |
| Lexer.Lexer.CloseLevel | internal/lexer/lexer.go:487-494 | one level, one dedent, and one closure exactly when that level opened it |
| Lexer.Lexer.CloseLevels | internal/lexer/lexer.go:485-495 | every level deeper than the line is popped with its dedent |
| Layout.PopClosure | internal/lexer/lexer.go:489-494 | comparing with the level below detects exactly the closure opened at the popped level, and the rest stay a subsequence of the open levels |
| Layout.PushClosure | internal/lexer/lexer.go:471-479 | a new level keeps the open closures a strictly increasing subsequence |
| Lexer.Lexer.ScanNewline | internal/lexer/lexer.go:182-208 | a newline token exactly where the line ends: outside brackets, and outside calls or where a closure's body begins; otherwise the next line is a continuation |
| Lexer.Lexer.ScanOpenBrace | internal/lexer/lexer.go:261-279 | an indent after a block keyword, a literal brace otherwise; the brace stack records which |
| Lexer.Lexer.ScanCloseBrace | internal/lexer/lexer.go:280-309 | ends an interpolated expression and scans the rest of its string into the specified token, or pops one brace, with a dedent exactly when it opened a block |
| Lexer.Lexer.ScanStringBody | internal/lexer/lexer.go:749-792 | one token, an interpolation pushed, or an error: exactly the specified body scan |
| Lexer.Lexer.ScanStringEscape | internal/lexer/lexer.go:810-888 | exactly the specified escape |
| Lexer.Lexer.ScanTripleQuoteString | internal/lexer/lexer.go:583-623 | the token, the errors and the text ahead are those of scanning the dedented text with its quotes escaped, spliced in front of what follows the closing quotes; at most one double quote and no single quote is added |
| Literals.TripleLiteral | internal/lexer/lexer.go:583-735 | a literal between three quotes without backslashes is one STRING token whose value is its dedented text, and what follows its closing quotes is scanned next, if and only if nothing is interpolated in the value and it holds no NUL |
| Literals.SingleLiteral | internal/lexer/lexer.go:902-935 | the same for a literal between single quotes |
| Literals.SplicedValue | internal/lexer/lexer.go:703-735 | content without backslashes is scanned to itself up to the synthetic quote and no further, under the same condition |
| TripleQuote.DedentedLines | internal/lexer/lexer.go:627-697 | the value of a multi-line literal has as many lines as its text, and each is that line without the common indentation |
| TripleQuote.SplitJoined | internal/lexer/lexer.go:640-641 | lines without line ends in them are exactly the lines of their joined text |
| TripleQuote.FirstEndDropped | internal/lexer/lexer.go:628-633 | one line end in front is dropped, and nothing else |
| TripleQuote.LastEndDropped | internal/lexer/lexer.go:635-641 | one line end behind is dropped with its carriage return, and nothing else |
| Lexer.Lexer.ScanSingleQuoteString | internal/lexer/lexer.go:902-935 | the same for the text up to the next single quote that is not escaped; no single quote is added |
| TripleQuote.DedentTripleQuote | internal/lexer/lexer.go:627-697 | the loops compute the dedented text of which the lemmas speak; nothing but blanks and line ends is removed |
| TripleQuote.LeastIndentIsLeast | internal/lexer/lexer.go:640-664 | the removed indentation is that of some line with text and of no such line less, or there is no such line |
| TripleQuote.StrippedExactly | internal/lexer/lexer.go:666-690 | from a line with that much indentation exactly that many blanks are removed |
| TripleQuote.Inject | internal/lexer/lexer.go:703-727 | the loop writes exactly the specified text |
| TripleQuote.InjectedCount | internal/lexer/lexer.go:703-727 | splicing keeps the number of quotes |
| EscapeProof.QuotedIsOneToken | internal/formatter/printer.go:1358-1389 | a printed literal in a program is scanned in one step to one STRING token with the value if and only if no brace stands directly before a letter or underscore (and an empty literal is not followed by a quote) |
| EscapeProof.QuotedRoundTrip | internal/formatter/printer.go:1358-1389 | the same for the body scan behind the opening quote |
| EscapeProof.ScanEscaped | internal/lexer/lexer.go:749-888 | the body scan of escaped text, after any prefix: the value, or an interpolation exactly when there is such a brace |
| EscapeProof.EscapeStringValue | internal/formatter/printer.go:1358-1389 | the builder loop writes the specified text |
| MergeLines.MergeLineContinuations | internal/lexer/lexer.go:1203-1276 | the loop with its counters computes the specified pass |
| MergeLines.MergeConserves | internal/lexer/lexer.go:1203-1276 | for every stream: input depth is output depth plus what stays absorbed, nesting is kept, a balanced stream stays balanced with nothing absorbed, and all other tokens survive in order |
| LayoutText.LayoutsAgree | internal/formatter/printer.go:1544-1555 | in any program text of complete lines a chain on one line and the same chain with every later stage on a line of its own become the same tokens if and only if the next line goes on with the chain (with a pipe or, directly below, onerr) exactly when it is deeper than the chain, and no dedent of a block brace in a later stage is absorbed in place of the one that ends the stage lines |
| LayoutText.ClosureLosesItsDedent | internal/lexer/lexer.go:1212-1217 | x piped into a call with a closure: with the stage on its own line the dedent of the closure's brace is dropped |
| LayoutText.SourceScans | internal/lexer/lexer.go:98-393 | a source of complete, well indented lines scans to the tokens of its lines with the indents, dedents and newlines between them |
| Continuation.BracketsSpanLines | internal/lexer/lexer.go:125-209 | a program whose statement is spread over lines inside its brackets, its literals' braces and its calls has the tokens of the program with that statement on one line |
| Continuation.LineEndIsBlank | internal/lexer/lexer.go:126-136 | inside a bracket, a literal's braces or a call a line end and the blanks behind it are worth one blank, whatever follows |
| Continuation.BlockLines | internal/lexer/lexer.go:138-146 | between a block's braces a line end is a token and the blanks behind it are nothing |
| Continuation.ClosureBody | internal/lexer/lexer.go:188-200 | in a call, behind a fat arrow at the line's end or a function literal on the line, a deeper line opens a level, and line ends count from there |
| Lexemes.BraceOpensBlock | internal/lexer/lexer.go:261-279 | a brace opens a block exactly when one of nine keywords stands before it on the line and neither `of` nor another block's brace between |
| Lexemes.Brackets | internal/lexer/lexer.go:242-260 | round and square brackets are tokens, and what is open is counted |
| Lexemes.Operators | internal/lexer/lexer.go:310-392 | thirteen operators of two characters are one token where they stand, and fifteen characters where they make no such pair with the next |
| Lexemes.DecimalNumber | internal/lexer/lexer.go:972-1027 | digits and underscores without a base letter are one integer, and what follows is no part of it |
| Lexemes.BasedNumber | internal/lexer/lexer.go:972-1010 | zero, a letter for the base and digits of that base with underscores are one integer, and what follows is no part of it |
| Lexemes.Characters | internal/lexer/lexer.go:1151-1184 | the characters of numbers and words, one by one |
| Lexemes.BlankLine | internal/lexer/lexer.go:643-647 | a line counts as blank exactly when nothing but blanks and carriage returns are on it |
| Lexemes.JoinedLine | internal/lexer/lexer.go:1203-1276 | a line of a chain that begins with `onerr`, and every line that begins with a pipe, is joined to the line above, its indents owed as dedents |
| Tokenizer.Tokenize | internal/lexer/lexer.go:98-122 | on every source exactly the tokens of which the layout theorems speak, or none where there are none; they are nested |
| LayoutText.NextBefore | internal/lexer/lexer.go:125-393 | a scanning step does not depend on what stands behind a following blank or line end |
| PipeLayout.LayoutIrrelevantInProgram | internal/lexer/lexer.go:1203-1276 | the layout theorem on token lines, for any tokens before the chain |
| PipeLayout.LayoutIrrelevant | internal/lexer/lexer.go:1203-1276 | the same from any state of the pass, with blank lines, comment lines and dedents behind the chain |
| PipeLayout.MergeThrough | internal/lexer/lexer.go:1203-1276 | how the pass goes through what precedes a statement does not depend on what follows |
| BlendHunks.PatchRoundTrip | internal/blend/apply.go:142-198 | for every context, applying the hunks at their header positions gives exactly the new lines, and applying their reverses to the new lines gives back the old ones |
| BlendHunks.ComputeHunks | internal/blend/apply.go:90-198 | the hunks are exactly the maximal stretches of entries within the context of a change, each with its true starts and counts on both sides |
| BlendHunks.EachChangeInOneHunk | internal/blend/apply.go:141-149 | every changed line lies in exactly one hunk |
| BlendHunks.MergeRegions | internal/blend/apply.go:141-149 | merged regions begin and end with a change, cover all changes and are apart by more than twice the context |
| BlendHunks.FindRegions | internal/blend/apply.go:125-139 | the regions are exactly the runs of changes |
| BlendHunks.BuildHunk | internal/blend/apply.go:154-196 | header and body of one hunk, line by line |
| BlendHunks.LookbackExact | internal/blend/apply.go:200-217 | the look-back position is the true one exactly when no line of the other side lies between; every hunk start meets this |
| BlendHunks.Annotate | internal/blend/apply.go:107-123 | each entry has its true line indices |
| BlendDiff.ShortestScript | internal/blend/apply.go:246-293 | the script keeps a longest common subsequence, and no script that turns a into b has fewer insertions and deletions |
| BlendDiff.DiffLines | internal/blend/apply.go:246-293 | the script turns a into b and keeps as many lines as the table says |
| BlendDiff.FillTable | internal/blend/apply.go:252-266 | the table holds the recurrence everywhere |
| BlendDiff.LcsBounds | internal/blend/apply.go:257-265 | no common subsequence of the remaining lines is longer than the table entry |
| BlendApply.Apply | internal/blend/apply.go:14-57 | the buffer rebuilt per edit is the source with the chosen replacements in place |
| BlendApply.ApplyPerformsLargestSet | internal/blend/apply.go:30-54 | whatever the unstable sort leaves, the performed edits are a largest set of disjoint in-range suggestions, and each skipped one overlaps a performed one |
| BlendApply.UntouchedSurvives | internal/blend/apply.go:40-50 | every untouched character is in the result, moved by exactly the edits before it |
| BlendApply.ReplacementPlaced | internal/blend/apply.go:40-50 | every performed replacement is in the result, whole, where its source text was |
| BlendApply.SplicedLength | internal/blend/apply.go:40-50 | the result has the matching length |
| BlendApply.OuterEditWinsExactly | internal/blend/apply.go:10-27 | of two nested edits, in whatever order the sort leaves them, exactly one is performed: the outer one, as the comment says, if and only if both start at the same place |
| ForLoop.RunForNumeric | internal/codegen/codegen_stmt.go:524-588 | the compiled loop visits what the statement means exactly when a literal-zero range has a bound of at least 0 and the range is not one of the two full inclusive ones |
| ForLoop.RunSteppingLoop | internal/codegen/codegen_stmt.go:556-588 | ends under 64-bit wrap-around and visits exactly the range in order; the two full inclusive ranges visit nothing |
| ForLoop.AtStep | internal/codegen/codegen_stmt.go:571-577 | the variable equals the bound exactly after the whole range, wrap-around included |
| ForLoop.VisitsAreTheRange | internal/codegen/codegen_stmt.go:529-533 | the range is every integer between, each once, in order |
| Positions.OffsetRoundTrip | internal/lsp/document.go:157-187 | offset to position to offset is the identity exactly on character boundaries of the document |
| Positions.PositionRoundTrip | internal/lsp/document.go:157-187 | position to offset to position is the identity exactly on positions that split no surrogate pair |
| Positions.LineRoundTrips | internal/lsp/document.go:239-268 | within a line: both compositions, exactly on boundaries |
| Positions.BoundaryExactly | internal/lsp/document.go:239-251 | in the UTF-16 form of a line exactly the places between a high and a low surrogate are no boundaries, and such a position goes to the start of its character |
| Encodings.Utf16Exact | internal/lsp/document.go:270-275 | the code units by which positions count: a sequence of units is a text's UTF-16 form exactly when decoding it gives the text (section 2 of RFC 2781) |
| Encodings.Utf8Exact | internal/lsp/document.go:244-249 | the bytes by which offsets count: a sequence of bytes is a text's UTF-8 form exactly when decoding it gives the text (section 3 of RFC 3629) |
| Positions.Utf16PosToByteOffset | internal/lsp/document.go:239-251 | the length in UTF-8 of the longest part of the line that is no longer in UTF-16 than the position |
| Positions.ByteOffsetToUtf16Pos | internal/lsp/document.go:253-268 | the length in UTF-16 of the shortest part of the line that is no shorter in UTF-8 than the offset |
| Positions.PositionToOffset | internal/lsp/document.go:157-167 | the length in UTF-8 of the lines before and of that part of the line; past the last line, the length with a final newline |
| Positions.OffsetToPosition | internal/lsp/document.go:169-187 | the line the offset falls in, its end counting as its last column, and the UTF-16 length of the part before the offset; past the text, its end |
| Lowering.Lowerer.LowerLabelStep | internal/codegen/lower.go:384-415 | one step of the goto form against its specification |
| Lowering.LowerPipedLeft | internal/codegen/lower.go:443-466 | what is piped into the switch: a chain, a checked call or an expression |
| Parser.Cursor.ParseAndExpr | internal/parser/parser_expr.go:123-138 | level 2 |
| Parser.Cursor.ParseBitwiseOrExpr | internal/parser/parser_expr.go:140-155 | level 3 |
| Parser.Cursor.ParseBitwiseAndExpr | internal/parser/parser_expr.go:157-172 | level 4 |
| Parser.Cursor.ParseAdditiveExpr | internal/parser/parser_expr.go:222-237 | level 6 |
| Parser.Cursor.ParseMultiplicativeExpr | internal/parser/parser_expr.go:239-254 | level 7 |
| Parser.Cursor.PeekToken | internal/parser/parser.go:199-205 | the next token that is not skipped |
| Parser.Cursor.PeekNextToken | internal/parser/parser.go:207-231 | the token after that, without moving to it |
| Parser.Cursor.Check | internal/parser/parser.go:247-252 | compares without consuming |
| Parser.Cursor.ConsumeRParen | internal/parser/parser.go:262-274 | a closing parenthesis, or one error more and no progress |
| Lexer.Lexer.constructor | internal/lexer/lexer.go:82-95 | nothing scanned, one level, at a line start, with the invariant |
| Lexer.Lexer.ScanString | internal/lexer/lexer.go:553-569 | empty, triple-quoted or one-line literal by the next two quotes; tokens, interpolations, errors and the text ahead are those of the specified scan; no quotes are added ahead |
| Lexer.Lexer.ScanStringFromContent | internal/lexer/lexer.go:703-735 | the prepared text and a closing quote are spliced in at the cursor and scanned to the specified token |
| Lexer.Lexer.ScanRawString | internal/lexer/lexer.go:945-969 | the text up to the next backquote as it is, or exactly one error |
| Lexer.Lexer.ScanNumber | internal/lexer/lexer.go:972-1027 | the longest run of digits and underscores of the base, with a fraction only in base ten; an error exactly when a prefix has no digit behind it |
| Lexer.Lexer.ScanIdentifier | internal/lexer/lexer.go:1030-1043 | the longest word from the start |
| Lexer.Lexer.ScanComment | internal/lexer/lexer.go:1048-1060 | the rest of the line, a directive exactly by its prefix |
| Lexer.Lexer.ScanOperator | internal/lexer/lexer.go:315-392 | two characters exactly where they combine, else one, or exactly one error for a character that starts none |
| BlendApply.Sort | internal/blend/apply.go:19-27 | some order of the same suggestions, latest start first and longer spans first |

## Left out

- Statement-level piped switch: it shares the goto form that is modelled, around a
  switch statement in place of an expression.
- Steps that return three values or more, several targets on the left, and an error
  variable given by name.
- Lowering.GeneratePipedStepCall: package aliases and the rendering of print in server
  mode are not modelled.
- Lowering.GenerateOnErrVarDecl: the branch for pipe chains; other right-hand sides with
  onerr are not modelled.
- Lowering.GenerateOnErrAssign: the branch for pipe chains only.
- Lowering.GenerateOnErrStmt: the branch for pipe chains only.
- `onerr discard`, and the type an `onerr empty` may name.
- Lowering.LowerPipedSwitchVarDecl: the switch literal is one call of a named function on
  the piped value.
- Which zero value a type has: types are names, each result with the spelling and the
  value of its zero. Functions whose last result is no error cannot hold the clauses that
  return one, so a function without results stands for one with the error alone.
- Line directives and comment texts. Of variables that are never read only the one that
  records the error of the goto form is followed; the program's own are its own matter.
- Handlers that call a function and then go on, and the blank identifier as the target of
  a declaration.
- User variables are not changed by the functions a chain calls.
- ExactProof.LoweringCorrectExactly: asks that each function has one signature, so that an
  oracle of that type exists, that no method of a shorthand step is called in the same
  chain with one argument more, as only a variadic method could be, and that a handler
  which returns user variables names none like a stand-in for a zero value.
- SwitchExact.SwitchCorrectExactly: asks for the same, and for the function of the switch
  not to be one of the chain's calls in disguise.
- Expressions with a dot, index, slice, conversion, type test, lambda, literal of a
  structure or conditional; the onerr clause behind an expression.
- Parser.Cursor.ParsePipeExpr: the piped switch as an operand is not modelled.
- Parser.Cursor.ParseComparisonExpr: the type test `is` is not modelled.
- Parser.Cursor.MatchComparison: the same.
- Parser.Cursor.ParseUnaryExpr: `reference of` is one token, so stepping back from a
  `reference` without `of` is not modelled.
- Parser.Cursor.ParsePostfixExpr: calls are the only postfix form.
- Parser.Cursor.ParseCallArguments: arguments by name and spread arguments are not modelled.
- Parser.Cursor.ParsePrimaryExpr: leaves, grouping and the error case only.
- Parser.Cursor.SkipIgnoredTokens: directives are stepped over and not collected.
- The characters of an expression: the printer's text is given as the tokens it lexes to,
  and only adjacent minus signs are followed below the level of tokens.
- LayoutText.LayoutsAgree: chains inside brackets or closures, comments between the stages,
  tabs in front of a line, and a stage that ends behind a block keyword with its brace
  missing (`go |> f`) are not compared.
- Continuation.BracketsSpanLines: statements with a function literal or a fat arrow inside the
  brackets are not compared, because there a line end may open a closure's body; nor are
  lines that end with a comment.
- Literals.TripleLiteral: literals with backslashes, which are spliced with their escapes,
  are described by the scan of the spliced text only.
- Literals.SingleLiteral: the same.
- Token positions, the authored-multiline flag and the choice of line width.
- Escapes above 127 written as octal bytes, and text that is not valid UTF-8.
- Hunk headers as text, the newline added to a last line without one, and the convention
  of other tools for the start of a side with no lines.
- Collection of suggestions from Go source, documents as shared state, and everything of
  the command line, the module proxy, the analyzer and the editor server.
