# Calculator, expression parser and script interpreter in Dafny

A Dafny model of the three Java classes that evaluate arithmetic:

- `Calculator` (`calculate`, `infixToPostfix`, `evaluatePostfix`). It splits
  its input at spaces. The shunting-yard conversion uses precedence 1 for
  `+ -` and 2 for `* /`. The result is evaluated on a value stack. Popping an
  empty stack throws, and so does dividing by zero.
- `ExpressionParser` (`parse`, `findMatchingParenthesis`, `parseOperations`,
  `splitByOperators`). `parse` removes whitespace, expands function calls,
  writes `0-` for a unary minus and substitutes `pi` and `e`. It then replaces
  the innermost parenthesised group by its value until no `(` is left.
  `parseOperations` splits at `+ -`, then at `* /`, then at `^`. An operator
  character in sign position is not a split point.
- `Interpreter` (`execute`, `processLine`, `processIfBlock`, `executeBlock`,
  `evaluateCondition`). It runs a script line by line:
  - blank lines and `//` comments are skipped;
  - an `if (...) {` line collects a then-list and an else-list by counting
    braces;
  - `name = expression` assigns a variable;
  - any other line is an expression whose value is printed;
  - a line that throws adds an error record, and the run continues.

Modules:

| file | module | contents |
|---|---|---|
| `outcomes.dfy` | `Outcomes` | the exceptions as an `Error` value; `Option`, `Result` |
| `text.dfy` | `Text` | the `java.lang.String` operations the code uses: `trim`, `indexOf`, `lastIndexOf`, `substring`, `replace`, `split` (trailing empty strings dropped), `contains` |
| `calculator.dfy` | `Calculator` | the conversion and the evaluator as functions, and the two loops as methods proved equal to them |
| `calculator_props.dfy` | `CalculatorProperties` | what the conversion keeps: numbers in order, operators as a multiset, the stack ordered by precedence, and failure exactly on an unmatched `)` |
| `calculator_proofs.dfy` | `CalculatorProofs` | for every well-formed expression tree, the conversion yields its postfix form, and `calculate` yields its value |
| `expression_parser.dfy` | `ExpressionParser` | splitting, the parenthesis matcher, `parseOperations`, the rewrites and the group loop (`Parse`, `ParseGroups`, `ReplaceGroup`) |
| `expression_parser_props.dfy` | `ExpressionParserProperties` | what splitting produces, parsing level by level, and the unary-minus and power findings |
| `expression_parser_examples.dfy` | `ExpressionParserExamples` | the parser on the inputs its tests use |
| `interpreter.dfy` | `Interpreter` | the specification functions over a `State` value, and the class `Interpreter` whose methods are proved to follow them |
| `interpreter_props.dfy` | `InterpreterProperties` | the records a run leaves, error recovery, the brace scan, and the condition operators |

Doubles are modelled as `real`. The code works on text in three places whose
exact floating-point result is not modelled:

- reading a decimal number;
- writing a double as text;
- `Math.pow`.

These are parameters of the model: the `Env` value for the parser and the
`Host` value for the interpreter. `Calculator` number tokens match
`-?\d+(\.\d+)?`, and the model reads them exactly as decimal fractions.

Three behaviours of the code are easy to miss:

- `Calculator` knows only `+ - * /` and parentheses: it has no modulo,
  factorial or function tokens. The conversion drops any other token without
  error. An unmatched `(` stays in the postfix output, and the evaluator pops
  two values for it and pushes none.
- `processIfBlock` switches to the else-list at a `} else {` line at any
  brace depth, nested blocks included.
- An error record reads `Ошибка в строке '<line>': <message>`.

## Model

| member | source | states |
|---|---|---|
| Calculator.NumberShape | Calculator.java:22 | a token that matches the number pattern is non-empty, holds no space or parenthesis, and is not an operator |
| Calculator.PopAtLeastMoves | Calculator.java:25-28 | the pop loop moves a top segment of the stack to the output, top first |
| Calculator.PopAtLeastStops | Calculator.java:25-28 | the pop loop stops at the bottom, at a non-operator, or at an operator of lower precedence than the incoming one |
| Calculator.PopToOpenMoves | Calculator.java:33-35 | the loop for `)` moves a top segment of the stack to the output, top first |
| Calculator.PopToOpenStops | Calculator.java:33-35 | that loop stops at an empty stack or at a `(` |
| Calculator.Step | Calculator.java:22-37 | one token fails only when it is `)` with no `(` on the stack, and then by popping an empty stack |
| Calculator.Shunt | Calculator.java:21-38 | the token loop fails only by popping an empty stack |
| Calculator.ToPostfix | Calculator.java:11-45 | the conversion fails only by popping an empty stack |
| Calculator.InfixToPostfix | Calculator.java:11-45 | the loop and the drain compute `ToPostfix` |
| Calculator.Apply | Calculator.java:54-65 | an operator fails exactly when it is `/` with a zero divisor (ArithmeticException); an operator pushes one value, any other token pushes none |
| Calculator.EvalRpn | Calculator.java:47-70 | evaluation fails only by popping an empty stack or by dividing by zero (when each happens: `EmptyStackIffStarves`; what it computes: `ValueOfPostfix`, `LeftoverIgnored`) |
| Calculator.EvaluatePostfix | Calculator.java:47-70 | the loop computes `EvalRpn` from an empty stack |
| Calculator.Calculate | Calculator.java:5-9 | `calculate` is conversion then evaluation; it fails only by an empty stack or a division by zero |
| CalculatorProperties.ShuntKeepsNumbers | Calculator.java:21-38 | the token loop appends the input's numbers to the output in input order, and the stack holds no numbers |
| CalculatorProperties.NumbersInOrder | Calculator.java:11-45 | the number tokens of the postfix output are those of the input, in the same order |
| CalculatorProperties.ShuntKeepsOrder | Calculator.java:24-31 | adjacent operators on the stack are in strictly increasing precedence towards the top |
| CalculatorProperties.ShuntFailsIffUnderflow | Calculator.java:32-36 | the token loop fails if and only if some `)` finds no `(` left open |
| CalculatorProperties.ConversionFailsIffUnmatchedClose | Calculator.java:11-45 | the conversion fails if and only if some `)` has no matching `(` before it, and then by popping an empty stack |
| CalculatorProperties.ShuntKept | Calculator.java:21-38 | the output and the stack together hold the numbers and operators read so far, as a multiset |
| CalculatorProperties.ShuntOpens | Calculator.java:30-36 | each `)` consumes one `(` from the stack |
| CalculatorProperties.PostfixContents | Calculator.java:11-45 | the output holds only numbers, operators and `(`, never a `)`; it holds exactly the input's numbers and operators (as a multiset) and one `(` per unmatched `(` |
| CalculatorProperties.EmptyStackIffStarves | Calculator.java:50-69 | popping an empty stack happens only when a running count of values (a number adds one, an operator takes two and gives one back, any other token takes two) falls short, or is zero at the final pop; such a shortfall always ends in a failure; without `/` the evaluation fails exactly when it falls short |
| CalculatorProofs.ConversionIsPostfix | Calculator.java:11-45 | the tokens of a well-formed expression tree convert to the tree's postfix form |
| CalculatorProofs.RunPostfix | Calculator.java:47-67 | running the postfix form of a tree pushes the tree's value, or fails as evaluating the tree does |
| CalculatorProofs.ValueOfPostfix | Calculator.java:47-70 | the postfix form of a tree evaluates to the tree's value |
| CalculatorProofs.LeftoverIgnored | Calculator.java:69 | only the top value is returned: two trees' postfix forms in a row evaluate to the second tree's value, the first one's value being left below it |
| CalculatorProofs.TokensAreWords | Calculator.java:6 | every token of a tree is non-empty and holds no space, so `split(" ")` recovers the tokens |
| CalculatorProofs.CalculatesPrecedence | Calculator.java:5-9 | `calculate` on the space-separated text of a well-formed tree gives the tree's value, with `* /` before `+ -`, left to right; it fails only by dividing by zero |
| CalculatorProofs.EvalFailsOnlyByZero | Calculator.java:61-62 | a well-formed tree fails to evaluate only by dividing by zero |
| CalculatorProofs.ProductFirst | Calculator.java:15-19 | `"2 + 3 * 4"` is 14 |
| CalculatorProofs.LeftAssociative | Calculator.java:25-26 | `"8 - 3 - 2"` is 3 |
| ExpressionParser.SplitAtSpells | ExpressionParser.java:122-143 | the pieces of a split from a position spell the rest of the text, and there are an odd number of them |
| ExpressionParser.SplitAtPieces | ExpressionParser.java:122-143 | every odd piece is a single operator character; every piece is shorter than the text split |
| ExpressionParser.SplitByOperators | ExpressionParser.java:122-143 | the loop computes `Split` |
| ExpressionParser.FindMatchingParenthesis | ExpressionParser.java:71-80 | the result is a `)` at which the depth first falls to zero; otherwise the depth stays positive to the end and the error is an unmatched parenthesis |
| ExpressionParser.Combine | ExpressionParser.java:86-91 | one step of the `+ -` or `* /` loop fails exactly when it divides by zero |
| ExpressionParser.ParseOps | ExpressionParser.java:82-120 | `parseOperations` fails only by dividing by zero, by an endless recursion, or on text that is not a number |
| ExpressionParser.Chain | ExpressionParser.java:84-107 | the left fold over one level fails only as `parseOperations` does |
| ExpressionParser.UnaryMinus | ExpressionParser.java:10 | the rewrite never shortens the text, keeps its last character, adds only `0`, and leaves no unary minus behind |
| ExpressionParser.UnaryMinusPlaces | ExpressionParser.java:10 | every character is kept in order, shifted right by the unary minuses up to and including it; each unary minus has a `0` written just before it; the text grows by exactly the number of unary minuses, so nothing else is written |
| ExpressionParser.Prepare | ExpressionParser.java:6-13 | text without `(` stays without `(` through the rewrites, which then cannot fail |
| ExpressionParser.InnermostGroup | ExpressionParser.java:16-17 | the last `(` and the first `)` after it enclose no `(`, and no `(` follows the group |
| ExpressionParser.FewerOpens | ExpressionParser.java:20 | replacing a group by text without `(` leaves one `(` fewer |
| ExpressionParser.InnerGroup | ExpressionParser.java:16-18 | the result is the text strictly between the last `(` and the first `)` after it, which holds no `(`; it exists exactly when such a `)` exists, and otherwise `substring` throws IndexOutOfBounds |
| ExpressionParser.Substitute | ExpressionParser.java:20 | the group replaced by a value's text leaves fewer `(` |
| ExpressionParser.Parse | ExpressionParser.java:5-24 | `parse` computes `Evaluate` |
| ExpressionParser.ParseGroups | ExpressionParser.java:15-23 | the loop and the final call compute `Flatten` |
| ExpressionParser.ReplaceGroup | ExpressionParser.java:16-20 | one turn keeps the final result, or returns the failure the parse ends with; it removes at least one `(` |
| ExpressionParserProperties.SplitCharacterized | ExpressionParser.java:122-143 | `splitByOperators` returns exactly the list that alternates operands without split points and single operators, and spells the text |
| ExpressionParserProperties.SplitConcat | ExpressionParser.java:122-143 | a well-shaped list of pieces is what splitting its concatenation returns |
| ExpressionParserProperties.SplitAtWell | ExpressionParser.java:122-143 | splitting returns a well-shaped list |
| ExpressionParserProperties.SplitWhole | ExpressionParser.java:122-143 | text without a split point is one piece |
| ExpressionParserProperties.SplitWithout | ExpressionParser.java:126-129 | text with no operator character after its first is one piece |
| ExpressionParserProperties.SplitBinary | ExpressionParser.java:126-137 | `a op b` splits into `a`, `op`, `b` when neither operand has a split point |
| ExpressionParserProperties.UnaryMinusKeeps | ExpressionParser.java:10 | text without a unary minus is not rewritten |
| ExpressionParserProperties.UnaryMinusIdempotent | ExpressionParser.java:10 | rewriting twice is rewriting once |
| ExpressionParserProperties.CaretAlone | ExpressionParser.java:110-113 | `parseOperations("^")` recurses on itself without end |
| ExpressionParserProperties.PowerAsWrittenFails | ExpressionParser.java:110-113 | as written, text that reaches the `^` branch never yields a value |
| ExpressionParserProperties.PowerPieces | ExpressionParser.java:110-111 | `a^b` with plain operands splits into `a`, `^`, `b` at the `^` level only |
| ExpressionParserProperties.PowerIntended | ExpressionParser.java:110-113 | as intended, `a^b` is `pow` of the values of `a` and `b` |
| ExpressionParserProperties.PowerAsWritten | ExpressionParser.java:112 | as written, `a^b` fails with an endless recursion unless `a` fails first |
| ExpressionParserExamples.PrepareWithoutNames | ExpressionParser.java:6-13 | text without `(`, `p` or `e` only loses its whitespace and has its unary minus rewritten |
| ExpressionParserExamples.Leaf | ExpressionParser.java:115-119 | text with no operator past its first character is the number it reads as, or InvalidExpression |
| ExpressionParserExamples.RemoveSpaces | ExpressionParser.java:6 | `"2 * -3"` loses its spaces |
| ExpressionParserExamples.ZeroInsertedAsWritten | ExpressionParser.java:10 | as written, `"2*-3"` becomes `"2*0-3"` |
| ExpressionParserExamples.ProductHasNoSum | ExpressionParser.java:126-129 | a product of two numbers has no `+ -` split point |
| ExpressionParserExamples.Product | ExpressionParser.java:95-108 | `a*b` of two numbers is their product, a sign on `b` included |
| ExpressionParserExamples.Difference | ExpressionParser.java:83-93 | `p-c` is the value of `p` minus the number `c` |
| ExpressionParserExamples.ProductAsWritten | ExpressionParser.java:82-108 | `"2*0-3"` is -3 |
| ExpressionParserExamples.ProductIntended | ExpressionParser.java:95-108 | `"2*-3"` is -6 |
| ExpressionParserExamples.PrepareUnclosed | ExpressionParser.java:6-13 | `"(2 + 3"` prepares to `"(2+3"` |
| ExpressionParserExamples.UnclosedGroup | ExpressionParser.java:15-18 | `"(2 + 3"` fails with IndexOutOfBounds |
| ExpressionParserExamples.Sum | ExpressionParser.java:83-93 | `a+b` of two numbers is their sum |
| ExpressionParserExamples.GroupOfSum | ExpressionParser.java:16-18 | in `"(2+3)*4"` the last `(` is at 0, the first `)` after it at 4, and the group is `"2+3"` |
| ExpressionParserExamples.GroupFirst | ExpressionParser.java:5-24 | `parse("(2 + 3) * 4")` evaluates the group to 5, writes it back as `5.0`, and gives 20 under either reading |
| ExpressionParserExamples.QuotientByZero | ExpressionParser.java:103 | a quotient whose divisor reads as zero fails with a division by zero |
| ExpressionParserExamples.BareUnchanged | ExpressionParser.java:10-13 | text of digits and operators other than `-` passes the rewrites of lines 10-13 unchanged |
| ExpressionParserExamples.PrepareSimple | ExpressionParser.java:6-13 | such text only loses its whitespace |
| ExpressionParserExamples.PrepareQuotient | ExpressionParser.java:6-13 | `"5 / 0"` prepares to `"5/0"` |
| ExpressionParserExamples.FiveByZero | ExpressionParser.java:101-104 | `"5/0"` fails with a division by zero |
| ExpressionParserExamples.DivideFiveByZero | ExpressionParser.java:5-24 | `parse("5 / 0")` fails with a division by zero |
| ExpressionParserExamples.PrepareProductAsWritten | ExpressionParser.java:6-13 | as written, `"2 * -3"` prepares to `"2*0-3"` |
| ExpressionParserExamples.PrepareProductIntended | ExpressionParser.java:6-13 | as intended, `"2 * -3"` prepares to `"2*-3"` |
| ExpressionParserExamples.ProductOfNegative | ExpressionParser.java:5-24 | `parse("2 * -3")` is -3 as written and -6 as intended |
| ExpressionParserExamples.PrepareConstants | ExpressionParser.java:12-13 | text with no space, `(`, `-` or `p` has only its `e` replaced |
| ExpressionParserExamples.PrepareE | ExpressionParser.java:13 | `"e^0"` prepares to the text of e followed by `^0` |
| ExpressionParserExamples.PowerOfE | ExpressionParser.java:5-24 | `parse("e^0")` recurses without end as written, and is `pow(e, 0)` as intended |
| Interpreter.Scan | Interpreter.java:62-79 | the scan moves the cursor forward only, within the script |
| Interpreter.LineStep | Interpreter.java:32-51 | a line keeps the script and moves the cursor forward only |
| Interpreter.IfStep | Interpreter.java:53-59 | an if-line keeps the script and moves the cursor forward only |
| Interpreter.IfBlock | Interpreter.java:60-86 | the scan and the chosen list keep the script and move the cursor forward only (which list runs: `IfRunsChosenList`) |
| Interpreter.BlockStep | Interpreter.java:88-92 | a block keeps the script and moves the cursor forward only |
| Interpreter.Interpreter.constructor | Interpreter.java:4-7 | a fresh interpreter has no variables, no output, no lines, cursor 0 |
| Interpreter.Interpreter.Execute | Interpreter.java:9-30 | `execute` computes `Execution`; its result is the text of the output buffer |
| Interpreter.Interpreter.RunLines | Interpreter.java:16-27 | the loop ends with the state `Run` gives, or with the fatal error `Run` gives |
| Interpreter.Interpreter.NextLine | Interpreter.java:17-26 | one turn consumes at least one line and keeps the result of the run, or is the fatal error the run ends with |
| Interpreter.Interpreter.ProcessLine | Interpreter.java:32-51 | `processLine` changes the fields as `LineStep` says and throws its failure |
| Interpreter.Interpreter.ProcessIfBlock | Interpreter.java:53-86 | `processIfBlock` changes the fields as `IfStep` says and throws its failure |
| Interpreter.Interpreter.CollectBlocks | Interpreter.java:57-79 | the scan leaves variables and output alone and gives the cursor and the two lists `Scan` gives |
| Interpreter.Interpreter.ExecuteBlock | Interpreter.java:88-92 | `executeBlock` changes the fields as `BlockStep` says and throws its failure |
| InterpreterProperties.BindingsAppend | Interpreter.java:43-44 | replaying assignment records in two parts is replaying them in one |
| InterpreterProperties.LineRecords | Interpreter.java:38-50 | after a line, the variables are those the appended records assign |
| InterpreterProperties.IfRecords | Interpreter.java:53-86 | after an if-block, the variables are those the appended records assign |
| InterpreterProperties.BlockRecords | Interpreter.java:88-92 | after a block, the variables are those the appended records assign |
| InterpreterProperties.FollowsFailure | Interpreter.java:24-25 | an error record leaves the variables alone |
| InterpreterProperties.RunRecords | Interpreter.java:16-27 | after the loop, the variables are those the appended records assign |
| InterpreterProperties.ExecutionRecords | Interpreter.java:9-30 | a finished run's variables are exactly those its assignment records leave, from empty |
| InterpreterProperties.RunFailsOnlyFatally | Interpreter.java:22-26 | the loop stops early only on an error that `catch (Exception e)` does not catch |
| InterpreterProperties.ExecutionFailsOnlyFatally | Interpreter.java:9-30 | `execute` fails only on such an error |
| InterpreterProperties.FailureRecorded | Interpreter.java:22-26 | when a line throws a catchable exception, a run that ends normally outputs what the line appended before throwing, then the error record naming the trimmed line, and everything after it |
| InterpreterProperties.QuietLines | Interpreter.java:20 | blank and comment lines leave no record and no variable |
| InterpreterProperties.QuietScript | Interpreter.java:9-30 | a script of blank lines and comments outputs nothing |
| InterpreterProperties.KeptSnoc | Interpreter.java:72-78 | one more line adds itself to the lists unless it is a brace, the else marker, blank or a comment |
| InterpreterProperties.BalanceSnoc | Interpreter.java:66-71 | one more line changes the brace count by +1 for `{`, -1 for `}`, 0 otherwise |
| InterpreterProperties.ScanInvariant | Interpreter.java:62-79 | the scan keeps its invariant: the lists hold the kept lines, the count is the balance, and the else-mode is on exactly after a `} else {` line |
| InterpreterProperties.AdvanceKeepsFacts | Interpreter.java:63-78 | one pass of the scan keeps the invariant |
| InterpreterProperties.ElseLineFirst | Interpreter.java:68-69 | `ElseLine` names the first `} else {` line after the if-line, or the end of the scan when there is none |
| InterpreterProperties.ScanPartition | Interpreter.java:57-79 | the then-list is the kept lines before the first `} else {` line, the else-list the kept lines after it up to the end of the scan (empty when there is no such line), and together they are all the kept lines; the scan stops at the end or where the brace count first reaches zero |
| InterpreterProperties.IfRunsChosenList | Interpreter.java:53-85 | once the condition is judged, the run goes on from the line after the block, running the then-list when the condition holds and the else-list when it does not |
| InterpreterProperties.ScanEndsClosed | Interpreter.java:62 | a scan that stopped early stopped at a count of exactly zero |
| InterpreterProperties.BlockSequence | Interpreter.java:88-92 | a block of two parts runs the first part, then the second part unless the first threw |
| InterpreterProperties.IfFailureFallsThrough | Interpreter.java:16-27 | an if-line whose condition cannot be cut out or judged (lines 54-55) stops the run when the error is fatal; otherwise it adds its error record and the run goes on from the next line, so the block's lines run as top-level lines |
| InterpreterProperties.EarlierAbsent | Interpreter.java:109-126 | the operators looked for before `op` do not occur in `a op b` with plain operands |
| InterpreterProperties.RelateAround | Interpreter.java:110-126 | splitting `a op b` at `op` and comparing the parts compares `a` with `b` |
| InterpreterProperties.Comparison | Interpreter.java:109-126 | `a op b` with plain operands is judged by `op` on the values of `a` and `b`, left operand first |
| InterpreterProperties.Negation | Interpreter.java:109-126 | with plain operands, `!=`, `<` and `>` judge the opposite of `==`, `>=` and `<=` |
| InterpreterProperties.Truthiness | Interpreter.java:129 | a condition without a comparison operator holds when its value is not zero |
| InterpreterProperties.AssignmentShape | Interpreter.java:38-40 | `name=expression` without other `=` is an assignment and splits into its two sides |
| InterpreterProperties.Assignment | Interpreter.java:38-46 | such a line binds the trimmed name to the value of the trimmed expression and records it, or throws and changes nothing |
| InterpreterProperties.EqualityIsExpression | Interpreter.java:38-50 | a line holding `==` leaves the variables alone; it prints its value exactly when the value can be computed, and otherwise throws and changes nothing |
| Text.IndexOfFromFirst | Interpreter.java:54 | `indexOf` gives the first occurrence at or after the start, and -1 only when there is none |
| Text.Substring | Interpreter.java:54 | `substring` succeeds exactly on indices within bounds, and otherwise throws IndexOutOfBounds |
| Text.RemoveWhitespaceAppend | ExpressionParser.java:6 | removing whitespace works piece by piece, so (with the one-character case `RemoveWhitespaceOne`) each non-whitespace character is kept, in order, and each whitespace character goes |
| Text.SplitJoin | Calculator.java:6 | `split` at one character undoes joining with it, for non-empty pieces that do not hold that character |

## Left out

- Floating point: doubles are reals. Rounding, infinities and NaN are not
  modelled, and neither is the 1e-4 tolerance's interaction with rounding.
- `Double.parseDouble`, `String.valueOf(double)`, `Math.pow`, and the decimal
  text of `Math.PI` and `Math.E` are fields of `ExpressionParser.Env`.
  `StringBuilder.append(double)` and `Throwable.getMessage()` are fields of
  `Interpreter.Host`.
- `processFunctions` (ExpressionParser.java:27-69) is the field
  `Env.functions`. The model assumes only that it leaves text without `(`
  unchanged, which holds because each of its loops looks for a name followed
  by `(`. Its expansion of `sin(`, `cos(`, `sqrt(` and the others, and its
  calls to `findMatchingParenthesis`, are not modelled.
- evaluateExpression's substitution of variables (Interpreter.java:95-97 and
  105-107) walks a `HashMap` in no fixed order. It is the field
  `Host.substitute`, and the call `new ExpressionParser().parse` is
  `Host.parse`. The interpreter is therefore proved for any parser.
- The parse of a whole line is not proved to terminate for every
  `processFunctions`. The model instead relies on the group contents holding
  no `(`.
- `StackOverflowError` from the endless recursion of line 112 is the error
  value `StackOverflow`. It is the one error the interpreter's
  `catch (Exception e)` does not catch (`Error.IsFatal`).
- The exceptions are values of one `Error` type, not Java's class hierarchy.
  Messages are abstract.
- The shared mutable `StringBuilder` is a sequence of records. `Render` turns
  them into text.
- CalculatorTest.java exercises a different static API, which is not part of
  this model.
- Calculator.Calculate: the precedence result (`CalculatesPrecedence`) is
  proved for inputs written as the space-separated tokens of a well-formed
  tree. Other inputs are covered only by the failure facts.
- ExpressionParser.ParseOps: no value is stated for general text. Values are
  proved only for a single number (`Leaf`), a product of two numbers
  (`Product`), a difference whose right operand is a number (`Difference`),
  `a^b` as intended (`PowerIntended`) and the inputs of the tests.

## Findings

| source | as written | input that shows it | evidently intended | confidence | as-written member | corrected member |
|---|---|---|---|---|---|---|
| ExpressionParser.java:10 | the pattern `(?<![0-9)])-` writes `0-` for every minus not after a digit or `)`, including one after an operator: `2*-3` becomes `2*0-3`, which is (2*0)-3 | `parse("2 * -3")` gives -3.0; CalculatorIdeTest.java:40 expects -6.0 | only a minus that opens the text or a group becomes `0-`; a minus after an operator stays a sign, which splitByOperators already handles | high (not executed) | ExpressionParserExamples.ProductOfNegative (first ensures), ExpressionParserExamples.ZeroInsertedAsWritten | ExpressionParser.UnaryMinus under `Intended`, ExpressionParserProperties.UnaryMinusIdempotent, ExpressionParserExamples.ProductOfNegative (second ensures) |
| ExpressionParser.java:112 | `Math.pow(parseOperations(powParts[0]), parseOperations(powParts[1]))`: piece 1 is the `^` itself, and parseOperations("^") calls itself on the same text without end | `parse("e^0")` throws StackOverflowError; CalculatorIdeTest.java:62 expects 1.0 | raise to `powParts[2]`, the operand after `^` | high (not executed) | ExpressionParserProperties.PowerAsWritten, ExpressionParserProperties.CaretAlone, ExpressionParserExamples.PowerOfE (first ensures) | ExpressionParserProperties.PowerIntended, ExpressionParserExamples.PowerOfE (second ensures) |
