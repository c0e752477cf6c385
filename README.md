# String expression calculator — a Dafny model

This project models the core of a Java library that evaluates arithmetic and
logic expressions written as strings. It covers two families of parsers.

**Postfix parsers.** These cover the math parsers (the root
`MathStringExpressionParser` and its `Int`, `Double` and `BigDecimal` variants)
and the logic parsers (`ShortLogic…` and `FullLogic…`). Each one:

- stores a whitespace-free text in an expression entity;
- binds queued values to the identifiers in that text (`setVariablesValue`);
- rewrites unary minus and converts the text to reverse Polish notation with a
  shunting-yard scan (`expressionToReversePolishNotation`);
- evaluates the postfix text on an operand stack.

**Recursive-descent parsers.** These are the two `StringParser` classes:

- the plain one: `getLexeme`, `addOrSubtractTwoTerms`,
  `multiplyOrDivideTwoFactors`, `evaluateInsideBrackets`, `getNumberValue`;
- the calculator one, which adds signed numbers, variables, `tan`/`sin`/`cos`
  calls that are replaced by their value in the text, and value binding.

## Layout

| file | module | models |
|---|---|---|
| `errors.dfy` | `Errors` | the error kinds, `Result`, `Outcome` |
| `text.dfy` | `Text` | the `String` operations the parsers use: whitespace stripping, `contains`, `split`, `replace`, `replaceFirst`, `Integer.toString` |
| `numbers.dfy` | `Numbers` | `Double.parseDouble`, `Math.round`, `Math.toIntExact`, and `BigDecimal` parsing, arithmetic and `toString` |
| `converter.dfy` | `Converter` | the unary rewrite, the shunting-yard conversion, and function name and argument extraction |
| `postfix.dfy` | `Postfix` | the operand-stack evaluator loop, generic in the operand type |
| `math.dfy` | `MathParsing` | the math priorities, built-in and client function calls, the double evaluator, the operand-type validator |
| `binding.dfy` | `Binding` | the identifier-to-value binding loop shared by the math parsers |
| `math_parsers.dfy` | `RootMathParser`, `IntMathParser`, `DoubleMathParser`, `DecimalMathParser` | the four math parser classes |
| `logic.dfy` | `LogicParsing`, `FullLogicParser` | the short and the full logic parsers |
| `entities.dfy` | `MathEntity`, `Entities`, `RootEntity` | the expression entities |
| `descent.dfy` | `SimpleDescent` | the plain `StringParser` |
| `calc_descent.dfy` | `CalculatorDescent` | the calculator `StringParser` |
| `crosscheck.dfy` | `Terms` | on fully bracketed terms, both evaluators give the term's value |
| `logic_terms.dfy` | `LogicTerms` | on fully bracketed logic terms, short or verbose, both logic parsers give the term's truth value |
| `logic_texts.dfy` | `LogicTexts` | logic operations without brackets and their precedence, and the logic parsers' test texts |
| `arith_texts.dfy` | `ArithTexts` | arithmetic without brackets around the operations, read by the plain `StringParser`: `*` and `/` before `+` and `-`, left to right at each level, and the texts it refuses |
| `descent_texts.dfy` | `DescentTexts` | the plain `StringParser`'s test texts |
| `math_texts.dfy` | `MathTexts` | the same precedence through the shunting-yard conversion and the double evaluator |
| `decimal_texts.dfy` | `DecimalTexts` | decimal literals joined by operators, through the conversion and the `BigDecimal` evaluator |
| `calc_agreement.dfy` | `DescentAgreement` | on text without letters or signs, both `StringParser`s agree |

## How the model is built

Each Java loop that updates variables is a Dafny `method` with a `while`
loop. Each such method is proved equal to a specification function, and the
properties are proved about that function. Classes whose fields the source
updates are Dafny classes with `modifies` clauses.

Some modelling choices:

- **Numbers.** Java `double` values are exact `real`s. `BigDecimal` is an
  unscaled integer with a scale, following Java's rules for the result scale.
- **Library calls.** `Math.tan`, `sin`, `cos`, `pow` and `Double.toString` are
  fields of a `MathLib` parameter.
- **Exceptions.** A Java exception is an `Err` result:
  - a `ParserException` or `ParseException` carries its error type;
  - an uncaught runtime exception is `Runtime(fault)`, for example
    `charAt(0)` on empty text, or `pop` on an empty stack.

Some behaviours the model follows as the code is written:

- **Two-argument client calls.** `getClientFunctionResult` passes the first
  argument twice.
- **Double parser.** It refuses text that the operand validator accepts, so any
  text without a decimal point is INCORRECT_NUMBER_TYPE. The Int parser refuses
  the opposite texts.
- **Word at the end of the text.** In the calculator `StringParser`, a word that
  reaches the end of the text loses its last character: `2+x1` reads the
  VARIABLE `x`.
- **The name `EOE`.** A variable named `EOE` reads as the end of the text.
- **A sign before a bracket.** A `-` before `(` stays pending and applies to
  the first number inside the bracket.
- **Root entity.** The root `StringExpression`
  (`Calculator/src/main/java/com/calculator/parser/StringExpression.java:59`) defines a
  single table, `getClientFunctions()`. The root math parser calls
  `getClientFunctionsWithOneArgument()` and `getClientFunctionsWithTwoArguments()`
  (`MathStringExpressionParser.java:117-118, 197-198, 333-338`), which that class
  does not define, so the code as written does not compile against it. Reading
  the single table as the one-argument table, with an empty two-argument table
  (`RootEntity.StringExpression.Functions`), is a choice of this model, not
  behaviour of the code.
- **Short logic literals.** The full logic parser translates words to the short
  symbols `T`, `F`, `&`, `|`. Translating a short text again drops the
  literals (`T&F` becomes `&`), so the parser remembers whether values were
  bound.
- **Converter copy.** The root `MathStringExpressionParser` has its own copy of
  the converter, identical to the one in `Parsers/StringExpressionParser.java`.
  The same functions model both copies.

## Model

Source paths are relative to the repository root.

| member | source | states |
|---|---|---|
| Converter.PreparingExpressionWithUnaryOperator | Calculator/src/main/java/com/calculator/parser/Parsers/StringExpressionParser.java:97-113 | the loop builds exactly the rewrite `Unary` of its input: a leading `-` gets a `0` in front, a `-` right after an emitted `-` turns that one into `+` |
| Converter.UnaryIsMinusFree | Calculator/src/main/java/com/calculator/parser/Parsers/StringExpressionParser.java:97-113 | after the rewrite no `-` leads the text and no `--` is left |
| Converter.UnaryOfMinusFree | Calculator/src/main/java/com/calculator/parser/Parsers/StringExpressionParser.java:97-113 | text with no leading `-` and no `--` comes out of the rewrite unchanged |
| Converter.UnaryIdempotent | Calculator/src/main/java/com/calculator/parser/Parsers/StringExpressionParser.java:97-113 | rewriting twice gives the same text as rewriting once |
| Converter.Prepared | Calculator/src/main/java/com/calculator/parser/Parsers/StringExpressionParser.java:55-57 | the text the conversion scans is always minus-free, whether or not the rewrite ran |
| Converter.PopOperators | Calculator/src/main/java/com/calculator/parser/Parsers/StringExpressionParser.java:67-76 | after the pops the stack is empty or its top has a lower priority than the incoming operator |
| Converter.PopToOpening | Calculator/src/main/java/com/calculator/parser/Parsers/StringExpressionParser.java:79-83 | a `)` with no `(` below it is the empty-stack fault |
| Converter.ToReversePolish | Calculator/src/main/java/com/calculator/parser/Parsers/StringExpressionParser.java:50-90 | empty text is an index fault (`charAt(0)`); the only other failure is the empty-stack fault |
| Converter.ExpressionToReversePolishNotation | Calculator/src/main/java/com/calculator/parser/Parsers/StringExpressionParser.java:50-90 | the method with its explicit stack loops returns exactly `ToReversePolish` of its input |
| Converter.RunAppend | Calculator/src/main/java/com/calculator/parser/Parsers/StringExpressionParser.java:59-85 | scanning `a + b` is scanning `b` from the state that scanning `a` leaves |
| Converter.RunKeepsOperands | Calculator/src/main/java/com/calculator/parser/Parsers/StringExpressionParser.java:59-63 | the scan appends the operand characters of the text to the output in their order |
| Converter.ToReversePolishKeepsOperands | Calculator/src/main/java/com/calculator/parser/Parsers/StringExpressionParser.java:59-63 | the postfix text holds the operand characters of the prepared text, in the same order |
| Converter.ToReversePolishKeepsOperators | Calculator/src/main/java/com/calculator/parser/Parsers/StringExpressionParser.java:67-88 | each binary operator occurs in the postfix text exactly as often as in the prepared text |
| Converter.FlushStackKeepsHeld | Calculator/src/main/java/com/calculator/parser/Parsers/StringExpressionParser.java:86-88 | the final pops move every stacked character to the output |
| Converter.PopToOpeningOpens | Calculator/src/main/java/com/calculator/parser/Parsers/StringExpressionParser.java:79-83 | a `)` succeeds exactly when a `(` is stacked, and removes one |
| Converter.StepOpens | Calculator/src/main/java/com/calculator/parser/Parsers/StringExpressionParser.java:59-84 | one character fails exactly when it is a `)` with no `(` stacked; it changes the count of stacked `(` by +1, -1 or 0 |
| Converter.RunFailsIffUnbalanced | Calculator/src/main/java/com/calculator/parser/Parsers/StringExpressionParser.java:59-85 | the scan fails exactly when some `)` finds no earlier unmatched `(` |
| Converter.ToReversePolishFailsIffUnbalanced | Calculator/src/main/java/com/calculator/parser/Parsers/StringExpressionParser.java:50-90 | the conversion fails exactly on empty text or on prepared text with an unmatched `)` |
| Converter.StepKeepsOrdered | Calculator/src/main/java/com/calculator/parser/Parsers/StringExpressionParser.java:67-77 | above each `(` the stacked operators keep strictly increasing priority, so equal operators are output left to right |
| Converter.RunKeepsOrdered | Calculator/src/main/java/com/calculator/parser/Parsers/StringExpressionParser.java:59-85 | the whole scan keeps the stack ordered by priority |
| Converter.RunOperandChars | Calculator/src/main/java/com/calculator/parser/Parsers/StringExpressionParser.java:59-63 | priority-0 characters are copied to the output and leave the stack alone |
| Converter.SingleOperandConverts | Calculator/src/main/java/com/calculator/parser/Parsers/StringExpressionParser.java:50-90 | a single operand without `-` converts to itself |
| Converter.FunctionName | Calculator/src/main/java/com/calculator/parser/Parsers/StringExpressionParser.java:120-134 | the name is a prefix of the operand made of letters and followed by a non-letter or the end |
| Converter.FunctionNameFromOperand | Calculator/src/main/java/com/calculator/parser/Parsers/StringExpressionParser.java:120-134 | the loop returns exactly `FunctionName` |
| Converter.FunctionNameUnique | Calculator/src/main/java/com/calculator/parser/Parsers/StringExpressionParser.java:120-134 | only one letter prefix stops at a non-letter or at the end: the name |
| Converter.LetterPrefixNotLonger | Calculator/src/main/java/com/calculator/parser/Parsers/StringExpressionParser.java:120-134 | the name is the longest letter prefix |
| Converter.ArgumentRun | Calculator/src/main/java/com/calculator/parser/Parsers/StringExpressionParser.java:146-154 | the run is a slice of the operand, made of digits and commas, ended by another character or the end |
| Converter.FunctionArguments | Calculator/src/main/java/com/calculator/parser/Parsers/StringExpressionParser.java:141-156 | the operand is the name, then the arguments, then the rest |
| Converter.FunctionArgumentsFromOperand | Calculator/src/main/java/com/calculator/parser/Parsers/StringExpressionParser.java:141-156 | the loop returns exactly `FunctionArguments` |
| Converter.ArgumentRunUnique | Calculator/src/main/java/com/calculator/parser/Parsers/StringExpressionParser.java:146-154 | only one digit-and-comma run from a position stops at another character or the end |
| Converter.RunOfBracketed | Calculator/src/main/java/com/calculator/parser/Parsers/StringExpressionParser.java:59-85 | a bracketed operation whose operands convert to `a` and `b` above the `(` converts to `a b op` and leaves the stack as it found it, for every operator of priority above that of `(` |
| Converter.ArgumentRunNotLonger | Calculator/src/main/java/com/calculator/parser/Parsers/StringExpressionParser.java:146-154 | the argument run is the longest run of digits and commas |
| Postfix.Flush | Calculator/src/main/java/com/calculator/parser/Parsers/Math/MathStringExpressionParser.java:57-70 | with none pending nothing happens; otherwise it succeeds exactly when the operand resolves, pushing its value and clearing it, and fails with the resolver's error |
| Postfix.ApplyOperator | Calculator/src/main/java/com/calculator/parser/Parsers/Math/MathStringExpressionParser.java:72-91 | two pops and a push of `b op a`: the stack loses one element, the rest below stays, and fewer than two operands is the empty-stack fault |
| Postfix.ApplyTop | Calculator/src/main/java/com/calculator/parser/Parsers/Math/MathStringExpressionParser.java:72-91 | the method returns exactly `ApplyOperator` |
| Postfix.ReadOperand | Calculator/src/main/java/com/calculator/parser/Parsers/Math/MathStringExpressionParser.java:48-56 | the inner loop collects the operand up to the character that ends it, or to the last character, and its scan agrees with the one-character-at-a-time scan |
| Postfix.EvaluatePostfix | Calculator/src/main/java/com/calculator/parser/Parsers/Math/MathStringExpressionParser.java:40-95 | the evaluator loop returns exactly `Evaluate` of the postfix text |
| Postfix.RunAppend | Calculator/src/main/java/com/calculator/parser/Parsers/Math/MathStringExpressionParser.java:44-93 | scanning `a + b` is scanning `b` from the state scanning `a` leaves |
| Postfix.RunFlushFirst | Calculator/src/main/java/com/calculator/parser/Parsers/Math/MathStringExpressionParser.java:48-72 | before a character that ends an operand, pushing the pending operand first changes nothing |
| Postfix.ScannedAppend | Calculator/src/main/java/com/calculator/parser/Parsers/Math/MathStringExpressionParser.java:44-93 | the scan is compositional at every place where an operand may end |
| Postfix.ScannedOperand | Calculator/src/main/java/com/calculator/parser/Parsers/Math/MathStringExpressionParser.java:48-70 | a run of operand characters is collected and then resolved and pushed as one operand |
| Postfix.EvaluateOperand | Calculator/src/main/java/com/calculator/parser/Parsers/Math/MathStringExpressionParser.java:40-95 | a text that is one operand evaluates to that operand resolved |
| Postfix.SpaceAroundOperator | Calculator/src/main/java/com/calculator/parser/Parsers/Math/MathStringExpressionParser.java:48-72 | a space before or after an operator ends the pending operand and is otherwise ignored: both orders give the same scan |
| Postfix.ScannedOperator | Calculator/src/main/java/com/calculator/parser/Parsers/Math/MathStringExpressionParser.java:72-92 | an operator character applies itself to the top two values |
| MathParsing.MathPriority | Calculator/src/main/java/com/calculator/parser/Parsers/Math/MathStringExpressionParser.java:102-118 | priority 3 exactly for `*` `/`, 2 for `+` `-`, 1 for `(`, -1 for `)`, 0 for everything else |
| MathParsing.Arguments | Calculator/src/main/java/com/calculator/parser/Parsers/Math/MathStringExpressionParser.java:133 | every argument text is all digits, and joined with commas they give the digit-and-comma run with its trailing commas removed (`String.split`) |
| MathParsing.MathFunctionValue | Calculator/src/main/java/com/calculator/parser/Parsers/Math/MathStringExpressionParser.java:131-153 | a wrong argument count or an unknown name gives 0; the only failure is a number-format fault in a parsed argument |
| MathParsing.ClientFunctionValue | Calculator/src/main/java/com/calculator/parser/Parsers/Math/MathStringExpressionParser.java:164-179 | a wrong argument count gives 0; failures are a number-format fault or, exactly when the table lacks the name for that count, a null-function fault |
| MathParsing.OperandText | Calculator/src/main/java/com/calculator/parser/Parsers/Math/MathStringExpressionParser.java:57-68 | a letter-initial operand that names no function is VARIABLE_DETECTED_ERROR, and exactly those; other failures are runtime faults; a non-letter operand is its own text |
| MathParsing.Resolve | Calculator/src/main/java/com/calculator/parser/Parsers/Math/MathStringExpressionParser.java:57-69 | as `OperandText`, and a non-letter operand is its text parsed by `Double.parseDouble` |
| MathParsing.ResolveCall | Calculator/src/main/java/com/calculator/parser/Parsers/Math/MathStringExpressionParser.java:154-156 | a call reaches the stack rounded to two places, provided the formatted value parses back to itself |
| MathParsing.BuiltinNoArguments | Calculator/src/main/java/com/calculator/parser/Parsers/Math/MathStringExpressionParser.java:133-154 | a built-in call whose arguments are only commas splits into no arguments and evaluates to 0 |
| MathParsing.MathApply | Calculator/src/main/java/com/calculator/parser/Parsers/Math/MathStringExpressionParser.java:73-91 | the four operators with the earlier operand on the left; `/` by zero is DIVISION_BY_ZERO_ERROR, and nothing else fails |
| MathParsing.ExpressionValue | Calculator/src/main/java/com/calculator/parser/Parsers/StringExpressionParser.java:50-55 | empty text is an index fault; the values of texts are stated by `Terms.ExpressionValueOfPrint` (fully bracketed) and `MathTexts.ChainValue` (precedence) |
| MathParsing.ExpressionResult | Calculator/src/main/java/com/calculator/parser/Parsers/Math/MathStringExpressionParser.java:40-95 | conversion then evaluation, as a method, gives exactly `ExpressionValue` |
| MathParsing.ValidateOperandTypeInExpression | Calculator/src/main/java/com/calculator/parser/Parsers/Math/MathStringExpressionParser.java:186-212 | the loop returns exactly `OperandTypesValid` |
| MathParsing.CollectedNonEmpty | Calculator/src/main/java/com/calculator/parser/Parsers/Math/MathStringExpressionParser.java:191-209 | the validator holds an operand exactly when a digit was read since the last operator or bracket |
| MathParsing.CollectedHasPoint | Calculator/src/main/java/com/calculator/parser/Parsers/Math/MathStringExpressionParser.java:191-209 | the operand holds a `.` exactly when a digit and then a point were read since the last operator or bracket |
| MathParsing.OperandTypesValidIff | Calculator/src/main/java/com/calculator/parser/Parsers/Math/MathStringExpressionParser.java:186-212 | the validator fails exactly when a digit, then a point, then an operator or bracket occur with no operator or bracket between them |
| MathParsing.TrailingDecimalUnchecked | Calculator/src/main/java/com/calculator/parser/Parsers/Math/MathStringExpressionParser.java:191-210 | a decimal as the last operand is never checked: `2+1.5` passes, `(2.5+3)*x1` does not |
| Binding.Substitute | Calculator/src/main/java/com/calculator/parser/parsers/math/IntMathStringExpressionParser.java:50-70 | an identifier ends: a function name keeps the queue; otherwise the front value is used if any; a failure comes only from formatting that value |
| Binding.SetVariablesValue | Calculator/src/main/java/com/calculator/parser/parsers/math/IntMathStringExpressionParser.java:40-81 | the binding loop returns exactly `Bound`: the bound text, or the error raised |
| Binding.StepUsesValues | Calculator/src/main/java/com/calculator/parser/parsers/math/IntMathStringExpressionParser.java:46-76 | one character uses the front value exactly when it ends an identifier that is not a function name |
| Binding.BindFromUsesValues | Calculator/src/main/java/com/calculator/parser/parsers/math/IntMathStringExpressionParser.java:46-76 | values are used from the front, one per identifier that is no function name, until either runs out |
| Binding.BindQuantity | Calculator/src/main/java/com/calculator/parser/parsers/math/IntMathStringExpressionParser.java:77-79 | with every value accepted, binding fails exactly when there are more values than identifiers, with INCORRECT_VARIABLES_QUANTITY_ERROR |
| Binding.BindFromErrors | Calculator/src/main/java/com/calculator/parser/parsers/math/BigDecimalMathStringExpressionParser.java:110-116 | any other failure is the format refusing a queued value |
| Binding.BindNoLetters | Calculator/src/main/java/com/calculator/parser/parsers/math/IntMathStringExpressionParser.java:40-81 | text without letters is kept as it is with no values; any value is one too many |
| RootMathParser.IntegerText | Calculator/src/main/java/com/calculator/parser/MathStringExpressionParser.java:202 | `Integer.toString` never fails |
| RootMathParser.IntegerTextParses | Calculator/src/main/java/com/calculator/parser/MathStringExpressionParser.java:202 | the text written for an integer parses back to it |
| RootMathParser.ParserResult | Calculator/src/main/java/com/calculator/parser/MathStringExpressionParser.java:36-42 | empty text is NO_EXPRESSION_ERROR |
| RootMathParser.BindingQuantity | Calculator/src/main/java/com/calculator/parser/MathStringExpressionParser.java:180-221 | integer binding fails exactly when values are left over, with INCORRECT_VARIABLES_QUANTITY_ERROR |
| RootMathParser.MathStringExpressionParser.constructor | Calculator/src/main/java/com/calculator/parser/MathStringExpressionParser.java:28-30 | the parser keeps the entity it is given |
| RootMathParser.MathStringExpressionParser.GetExpressionResult | Calculator/src/main/java/com/calculator/parser/MathStringExpressionParser.java:36-42 | returns exactly `ParserResult` of the stored text and function table |
| RootMathParser.MathStringExpressionParser.SetVariablesValue | Calculator/src/main/java/com/calculator/parser/MathStringExpressionParser.java:180-221 | stores the whitespace-free bound text, or leaves the text alone and fails with the binding error; the function table is unchanged |
| IntMathParser.IntResult | Calculator/src/main/java/com/calculator/parser/parsers/math/IntMathStringExpressionParser.java:28-37 | empty text is NO_EXPRESSION_ERROR, then a failed operand check is INCORRECT_NUMBER_TYPE; a value is the evaluator's text, parsed back, rounded to the nearest int and within the int range |
| IntMathParser.DecimalOperandRejected | Calculator/src/main/java/com/calculator/parser/parsers/math/IntMathStringExpressionParser.java:32-34 | a decimal operand ended by an operator or bracket makes the parser refuse the text with INCORRECT_NUMBER_TYPE |
| IntMathParser.IntMathStringExpressionParser.GetExpressionResult | Calculator/src/main/java/com/calculator/parser/parsers/math/IntMathStringExpressionParser.java:28-37 | returns exactly `IntResult` |
| IntMathParser.IntMathStringExpressionParser.SetVariablesValue | Calculator/src/main/java/com/calculator/parser/parsers/math/IntMathStringExpressionParser.java:40-81 | stores the whitespace-free bound text, or leaves the text alone and fails with the binding error |
| DoubleMathParser.DoubleResult | Calculator/src/main/java/com/calculator/parser/parsers/math/DoubleMathStringExpressionParser.java:25-34 | empty text is NO_EXPRESSION_ERROR; a text the operand check accepts is INCORRECT_NUMBER_TYPE (the check is inverted) |
| DoubleMathParser.ReadBack | Calculator/src/main/java/com/calculator/parser/parsers/math/DoubleMathStringExpressionParser.java:33 | the evaluator's text, parsed back and rounded to two places; a text that does not parse is a number-format fault |
| DoubleMathParser.NoDecimalRejected | Calculator/src/main/java/com/calculator/parser/parsers/math/DoubleMathStringExpressionParser.java:29-31 | any text without a decimal point is refused with INCORRECT_NUMBER_TYPE |
| DoubleMathParser.BindingQuantity | Calculator/src/main/java/com/calculator/parser/parsers/math/DoubleMathStringExpressionParser.java:37-78 | binding fails exactly when values are left over |
| DoubleMathParser.DoubleMathStringExpressionParser.GetExpressionResult | Calculator/src/main/java/com/calculator/parser/parsers/math/DoubleMathStringExpressionParser.java:25-34 | returns exactly `DoubleResult` |
| DoubleMathParser.DoubleMathStringExpressionParser.SetVariablesValue | Calculator/src/main/java/com/calculator/parser/parsers/math/DoubleMathStringExpressionParser.java:37-78 | stores the whitespace-free bound text, or leaves the text alone and fails with the binding error |
| DecimalMathParser.DecimalInspect | Calculator/src/main/java/com/calculator/parser/parsers/math/BigDecimalMathStringExpressionParser.java:68 | `new BigDecimal(a)` on the popped right operand: passes exactly when the text is a decimal literal |
| DecimalMathParser.DecimalApply | Calculator/src/main/java/com/calculator/parser/parsers/math/BigDecimalMathStringExpressionParser.java:67-83 | both operands parsed (a number-format fault otherwise); exact `add`, `subtract`, `multiply` of `b` and `a`; `/` by a zero value is DIVISION_BY_ZERO_ERROR, else it succeeds exactly when the exact quotient exists and fails with the non-terminating-quotient fault otherwise |
| DecimalMathParser.DecimalResult | Calculator/src/main/java/com/calculator/parser/parsers/math/BigDecimalMathStringExpressionParser.java:27-33 | empty text is NO_EXPRESSION_ERROR; a conversion failure is passed on unchanged |
| DecimalMathParser.SingleOperandUnchanged | Calculator/src/main/java/com/calculator/parser/parsers/math/BigDecimalMathStringExpressionParser.java:41-66 | a single number comes back as written, neither parsed nor normalised |
| DecimalMathParser.ValidateVariableValue | Calculator/src/main/java/com/calculator/parser/parsers/math/BigDecimalMathStringExpressionParser.java:142-154 | the loop returns exactly `DecimalCharacters`: digits and points only |
| DecimalMathParser.ValueText | Calculator/src/main/java/com/calculator/parser/parsers/math/BigDecimalMathStringExpressionParser.java:110-116 | a value is written as itself exactly when it has only digits and points; otherwise INCORRECT_VARIABLE_VALUE_TYPE |
| DecimalMathParser.BindingErrors | Calculator/src/main/java/com/calculator/parser/parsers/math/BigDecimalMathStringExpressionParser.java:89-135 | binding fails only with INCORRECT_VARIABLES_QUANTITY_ERROR or, for a value with another character, INCORRECT_VARIABLE_VALUE_TYPE |
| DecimalMathParser.BindingQuantity | Calculator/src/main/java/com/calculator/parser/parsers/math/BigDecimalMathStringExpressionParser.java:131-133 | with well-formed values, binding fails exactly when values are left over |
| DecimalMathParser.BigDecimalMathStringExpressionParser.GetExpressionResult | Calculator/src/main/java/com/calculator/parser/parsers/math/BigDecimalMathStringExpressionParser.java:27-33 | returns exactly `DecimalResult` |
| DecimalMathParser.BigDecimalMathStringExpressionParser.SetVariablesValue | Calculator/src/main/java/com/calculator/parser/parsers/math/BigDecimalMathStringExpressionParser.java:89-135 | stores the whitespace-free bound text, or leaves the text alone and fails with the binding error |
| DecimalTexts.PairConverts | Calculator/src/main/java/com/calculator/parser/Parsers/StringExpressionParser.java:50-90 | two decimal literals and one operator convert to "a b" followed by the operator |
| DecimalTexts.LeftChainConverts | Calculator/src/main/java/com/calculator/parser/Parsers/StringExpressionParser.java:67-76 | with the first operator of at least the second one's priority, it is output right after the second operand |
| DecimalTexts.RightChainConverts | Calculator/src/main/java/com/calculator/parser/Parsers/StringExpressionParser.java:67-76 | with the second operator of higher priority, both operators are output after the third operand, second one first |
| DecimalTexts.PairResult | Calculator/src/main/java/com/calculator/parser/parsers/math/BigDecimalMathStringExpressionParser.java:27-83 | `a op b` is the operator applied to the two operand texts, error cases included; for two literals it is `toString` of the exact operation |
| DecimalTexts.LeftChainResult | Calculator/src/main/java/com/calculator/parser/parsers/math/BigDecimalMathStringExpressionParser.java:67-83 | `a o1 b o2 c` with `o1` binding at least as tightly applies `o1` first and `o2` to the text it left |
| DecimalTexts.RightChainResult | Calculator/src/main/java/com/calculator/parser/parsers/math/BigDecimalMathStringExpressionParser.java:67-83 | `a o1 b o2 c` with `o2` binding tighter applies `o2` to `b` and `c` first |
| DecimalTexts.ApplyToWritten | Calculator/src/main/java/com/calculator/parser/parsers/math/BigDecimalMathStringExpressionParser.java:68-69 | an operation on a text `toString` wrote works on the exact value the text came from |
| DecimalTexts.LeftChainExact | Calculator/src/main/java/com/calculator/parser/parsers/math/BigDecimalMathStringExpressionParser.java:67-83 | with literal operands, `(a o1 b) o2 c` is computed exactly and only the final value is written |
| DecimalTexts.RightChainExact | Calculator/src/main/java/com/calculator/parser/parsers/math/BigDecimalMathStringExpressionParser.java:67-83 | with literal operands, `a o1 (b o2 c)` is computed exactly and only the final value is written |
| DecimalTexts.ZeroParses | Calculator/src/main/java/com/calculator/parser/parsers/math/BigDecimalMathStringExpressionParser.java:77 | "0" reads as zero |
| DecimalTexts.DivisionByZeroText | Calculator/src/test/java/com/calculator/parser/math/BigDecimalMathStringExpressionParserTest.java:89-100 | any literal divided by "0" is DIVISION_BY_ZERO_ERROR |
| Numbers.ParseDouble | Calculator/src/main/java/com/calculator/parser/Parsers/Math/MathStringExpressionParser.java:69 | `Double.parseDouble` succeeds exactly on a decimal literal; any failure is NumberFormatException |
| Numbers.ParseDoubleOfIntToString | Calculator/src/main/java/com/calculator/parser/MathStringExpressionParser.java:202 | every integer written by `Integer.toString` parses back to itself |
| Numbers.Round2 | Calculator/src/main/java/com/calculator/parser/Parsers/Math/MathStringExpressionParser.java:154 | `Math.round(x * 100) / 100`: within half a hundredth of `x`, and a whole number of hundredths |
| Numbers.Round2Idempotent | Calculator/src/main/java/com/calculator/parser/MathStringExpressionParser.java:41 | rounding twice is rounding once |
| Numbers.RoundToInt | Calculator/src/main/java/com/calculator/parser/parsers/math/IntMathStringExpressionParser.java:36 | `Math.toIntExact(Math.round(x))`: the nearest int, or an overflow fault exactly when it is out of range |
| Numbers.ParseBigDecimal | Calculator/src/main/java/com/calculator/parser/parsers/math/BigDecimalMathStringExpressionParser.java:68-69 | `new BigDecimal(String)` succeeds exactly on a decimal literal without a type suffix |
| Numbers.DecimalAddExact | Calculator/src/main/java/com/calculator/parser/parsers/math/BigDecimalMathStringExpressionParser.java:71 | `BigDecimal.add` is exact at every common scale |
| Numbers.DecimalSubtractExact | Calculator/src/main/java/com/calculator/parser/parsers/math/BigDecimalMathStringExpressionParser.java:73 | `BigDecimal.subtract` is exact at every common scale |
| Numbers.DecimalMultiplyExact | Calculator/src/main/java/com/calculator/parser/parsers/math/BigDecimalMathStringExpressionParser.java:75 | `BigDecimal.multiply` is exact, at the sum of the scales |
| Numbers.DecimalDivide | Calculator/src/main/java/com/calculator/parser/parsers/math/BigDecimalMathStringExpressionParser.java:80 | `BigDecimal.divide`: the exact quotient at the least scale no smaller than the preferred one; a quotient with no terminating expansion is an arithmetic fault |
| Numbers.DecimalToStringParses | Calculator/src/main/java/com/calculator/parser/parsers/math/BigDecimalMathStringExpressionParser.java:68-80 | `new BigDecimal(b.toString())` gives back `b`, so a result pushed as text loses nothing when the next operation reads it |
| Text.StripWhitespace | Calculator/src/main/java/com/calculator/parser/entities/StringExpression.java:18 | `replaceAll("\\s+", "")`: no whitespace left, never longer |
| Text.StripWhitespaceIdempotent | Calculator/src/main/java/com/calculator/parser/entities/StringExpression.java:25-27 | stripping twice is stripping once |
| Text.StripWhitespaceKeepsOthers | Calculator/src/main/java/com/calculator/parser/entities/StringExpression.java:18 | every other character survives, as often as it occurred |
| Text.Split | Calculator/src/main/java/com/calculator/parser/Parsers/Math/MathStringExpressionParser.java:133 | `String.split` with its trailing empty pieces dropped: no piece holds the separator, each piece is made of the text's characters, text without the separator is one piece, and joining the pieces gives the text without its trailing separators |
| Text.SplitAllJoin | Calculator/src/main/java/com/calculator/parser/Parsers/Math/MathStringExpressionParser.java:133 | joining the pieces of a split with the separator gives the text back |
| Text.ReplaceFirstAt | Calculator/src/main/java/com/calculator/parser/StringParser.java:398 | `replaceFirst` replaces exactly the first occurrence |
| Text.ReplaceAllAt | Calculator/src/main/java/com/calculator/parser/StringParser.java:300 | `replace` keeps the text before the first occurrence, writes the replacement there and goes on after it |
| LogicParsing.LogicPriority | Calculator/src/main/java/com/calculator/parser/parsers/logic/ShortLogicStringExpressionParser.java:87-103 | priority 3 exactly for `&`, 2 for `|`, 1 for `(`, -1 for `)`, 0 otherwise |
| LogicParsing.LogicResolve | Calculator/src/main/java/com/calculator/parser/parsers/logic/ShortLogicStringExpressionParser.java:59-70 | text holding "true" or "false" is `Boolean.parseBoolean`; otherwise a `t` means true and an `f` false; without either it is VARIABLE_DETECTED_ERROR, and exactly then |
| LogicParsing.LogicApply | Calculator/src/main/java/com/calculator/parser/parsers/logic/ShortLogicStringExpressionParser.java:73-81 | `&` gives `b && a`, `|` gives `b || a` |
| LogicParsing.ValidateOperandTypeInExpression | Calculator/src/main/java/com/calculator/parser/parsers/logic/ShortLogicStringExpressionParser.java:165-192 | the loop returns exactly `LogicOperandsValid` |
| LogicParsing.CollectedTruth | Calculator/src/main/java/com/calculator/parser/parsers/logic/ShortLogicStringExpressionParser.java:170-190 | the collected operand holds a truth letter exactly when one occurs after the last operator; brackets neither join nor reset it |
| LogicParsing.LogicOperandsValidIff | Calculator/src/main/java/com/calculator/parser/parsers/logic/ShortLogicStringExpressionParser.java:165-192 | the validator accepts exactly when each `&` and `|` has a truth letter after the operator before it |
| LogicParsing.LogicBindFromUsesValues | Calculator/src/main/java/com/calculator/parser/parsers/logic/ShortLogicStringExpressionParser.java:116-157 | values are used from the front, one per identifier that is no literal |
| LogicParsing.LogicBindQuantity | Calculator/src/main/java/com/calculator/parser/parsers/logic/ShortLogicStringExpressionParser.java:158-160 | binding fails exactly when values are left over, with INCORRECT_VARIABLES_QUANTITY_ERROR |
| LogicParsing.ShortResult | Calculator/src/main/java/com/calculator/parser/parsers/logic/ShortLogicStringExpressionParser.java:29-39 | empty text is NO_EXPRESSION_ERROR, a failed operand check INCORRECT_LOGIC_TYPE; a value needs a valid, convertible text; the values themselves are stated by `LogicTerms.ShortResultOfPrint` and `LogicTexts.ChainShortResult` |
| LogicParsing.ShortLogicStringExpressionParser.GetExpressionResult | Calculator/src/main/java/com/calculator/parser/parsers/logic/ShortLogicStringExpressionParser.java:29-39 | returns exactly `ShortResult` |
| LogicParsing.ShortLogicStringExpressionParser.SetVariablesValue | Calculator/src/main/java/com/calculator/parser/parsers/logic/ShortLogicStringExpressionParser.java:109-162 | stores the whitespace-free bound text, or leaves the text alone and fails |
| FullLogicParser.Word | Calculator/src/main/java/com/calculator/parser/parsers/logic/FullLogicStringExpressionParser.java:70-85 | the short symbol, by the tests in order: `T` exactly when the lexeme holds "true", `F` exactly when it holds "false" but not "true", `&` exactly when it holds "and" but neither truth word, `|` exactly when it holds "or" and none of the other three, empty exactly when it holds none of the four |
| FullLogicParser.TranslateStep | Calculator/src/main/java/com/calculator/parser/parsers/logic/FullLogicStringExpressionParser.java:66-94 | one character only appends to the output: nothing, one of `T` `F` `&` `|`, an operator or bracket itself, or a digit after the letters before it; a letter joins the lexeme, whitespace or another character that is no operator, digit or letter changes nothing; output plus lexeme grow by at most one and the output stays free of whitespace |
| FullLogicParser.TranslateIgnoresWhitespace | Calculator/src/main/java/com/calculator/parser/parsers/logic/FullLogicStringExpressionParser.java:65-95 | from a state with no pending word, translating the text with its whitespace removed gives the same state as translating the text |
| FullLogicParser.TranslateStripped | Calculator/src/main/java/com/calculator/parser/parsers/logic/FullLogicStringExpressionParser.java:60-98 | the short form of a text is the short form of the text without whitespace, so the entity's stripping loses nothing |
| FullLogicParser.TranslateOverAppend | Calculator/src/main/java/com/calculator/parser/parsers/logic/FullLogicStringExpressionParser.java:65-95 | translating `a + b` is translating `b` after `a` |
| FullLogicParser.Translate | Calculator/src/main/java/com/calculator/parser/parsers/logic/FullLogicStringExpressionParser.java:60-98 | the short form is never longer than the text and has no whitespace; what verbose terms translate to is stated by `LogicTerms.TranslateOfVerbose` |
| FullLogicParser.TranslateNoLetters | Calculator/src/main/java/com/calculator/parser/parsers/logic/FullLogicStringExpressionParser.java:86-94 | text without letters keeps exactly its operators, brackets and digits, in order |
| FullLogicParser.ShortLiteralsDropped | Calculator/src/main/java/com/calculator/parser/parsers/logic/FullLogicStringExpressionParser.java:60-98 | `T&F` translates to `&`: a short text does not survive a second translation |
| FullLogicParser.TranslateSymbol | Calculator/src/main/java/com/calculator/parser/parsers/logic/FullLogicStringExpressionParser.java:66-94 | the loop body performs exactly `TranslateStep` |
| FullLogicParser.ConvertExpressionWithFullOperatorsAndOperandsToShort | Calculator/src/main/java/com/calculator/parser/parsers/logic/FullLogicStringExpressionParser.java:60-98 | the loop returns exactly `Translate` |
| FullLogicParser.FullResult | Calculator/src/main/java/com/calculator/parser/parsers/logic/FullLogicStringExpressionParser.java:29-43 | empty text is NO_EXPRESSION_ERROR; the values of verbose texts are stated by `LogicTerms.FullResultOfVerbose` and `LogicTexts.FullResultOfVerboseChain` |
| FullLogicParser.SettledAsShort | Calculator/src/main/java/com/calculator/parser/parsers/logic/FullLogicStringExpressionParser.java:34-36 | once values are bound, the parser answers as the short one on any text the short one accepts |
| FullLogicParser.UnsettledTranslates | Calculator/src/main/java/com/calculator/parser/parsers/logic/FullLogicStringExpressionParser.java:37-39 | before that, it answers for the translated text |
| FullLogicParser.FullLogicStringExpressionParser.constructor | Calculator/src/main/java/com/calculator/parser/parsers/logic/FullLogicStringExpressionParser.java:21-23 | a fresh parser has not bound values |
| FullLogicParser.FullLogicStringExpressionParser.GetExpressionResult | Calculator/src/main/java/com/calculator/parser/parsers/logic/FullLogicStringExpressionParser.java:29-43 | returns exactly `FullResult` of the text and the flag |
| FullLogicParser.FullLogicStringExpressionParser.SetVariablesValue | Calculator/src/main/java/com/calculator/parser/parsers/logic/FullLogicStringExpressionParser.java:49-53 | stores the translation, binds into it and raises the flag; on a binding error the translation stays stored and the flag is unchanged |
| LogicTerms.ToReversePolishOfPrint | Calculator/src/main/java/com/calculator/parser/Parsers/StringExpressionParser.java:50-90 | every fully bracketed short logic term converts to its postfix form, operands before their operator |
| LogicTerms.LogicValueOfPrint | Calculator/src/main/java/com/calculator/parser/parsers/logic/ShortLogicStringExpressionParser.java:29-39 | every fully bracketed short logic term evaluates to its truth value: `&` is and, `|` is or, `T`/`t` true and `F`/`f` false |
| LogicTerms.ValidOfPrint | Calculator/src/main/java/com/calculator/parser/parsers/logic/ShortLogicStringExpressionParser.java:165-192 | every fully bracketed short logic term passes the operand-type check |
| LogicTerms.ShortResultOfPrint | Calculator/src/main/java/com/calculator/parser/parsers/logic/ShortLogicStringExpressionParser.java:29-39 | the short parser returns the truth value of every fully bracketed short logic term |
| LogicTerms.TranslateOfVerbose | Calculator/src/main/java/com/calculator/parser/parsers/logic/FullLogicStringExpressionParser.java:60-98 | every fully bracketed verbose term ("True", "and", "or", "false" in any case, spaces around the connectives) translates to the short term with upper-case letters, before or after whitespace is stripped |
| LogicTerms.FullResultOfVerbose | Calculator/src/main/java/com/calculator/parser/parsers/logic/FullLogicStringExpressionParser.java:29-43 | the full parser returns the truth value of every fully bracketed verbose term |
| LogicTexts.PairConverts | Calculator/src/main/java/com/calculator/parser/Parsers/StringExpressionParser.java:50-90 | two short terms joined by one operator, without brackets, convert to both operands followed by the operator |
| LogicTexts.LeftChainConverts | Calculator/src/main/java/com/calculator/parser/Parsers/StringExpressionParser.java:67-88 | in `x c1 y c2 z` with the first operator binding at least as tightly, the first operation is output before the second: left to right, `&` before `|` |
| LogicTexts.RightChainConverts | Calculator/src/main/java/com/calculator/parser/Parsers/StringExpressionParser.java:67-88 | in `x | y & z` the `&` is output first: `&` binds tighter than `|` |
| LogicTexts.PairValue | Calculator/src/main/java/com/calculator/parser/parsers/logic/ShortLogicStringExpressionParser.java:29-39 | two short terms joined by one operator evaluate to the operator applied to their values |
| LogicTexts.ChainValue | Calculator/src/main/java/com/calculator/parser/parsers/logic/ShortLogicStringExpressionParser.java:29-39 | three short terms joined by two operators evaluate as grouped by precedence: left to right, with `&` before `|` |
| LogicTexts.PairShortResult | Calculator/src/main/java/com/calculator/parser/parsers/logic/ShortLogicStringExpressionParser.java:29-39 | the short parser returns that value for two joined terms |
| LogicTexts.ChainShortResult | Calculator/src/main/java/com/calculator/parser/parsers/logic/ShortLogicStringExpressionParser.java:29-39 | the short parser returns the precedence-grouped value for three joined terms |
| LogicTexts.FullResultOfVerbosePair | Calculator/src/main/java/com/calculator/parser/parsers/logic/FullLogicStringExpressionParser.java:29-43 | the full parser returns the value of two verbose terms joined by "and" or "or" |
| LogicTexts.FullResultOfVerboseChain | Calculator/src/main/java/com/calculator/parser/parsers/logic/FullLogicStringExpressionParser.java:29-43 | the full parser returns the precedence-grouped value of three verbose terms joined by connectives |
| LogicTexts.ShortParserConjunctions | Calculator/src/test/java/com/calculator/parser/logic/ShortLogicStringExpressionParserTest.java:17-24 | "T&T&f" is false |
| LogicTexts.ShortParserDisjunctions | Calculator/src/test/java/com/calculator/parser/logic/ShortLogicStringExpressionParserTest.java:26-34 | "t|f|f" is true |
| LogicTexts.ShortParserBrackets | Calculator/src/test/java/com/calculator/parser/logic/ShortLogicStringExpressionParserTest.java:36-44 | "T&(t|f)" is true |
| LogicTexts.ShortParserBinding | Calculator/src/test/java/com/calculator/parser/logic/ShortLogicStringExpressionParserTest.java:46-55 | binding `true` into "T&f|x1" gives "T&f|T" |
| LogicTexts.ShortParserBoundText | Calculator/src/test/java/com/calculator/parser/logic/ShortLogicStringExpressionParserTest.java:46-55 | "T&f|T" has no whitespace and is true |
| LogicTexts.ShortParserUntypedText | Calculator/src/test/java/com/calculator/parser/logic/ShortLogicStringExpressionParserTest.java:72-83 | "v | l" is refused with INCORRECT_LOGIC_TYPE |
| LogicTexts.FullParserConjunction | Calculator/src/test/java/com/calculator/parser/logic/FullLogicStringExpressionParserTest.java:17-24 | "True and false" is false |
| LogicTexts.FullParserDisjunctions | Calculator/src/test/java/com/calculator/parser/logic/FullLogicStringExpressionParserTest.java:26-34 | "true or false or false" is true |
| LogicTexts.FullParserBrackets | Calculator/src/test/java/com/calculator/parser/logic/FullLogicStringExpressionParserTest.java:36-44 | "True and (true or false)" is true |
| LogicTexts.FullParserTranslation | Calculator/src/test/java/com/calculator/parser/logic/FullLogicStringExpressionParserTest.java:46-55 | "x1 and x2 or true" translates to "x1&x2|T" |
| LogicTexts.FullParserBinding | Calculator/src/test/java/com/calculator/parser/logic/FullLogicStringExpressionParserTest.java:46-55 | binding `false, true` into "x1&x2|T" gives "F&T|T" |
| LogicTexts.FullParserBoundText | Calculator/src/test/java/com/calculator/parser/logic/FullLogicStringExpressionParserTest.java:46-55 | "F&T|T" has no whitespace and, once values are bound, is true |
| MathEntity.StringExpression.constructor | Calculator/src/main/java/com/calculator/parser/Entities/StringExpression.java:31-35 | the stored text is the given one without whitespace; both function tables are empty |
| MathEntity.StringExpression.SetExpression | Calculator/src/main/java/com/calculator/parser/Entities/StringExpression.java:41-43 | the stored text is the new one without whitespace; the tables are unchanged |
| MathEntity.StringExpression.GetExpression | Calculator/src/main/java/com/calculator/parser/Entities/StringExpression.java:49-51 | the text has no whitespace and stripping leaves it unchanged |
| MathEntity.StringExpression.SetClientFunctionWithOneArgument | Calculator/src/main/java/com/calculator/parser/Entities/StringExpression.java:58-60 | the one-argument table maps the name to the function; nothing else changes |
| MathEntity.StringExpression.SetClientFunctionWithTwoArgument | Calculator/src/main/java/com/calculator/parser/Entities/StringExpression.java:75-77 | the two-argument table maps the name to the function; nothing else changes |
| Entities.StringExpression.constructor | Calculator/src/main/java/com/calculator/parser/entities/StringExpression.java:17-19 | the stored text is the given one without whitespace |
| Entities.StringExpression.SetExpression | Calculator/src/main/java/com/calculator/parser/entities/StringExpression.java:25-27 | the stored text is the new one without whitespace |
| Entities.StringExpression.GetExpression | Calculator/src/main/java/com/calculator/parser/entities/StringExpression.java:33-35 | the text has no whitespace |
| Entities.MathStringExpression.constructor | Calculator/src/main/java/com/calculator/parser/entities/MathStringExpression.java:27-31 | a fresh base text without whitespace, and empty tables |
| Entities.MathStringExpression.SetClientFunctionWithOneArgument | Calculator/src/main/java/com/calculator/parser/entities/MathStringExpression.java:38-40 | the one-argument table maps the name to the function; the other is unchanged |
| Entities.MathStringExpression.SetClientFunctionWithTwoArgument | Calculator/src/main/java/com/calculator/parser/entities/MathStringExpression.java:55-57 | the two-argument table maps the name to the function; the other is unchanged |
| RootEntity.StringExpression.constructor | Calculator/src/main/java/com/calculator/parser/StringExpression.java:25-28 | the stored text is the given one without whitespace; the table is empty |
| RootEntity.StringExpression.SetExpression | Calculator/src/main/java/com/calculator/parser/StringExpression.java:34-36 | the stored text is the new one without whitespace; the table is unchanged |
| RootEntity.StringExpression.GetExpression | Calculator/src/main/java/com/calculator/parser/StringExpression.java:42-44 | the text has no whitespace |
| RootEntity.StringExpression.SetClientFunction | Calculator/src/main/java/com/calculator/parser/StringExpression.java:51-53 | the table maps the name to the function; the text is unchanged |
| RootEntity.StringExpression.Functions | Calculator/src/main/java/com/calculator/parser/MathStringExpressionParser.java:117-118 | the parser sees the one table as its one-argument table and no two-argument functions |
| SimpleDescent.DelimiterFrom | src/main/java/com/calculator/parser/StringParser.java:213-218 | the first delimiter from a position, or the end |
| SimpleDescent.DelimiterFromSkips | src/main/java/com/calculator/parser/StringParser.java:213-218 | no delimiter stands before the position found |
| SimpleDescent.Lex | src/main/java/com/calculator/parser/StringParser.java:200-224 | a delimiter is a one-character lexeme, a digit starts a NUMBER running to the next delimiter, anything else (or the end) is EOE without moving |
| SimpleDescent.LexText | src/main/java/com/calculator/parser/StringParser.java:207-220 | a lexeme other than EOE is exactly the text it was read from |
| SimpleDescent.Head | src/main/java/com/calculator/parser/StringParser.java:89 | `charAt(0)`: an empty lexeme is an index fault |
| SimpleDescent.Sum | src/main/java/com/calculator/parser/StringParser.java:84-102 | a result cursor is a lexer cursor with no more left to read than before; the values are stated by `ArithTexts.SumFrom` |
| SimpleDescent.Factor | src/main/java/com/calculator/parser/StringParser.java:139-153 | a result cursor is a lexer cursor with no more left to read than before |
| SimpleDescent.NumberValue | src/main/java/com/calculator/parser/StringParser.java:161-174 | succeeds exactly on a NUMBER lexeme that parses, with its value and the next lexeme; otherwise SYNTAX_ERROR |
| SimpleDescent.DescentResultStripped | src/main/java/com/calculator/parser/StringParser.java:64-76 | on text without whitespace: EOE first is NO_EXPRESSION_ERROR, a lexeme left after the sum is SYNTAX_ERROR, else the sum |
| SimpleDescent.StringParser.constructor | src/main/java/com/calculator/parser/StringParser.java:54-56 | the text as given, read from position 0 |
| SimpleDescent.StringParser.GetLexeme | src/main/java/com/calculator/parser/StringParser.java:200-224 | the fields become exactly `Lex` at the current position |
| SimpleDescent.StringParser.AddOrSubtractTwoTerms | src/main/java/com/calculator/parser/StringParser.java:84-102 | returns `Sum` from the current cursor and leaves the parser at its cursor |
| SimpleDescent.StringParser.MultiplyOrDivideTwoFactors | src/main/java/com/calculator/parser/StringParser.java:110-131 | returns `Product` from the current cursor and leaves the parser at its cursor |
| SimpleDescent.StringParser.EvaluateInsideBrackets | src/main/java/com/calculator/parser/StringParser.java:139-153 | returns `Factor` from the current cursor and leaves the parser at its cursor |
| SimpleDescent.StringParser.GetNumberValue | src/main/java/com/calculator/parser/StringParser.java:161-174 | returns `NumberValue` from the current cursor and leaves the parser at its cursor |
| SimpleDescent.StringParser.GetExpressionResult | src/main/java/com/calculator/parser/StringParser.java:64-76 | returns `DescentResult` and stores the text without whitespace; on success the parser stands where `Sum` ends, at the end-of-expression lexeme |
| Terms.Combine | src/main/java/com/calculator/parser/StringParser.java:92-128 | the left error first, then the right one, then a zero divisor; otherwise the operation |
| Terms.FactorOfPrint | src/main/java/com/calculator/parser/StringParser.java:139-153 | a fully bracketed term read from its first lexeme is the term's value, and the reader stops after it |
| Terms.DescentOfPrint | src/main/java/com/calculator/parser/StringParser.java:64-76 | a fresh parser evaluates a printed term to the term's value or error |
| Terms.ToReversePolishOfPrint | Calculator/src/main/java/com/calculator/parser/Parsers/StringExpressionParser.java:50-90 | the conversion writes a printed term in postfix, a space before each right operand |
| Terms.ScannedOfPost | Calculator/src/main/java/com/calculator/parser/Parsers/Math/MathStringExpressionParser.java:40-95 | the postfix scan of a term pushes its value or stops at its first error |
| Terms.ExpressionValueOfPrint | Calculator/src/main/java/com/calculator/parser/Parsers/Math/MathStringExpressionParser.java:40-95 | conversion plus postfix evaluation gives a printed term its value or error |
| Terms.EvaluatorsAgree | src/main/java/com/calculator/parser/StringParser.java:64-76 | the recursive-descent and the postfix evaluators agree on every printed term |
| ArithTexts.ProductRestFrom | src/main/java/com/calculator/parser/StringParser.java:115-129 | the loop of `multiplyOrDivideTwoFactors` over "op operand op operand ..." combines the operands into the value so far from left to right, a zero divisor included, and stops after the last operand |
| ArithTexts.ProductFrom | src/main/java/com/calculator/parser/StringParser.java:110-131 | a product of operands joined by `*` and `/`, read from its first lexeme, is the value of its left-to-right grouping, and the reader stops right after it |
| ArithTexts.SumRestFrom | src/main/java/com/calculator/parser/StringParser.java:89-100 | the loop of `addOrSubtractTwoTerms` over "op product op product ..." combines the products from left to right up to the end of the text |
| ArithTexts.SumFrom | src/main/java/com/calculator/parser/StringParser.java:84-102 | a sum of products joined by `+` and `-` is the value of its grouping: each product first, then the products from left to right |
| ArithTexts.SumOfText | src/main/java/com/calculator/parser/StringParser.java:84-102 | the same for a whole unbracketed text, the reader left at the end of the text |
| ArithTexts.DescentOfSumText | src/main/java/com/calculator/parser/StringParser.java:64-76 | a fresh parser gives any text of operands joined by the four operators, without brackets around the operations, the value (or first error) of the term grouped `*` `/` before `+` `-` and left to right at each level |
| ArithTexts.PairValue | src/main/java/com/calculator/parser/StringParser.java:64-76 | two operands joined by one operator evaluate to that operation's value or error |
| ArithTexts.ChainValue | src/main/java/com/calculator/parser/StringParser.java:64-76 | three operands joined by two operators evaluate as grouped: the second operation first exactly when it is `*` or `/` after a `+` or `-`, otherwise the first |
| ArithTexts.DescentIgnoresWhitespace | src/main/java/com/calculator/parser/StringParser.java:66 | whitespace is stripped before anything is read, so a text and its stripped form evaluate alike |
| ArithTexts.SumSnoc | src/main/java/com/calculator/parser/StringParser.java:89-100 | one more `+` or `-` operand at the end of a sum's text applies that operation to the whole sum before it |
| ArithTexts.SecondFactorFails | src/main/java/com/calculator/parser/StringParser.java:88-91 | when the operand after the first operator fails, the sum fails with that error, whether the operator is additive or multiplicative |
| ArithTexts.OperatorAsOperand | src/main/java/com/calculator/parser/StringParser.java:161-174 | an operator where an operand belongs is SYNTAX_ERROR |
| ArithTexts.DoubledOperator | src/main/java/com/calculator/parser/StringParser.java:161-174 | two operators in a row after an operand (`x o1 o2 y`) are SYNTAX_ERROR |
| ArithTexts.BracketNeverClosed | src/main/java/com/calculator/parser/StringParser.java:141-146 | a bracket opened after `x op` around a sum that runs to the end of the text is BRACKET_ERROR |
| ArithTexts.UnclosedBracket | src/main/java/com/calculator/parser/StringParser.java:141-146 | `x op (` followed by a sum and no closing bracket is BRACKET_ERROR |
| DescentTexts.StripSpaced | src/main/java/com/calculator/parser/StringParser.java:66 | words joined by single blanks lose exactly the blanks |
| DescentTexts.AddText | src/test/java/com/calculator/parser/StringParserTest.java:15-22 | "2 +2" is 4 |
| DescentTexts.SubtractText | src/test/java/com/calculator/parser/StringParserTest.java:26-33 | "20- 4" is 16 |
| DescentTexts.AddSubtractText | src/test/java/com/calculator/parser/StringParserTest.java:37-44 | "20- 4 + 5 - 10" is 11: subtraction and addition from left to right |
| DescentTexts.MultiplyText | src/test/java/com/calculator/parser/StringParserTest.java:48-55 | "5 * 2 *9" is 90 |
| DescentTexts.DivideText | src/test/java/com/calculator/parser/StringParserTest.java:59-66 | "13 / 4 " is 3.25, not an integer division |
| DescentTexts.MultiplyDivideText | src/test/java/com/calculator/parser/StringParserTest.java:70-77 | "15*20/2 " is 150 |
| DescentTexts.BracketsText | src/test/java/com/calculator/parser/StringParserTest.java:81-88 | "(2 + 2) * 2" is 8: the bracket is read first |
| DescentTexts.AllOperatorsText | src/test/java/com/calculator/parser/StringParserTest.java:92-99 | "24/ 4 *5-(17-9)" is 22: `/` and `*` from the left before the subtraction |
| DescentTexts.NoExpressionText | src/test/java/com/calculator/parser/StringParserTest.java:106-113 | " " is NO_EXPRESSION_ERROR |
| DescentTexts.UnclosedBracketText | src/test/java/com/calculator/parser/StringParserTest.java:117-124 | "2 * (2 + 2" is BRACKET_ERROR |
| DescentTexts.DivisionByZeroText | src/test/java/com/calculator/parser/StringParserTest.java:128-135 | "10 * 2 / 0" is DIVISION_BY_ZERO_ERROR |
| DescentTexts.DoubledOperatorText | src/test/java/com/calculator/parser/StringParserTest.java:139-146 | "2 ++ 4" is SYNTAX_ERROR |
| MathTexts.FirstOperator | Calculator/src/main/java/com/calculator/parser/Parsers/StringExpressionParser.java:67-76 | an operator over an empty stack writes a space and is pushed |
| MathTexts.SecondOperator | Calculator/src/main/java/com/calculator/parser/Parsers/StringExpressionParser.java:67-76 | a second operator pops the first to the output exactly when the first has at least its priority (`*` `/` above `+` `-`), and is pushed |
| MathTexts.ConvertPair | Calculator/src/main/java/com/calculator/parser/Parsers/StringExpressionParser.java:50-90 | two operands and one operator convert to the operation's postfix text |
| MathTexts.ConvertChain | Calculator/src/main/java/com/calculator/parser/Parsers/StringExpressionParser.java:50-90 | three operands and two operators convert to the operands in order with the operators placed by priority: the tighter second operator first, otherwise the first operator right after the second operand |
| MathTexts.ScannedAfterOperator | Calculator/src/main/java/com/calculator/parser/Parsers/Math/MathStringExpressionParser.java:40-95 | after an operator no operand is pending, so the scan of what follows starts from the stack the operator left |
| MathTexts.ScannedPopped | Calculator/src/main/java/com/calculator/parser/Parsers/Math/MathStringExpressionParser.java:40-95 | the postfix text of a left-grouped chain pushes the value of `(x o1 y) o2 z`, or the first error |
| MathTexts.PairValue | Calculator/src/main/java/com/calculator/parser/Parsers/Math/MathStringExpressionParser.java:40-95 | conversion plus postfix evaluation of two operands joined by an operator give the operation's value or error |
| MathTexts.ChainValue | Calculator/src/main/java/com/calculator/parser/Parsers/Math/MathStringExpressionParser.java:40-95 | conversion plus postfix evaluation of three operands joined by two operators give the value of the same precedence grouping the recursive-descent evaluator uses |
| CalculatorDescent.WordEnd | Calculator/src/main/java/com/calculator/parser/StringParser.java:256-262 | the letter loop stops at a delimiter or at the last character of the text, even when that is no delimiter |
| CalculatorDescent.CloseFrom | Calculator/src/main/java/com/calculator/parser/StringParser.java:265-268 | the first `)` from a position, or the end |
| CalculatorDescent.MathResult | Calculator/src/main/java/com/calculator/parser/StringParser.java:290-305 | succeeds exactly when the argument parses (number-format fault otherwise); the text is the value rounded to two places and written by `Double.toString` |
| CalculatorDescent.ReplaceAllFewerBrackets | Calculator/src/main/java/com/calculator/parser/StringParser.java:299-300 | replacing a call text, which holds `(`, by a value removes an opening bracket |
| CalculatorDescent.LexWord | Calculator/src/main/java/com/calculator/parser/StringParser.java:255-279 | a word is a VARIABLE or, as an evaluated call, a NUMBER; failures are index or number-format faults; the sign is kept |
| CalculatorDescent.LexCall | Calculator/src/main/java/com/calculator/parser/StringParser.java:263-275 | a call is a consistent NUMBER cursor that keeps the pending sign; a missing `)` is an index fault and an argument that does not parse a number-format fault |
| CalculatorDescent.LexCallMoves | Calculator/src/main/java/com/calculator/parser/StringParser.java:263-275 | an evaluated call removes an opening bracket from the text; a call left as its bare name keeps the text and moves the position on |
| CalculatorDescent.LexNumber | Calculator/src/main/java/com/calculator/parser/StringParser.java:241-254 | a NUMBER past the position, and the sign is used up |
| CalculatorDescent.Lex | Calculator/src/main/java/com/calculator/parser/StringParser.java:215-283 | the lexeme is consistent and the text loses a `(` or the position does not go back; failures are index or number-format faults |
| CalculatorDescent.Next | Calculator/src/main/java/com/calculator/parser/StringParser.java:215-283 | the next cursor is strictly nearer the end |
| CalculatorDescent.Sum | Calculator/src/main/java/com/calculator/parser/StringParser.java:101-117 | a result cursor has fewer opening brackets left, or as many and no more text to read; the values are stated through `DescentAgreement.SumAgrees` and `DescentAgreement.ChainAgrees` |
| CalculatorDescent.Factor | Calculator/src/main/java/com/calculator/parser/StringParser.java:152-166 | a result cursor has fewer opening brackets left, or as many and no more text to read |
| CalculatorDescent.NumberValue | Calculator/src/main/java/com/calculator/parser/StringParser.java:174-191 | a value is a NUMBER lexeme parsed; a VARIABLE is VARIABLE_DETECTED_ERROR; anything else SYNTAX_ERROR |
| CalculatorDescent.ExpressionRounded | Calculator/src/main/java/com/calculator/parser/StringParser.java:369-381 | a value ends at EOE and is a whole number of hundredths |
| CalculatorDescent.Variables | Calculator/src/main/java/com/calculator/parser/StringParser.java:394-403 | the VARIABLE lexemes met are never empty |
| CalculatorDescent.BindFromVariables | Calculator/src/main/java/com/calculator/parser/StringParser.java:388-418 | binding succeeds exactly when there are as many values as VARIABLE lexemes, and then substitutes each in turn; too few or too many give the two quantity errors |
| CalculatorDescent.VariablesWithoutLetters | Calculator/src/main/java/com/calculator/parser/StringParser.java:255-279 | text without letters has no VARIABLE lexeme and is read to its end |
| CalculatorDescent.LexWithoutLetters | Calculator/src/main/java/com/calculator/parser/StringParser.java:215-254 | without letters the lexer never fails, never reads a VARIABLE and leaves the text alone |
| CalculatorDescent.BindWithoutLetters | Calculator/src/main/java/com/calculator/parser/StringParser.java:388-418 | binding text without letters stores it stripped with no values; any value is INCORRECT_VARIABLES_QUANTITY_ERROR |
| CalculatorDescent.WordEndAt | Calculator/src/main/java/com/calculator/parser/StringParser.java:256-262 | the letter loop stops at the first delimiter or at the last character, whichever comes first |
| CalculatorDescent.LexSignedNumber | Calculator/src/main/java/com/calculator/parser/StringParser.java:224-254 | a `-` at the start or after a delimiter, before a digit, becomes the sign of that NUMBER and no sign is left pending |
| CalculatorDescent.LexMinusOperator | Calculator/src/main/java/com/calculator/parser/StringParser.java:235-239 | a `-` after an operand is a DELIMITER; the pending sign is untouched |
| CalculatorDescent.LexSignBeforeBracket | Calculator/src/main/java/com/calculator/parser/StringParser.java:229-238 | a sign before `(` stays pending; the lexeme is the `(` |
| CalculatorDescent.LexVariable | Calculator/src/main/java/com/calculator/parser/StringParser.java:255-278 | a word ended by a delimiter other than `(` is a VARIABLE, the whole word |
| CalculatorDescent.LexTrailingWord | Calculator/src/main/java/com/calculator/parser/StringParser.java:256-262 | a word that runs to the end of the text loses its last character: `2+x1` reads VARIABLE `x` |
| CalculatorDescent.LexLastLetter | Calculator/src/main/java/com/calculator/parser/StringParser.java:255-263 | a letter in the last position is an index fault |
| CalculatorDescent.LexMathCall | Calculator/src/main/java/com/calculator/parser/StringParser.java:263-275 | a tan, sin or cos call: the text keeps what precedes it, has the value in its place and in every later copy, and the position lands right after the value |
| CalculatorDescent.ExpressionStartingWithVariable | Calculator/src/main/java/com/calculator/parser/StringParser.java:369-381 | text starting with a variable is VARIABLE_DETECTED_ERROR, unless the word is `EOE`, which counts as no expression |
| CalculatorDescent.StringParser.constructor | Calculator/src/main/java/com/calculator/parser/StringParser.java:92-94 | the text as given, at position 0, with no lexeme yet |
| CalculatorDescent.StringParser.GetLexeme | Calculator/src/main/java/com/calculator/parser/StringParser.java:215-283 | fails exactly when `Lex` fails, otherwise the fields become exactly `Lex` of the old state |
| CalculatorDescent.StringParser.ReadNumber | Calculator/src/main/java/com/calculator/parser/StringParser.java:241-254 | the fields become exactly `LexNumber` |
| CalculatorDescent.StringParser.ReadWord | Calculator/src/main/java/com/calculator/parser/StringParser.java:255-279 | the fields become exactly `LexWord`, or it fails as it does |
| CalculatorDescent.StringParser.ReadCall | Calculator/src/main/java/com/calculator/parser/StringParser.java:263-275 | the fields become exactly `LexCall`, or it fails as it does |
| CalculatorDescent.StringParser.GetResultMathFunction | Calculator/src/main/java/com/calculator/parser/StringParser.java:290-305 | returns `MathResult`; the text has every copy of the call replaced by it and the position moves by the difference in length |
| CalculatorDescent.StringParser.AddOrSubtractTwoTerms | Calculator/src/main/java/com/calculator/parser/StringParser.java:101-117 | returns `Sum` of the old cursor and leaves the parser at its cursor |
| CalculatorDescent.StringParser.MultiplyOrDivideTwoFactors | Calculator/src/main/java/com/calculator/parser/StringParser.java:125-144 | returns `Product` of the old cursor and leaves the parser at its cursor |
| CalculatorDescent.StringParser.EvaluateInsideBrackets | Calculator/src/main/java/com/calculator/parser/StringParser.java:152-166 | returns `Factor` of the old cursor and leaves the parser at its cursor |
| CalculatorDescent.StringParser.GetNumberValue | Calculator/src/main/java/com/calculator/parser/StringParser.java:174-191 | returns `NumberValue` of the old cursor and leaves the parser at its cursor |
| CalculatorDescent.StringParser.GetExpressionResult | Calculator/src/main/java/com/calculator/parser/StringParser.java:369-381 | returns `ExpressionResult` of the old cursor |
| CalculatorDescent.StringParser.SetVariablesValue | Calculator/src/main/java/com/calculator/parser/StringParser.java:388-418 | fails exactly as `Bind`; on success the bound text is stored and the reader is reset to position 0 |
| DescentAgreement.LexAgrees | Calculator/src/main/java/com/calculator/parser/StringParser.java:215-254 | on text without letters or signs, the second lexer reads what the first one reads |
| DescentAgreement.SumAgrees | Calculator/src/main/java/com/calculator/parser/StringParser.java:101-117 | both parsers' sums fail alike or give the same value at matching cursors |
| DescentAgreement.ProductRestAgrees | Calculator/src/main/java/com/calculator/parser/StringParser.java:125-144 | both products agree, division by zero included |
| DescentAgreement.FactorAgrees | Calculator/src/main/java/com/calculator/parser/StringParser.java:152-166 | both bracket evaluations agree |
| DescentAgreement.ExpressionAgrees | Calculator/src/main/java/com/calculator/parser/StringParser.java:369-381 | on such text the second parser gives the first one's value rounded to two places, or the same error |
| DescentAgreement.JoinedPlain | Calculator/src/main/java/com/calculator/parser/StringParser.java:215-254 | numbers joined by operators are text both lexers read alike: no letters, every `-` after a digit |
| DescentAgreement.PairAgrees | Calculator/src/main/java/com/calculator/parser/StringParser.java:369-381 | two numbers joined by an operator: the second parser gives the operation's value rounded to two places, or its error |
| DescentAgreement.ChainAgrees | Calculator/src/main/java/com/calculator/parser/StringParser.java:369-381 | three numbers joined by two operators: the second parser groups them as the first one does and rounds the value to two places |

## Left out

- **Floating point.** IEEE rounding, NaN, infinities and `-0.0` are left out,
  because doubles are modelled as exact reals.
  - `Double.toString` is an uninterpreted `MathLib.toText`.
  - A round trip through text is a hypothesis where a lemma needs one, for
    example in `MathParsing.ResolveCall`.
- **Math library.** `Math.tan`, `sin`, `cos` and `pow` are uninterpreted
  functions.
  - `CalculatorDescent.WritesNoBracket`: the calculator lexer requires that
    `Double.toString` writes no `(`. This holds for every Java double, and the
    lexer's termination argument relies on it.
- **Client functions of the calculator `StringParser`.** These are looked up by
  reflection on `classWhoCalledLibrary`, which is not part of this model. The
  caller object is taken to be unset, so a client call reads as its bare name.
- **`Double.parseDouble`.** The model accepts the decimal literal grammar:
  sign, digits, point, exponent and type suffix. Java also accepts
  surrounding whitespace, `NaN`, `Infinity` and hexadecimal literals; those are
  left out.
- **Regular expressions.** `replaceFirst` is modelled as literal replacement.
  Java reads its target as a pattern, so a variable name holding a
  metacharacter such as `.` matches differently there; that case is left out.
- **Integer width.** `Integer` values in the binders are unbounded `int`s.
  `Math.toIntExact` overflow is modelled.
- **Math.round saturation.** `Math.round` saturating at the `long` range is
  left out.
- **Null values.** Null elements in the value queues are left out, because the
  varargs are modelled as sequences of values.
- **State after a failure.** When a method fails, its contract states only
  the error. Which fields the Java code had already changed before the
  exception is left out.
- **Scratch fields.** The `functionArguments` and `functionValue` fields of the
  calculator `StringParser` are local variables in the model, because no caller
  reads them.
- RootEntity.StringExpression.Functions: the root `StringExpression` has no
  `getClientFunctionsWithOneArgument()` or `getClientFunctionsWithTwoArguments()`,
  which the root math parser calls, so the Java code does not compile as written.
  The model reads the single `getClientFunctions()` table as the one-argument
  table and gives an empty two-argument table. This is a choice of the model.
- **Non-terminating division.** A `BigDecimal` quotient with no terminating
  expansion is a `Runtime(NonTerminatingQuotient)` fault. The search for the
  exact scale is bounded by the divisor's unscaled value.
- **Character classes.** `Text.IsLetter`, `Text.IsDigit`, `Text.LowerChar`
  and `Text.ToLower` cover ASCII only. Java's `Character.isLetter`,
  `Character.isDigit` and `toLowerCase` also accept other Unicode letters and
  digits, so a text with such characters is read differently there.
  `Text.IsWhitespace` is the ASCII class `\s` of Java regular expressions, as
  written.
- MathTexts.ChainValue: for the shunting-yard path, precedence is proved for
  texts of up to three operands (`MathTexts.PairValue`, `MathTexts.ChainValue`).
  Unbracketed texts of any length are proved for the plain `StringParser` only
  (`ArithTexts.DescentOfSumText`).
- DescentAgreement.ChainAgrees: the calculator `StringParser` follows the plain
  one only on text where every `-` comes after a digit (`DescentAgreement.Plain`),
  so its precedence lemmas take numbers as operands. A `-` right after `)` is
  read differently by the calculator lexer and is not covered.
- DecimalTexts.PairResult: the 60-digit test texts of
  `BigDecimalMathStringExpressionParserTest` are not restated. The lemmas hold
  for every pair or chain of decimal literals, those texts included, but their
  concrete values are not computed.
- **Other code.** The builders, `ParserException` and `handleError` are not
  part of this model. The tests are not modelled as code; the logic parsers'
  test texts are restated as lemmas in `LogicTexts`, and those of the plain `StringParser` in `DescentTexts`. Two stale expectations in the calculator
  `StringParserTest` disagree with the code; the model follows the code.
