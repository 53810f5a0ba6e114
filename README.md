# Calculadora: a verified model of the expression evaluator

The calculator evaluates a flat infix expression such as `12+3.5*2` given as text and returns
either the text of the resulting `double` or `"Erro: "` followed by the message of the exception
that stopped the evaluation. Its evaluator, `Calculos`, works in three passes over the input:

- `obterNumeros` scans the text with a buffer, parsing the buffer with `Double.valueOf` and
  clearing it at every operator character (when it is not empty) and once more at the end;
- `obterOperadores` collects every operator character (`+ - * / % ^`) in input order;
- `calcularValor` folds the two lists with a running `total` and a second operator index `j`,
  dispatching each step through `executarOperacao`, which picks one of the six `Operacao`
  subclasses (`Som`, `Sub`, `Mul`, `Div`, `Res`, `Pot`) in a `switch`.

`calculadora` runs the three passes and turns any exception into `"Erro: " + getMessage()`.

The Dafny project follows the same layout:

| module | file | models |
|---|---|---|
| `Runtime` | `runtime.dfy` | results that may carry a thrown exception, the four exception kinds, the library routines (`Platform`) |
| `Operacoes` | `operacoes.dfy` | the `Operacao` hierarchy, `isOperador`, the `switch` of `executarOperacao` |
| `Lexer` | `lexer.dfy` | `obterOperadores` and `obterNumeros` as loops, proved against the text cut at every operator |
| `Reducer` | `reducer.dfy` | `calcularValor` as a loop, proved against a step function iterated k times |
| `Calculos` | `calculos.dfy` | `calculadora`, and what it returns for whole classes of expressions |

Each imperative pass of the source (`obterNumeros`, `obterOperadores`, `calcularValor`,
`calculadora`) is a Dafny `method` with the source's loop and variables, and its postcondition
ties the result to a specification function (`Numbers`, `Operators`, `Valor`, `Avaliar`).
Lemmas then prove what those functions mean: the scan cuts the text into exactly its
operator-free runs and a round trip puts them back together; parsing stops at the first run
`Double.valueOf` rejects; an index error can never happen on the lexer's output; and the only
errors `calculadora` can report are a number that does not parse or a division by zero.

The fold is modelled as written, not as an idealised left-to-right fold. After the first
iteration the source pairs `total` with `listaNumeros.get(i)` and `listaOperadores.get(j)`,
starting `j` at 0. So `1+2*3` gives `(1+2)+2 = 5.0` (`Reducer.NoPrecedenceExample`), and the
last number is read only when the running total is zero (`Reducer.LastOperandUnread`). A total
that returns to zero restarts the fold from the current pair (`Reducer.ZeroTotalRestartsExample`:
`2-2*5` gives `10.0`). A single number gives `0.0`, because the loop never runs
(`Calculos.SingleNumber`). There is no precedence, and this is not a plain left-to-right fold
either.

Library routines whose internals are outside the evaluator are parameters of every operation,
gathered in `Runtime.Platform`: `Double.valueOf` (a partial function from text to a value or a
`NumberFormatException` message), the `double` remainder `%`, `Math.pow`, the text of a
`double` (`"" + total`), and the message of `List.get`'s `IndexOutOfBoundsException`. Numbers
are Dafny `real`s.

## Model

| member | source | states |
|---|---|---|
| Operacoes.IsOperador | Calculadora/CalculadoraSwing/src/main/java/com/mycompany/calculadoraswing/Calculos.java:178-181 | the operator characters are ASCII and none is a digit or the decimal point, so a number written with digits and a point is never cut |
| Operacoes.MensagemOperadorInvalido | Calculadora/CalculadoraSwing/src/main/java/com/mycompany/calculadoraswing/Calculos.java:140 | the invalid-operator message ends with the rejected character, so different characters give different messages |
| Operacoes.Executar | Calculadora/CalculadoraSwing/src/main/java/com/mycompany/calculadoraswing/Calculos.java:12-69 | each subclass's `executar`: only `Div` with a zero divisor throws, and then it throws `ArithmeticException("Divisão por zero não permitida.")`; a successful division gives a quotient that multiplied by the divisor is the dividend |
| Operacoes.Simbolo | Calculadora/CalculadoraSwing/src/main/java/com/mycompany/calculadoraswing/Calculos.java:133-139 | the character each operation is selected by is one `isOperador` accepts |
| Operacoes.Selecionar | Calculadora/CalculadoraSwing/src/main/java/com/mycompany/calculadoraswing/Calculos.java:133-141 | the switch selects an operation exactly for the characters `isOperador` accepts, the one whose character it was given; any other character throws `IllegalArgumentException("Operador inválido: " + op)` |
| Operacoes.SelecionarSimbolo | Calculadora/CalculadoraSwing/src/main/java/com/mycompany/calculadoraswing/Calculos.java:178-181 | the switch and the operation characters are inverse to each other, and `isOperador` accepts exactly the characters of the six operations |
| Operacoes.ExecutarOperacao | Calculadora/CalculadoraSwing/src/main/java/com/mycompany/calculadoraswing/Calculos.java:128-143 | `executarOperacao` throws exactly for a character that is no operator (the invalid-operator exception) or for `/` with a zero divisor (the division exception); otherwise it is the selected operation's `executar` |
| Lexer.Operators | Calculadora/CalculadoraSwing/src/main/java/com/mycompany/calculadoraswing/Calculos.java:167-176 | the collected operators are never more than the characters of the text and are all operator characters |
| Lexer.ObterOperadores | Calculadora/CalculadoraSwing/src/main/java/com/mycompany/calculadoraswing/Calculos.java:167-176 | the loop returns exactly the specification's operator list of the whole text |
| Lexer.OperatorsAppend | Calculadora/CalculadoraSwing/src/main/java/com/mycompany/calculadoraswing/Calculos.java:170-174 | collecting operators distributes over concatenation and keeps a single character exactly when it is an operator: the result is the operator characters in input order |
| Lexer.OperatorsCount | Calculadora/CalculadoraSwing/src/main/java/com/mycompany/calculadoraswing/Calculos.java:170-174 | each operator character occurs in the result as often as in the text, and no other character occurs in it |
| Lexer.NonEmptyAppend | Calculadora/CalculadoraSwing/src/main/java/com/mycompany/calculadoraswing/Calculos.java:151-155 | skipping empty buffers distributes over concatenation: the kept buffers keep their order and their repeats |
| Lexer.Segments | Calculadora/CalculadoraSwing/src/main/java/com/mycompany/calculadoraswing/Calculos.java:149-159 | the text cut at every operator has one piece more than it has operators |
| Lexer.JoinSegments | Calculadora/CalculadoraSwing/src/main/java/com/mycompany/calculadoraswing/Calculos.java:149-159 | round trip: the pieces with the operators put back between them are the text again, so the scan loses no character |
| Lexer.SegmentsJoin | Calculadora/CalculadoraSwing/src/main/java/com/mycompany/calculadoraswing/Calculos.java:149-159 | round trip the other way: operator-free pieces joined by operators are cut back into exactly those pieces and operators |
| Lexer.SegmentsOperatorFree | Calculadora/CalculadoraSwing/src/main/java/com/mycompany/calculadoraswing/Calculos.java:156-158 | no piece contains an operator: only non-operator characters reach the buffer |
| Lexer.Runs | Calculadora/CalculadoraSwing/src/main/java/com/mycompany/calculadoraswing/Calculos.java:151-163 | the buffers that get parsed are at most one more than the operators |
| Lexer.RunsShape | Calculadora/CalculadoraSwing/src/main/java/com/mycompany/calculadoraswing/Calculos.java:151-163 | every parsed buffer is non-empty and operator-free, and every non-empty piece of the text is parsed: empty buffers (leading, adjacent or trailing operators) are skipped; order and repeats are kept by `Lexer.NonEmptyAppend` |
| Lexer.NonEmptyMembers | Calculadora/CalculadoraSwing/src/main/java/com/mycompany/calculadoraswing/Calculos.java:151-155 | as sets, the buffers kept are exactly the non-empty pieces |
| Lexer.WellFormedScan | Calculadora/CalculadoraSwing/src/main/java/com/mycompany/calculadoraswing/Calculos.java:145-176 | on a text of non-empty operator-free pieces joined by operators, the two scans give back exactly those pieces and those operators |
| Lexer.ParseRuns | Calculadora/CalculadoraSwing/src/main/java/com/mycompany/calculadoraswing/Calculos.java:152-162 | parsing the buffers gives one value per buffer, or a `NumberFormatException` |
| Lexer.ParseRunsMeaning | Calculadora/CalculadoraSwing/src/main/java/com/mycompany/calculadoraswing/Calculos.java:152-162 | parsing succeeds exactly when every buffer parses, and then gives each buffer's value in order; otherwise it fails with the message of the first buffer `Double.valueOf` rejects |
| Lexer.ParseRunsFailureIsFinal | Calculadora/CalculadoraSwing/src/main/java/com/mycompany/calculadoraswing/Calculos.java:152-153 | once a buffer fails to parse, nothing after it changes the outcome |
| Lexer.ScanFailureIsFinal | Calculadora/CalculadoraSwing/src/main/java/com/mycompany/calculadoraswing/Calculos.java:149-155 | a buffer that fails to parse in the middle of the scan decides the result of the whole scan |
| Lexer.ClosedIsPrefix | Calculadora/CalculadoraSwing/src/main/java/com/mycompany/calculadoraswing/Calculos.java:149-159 | the pieces closed after reading a prefix are a prefix of the pieces of the whole text: the scan never revisits a closed piece |
| Lexer.Numbers | Calculadora/CalculadoraSwing/src/main/java/com/mycompany/calculadoraswing/Calculos.java:145-165 | the numbers are one per operator-free run, at most one more than the operators, or a `NumberFormatException` |
| Lexer.ObterNumeros | Calculadora/CalculadoraSwing/src/main/java/com/mycompany/calculadoraswing/Calculos.java:145-165 | the loop with its buffer and its final flush returns exactly the specification's numbers, including the exception of the first buffer that fails |
| Lexer.SemOperadorMeaning | Calculadora/CalculadoraSwing/src/main/java/com/mycompany/calculadoraswing/Calculos.java:178-181 | a text has no operator exactly when `isOperador` rejects each of its characters |
| Reducer.Steps | Calculadora/CalculadoraSwing/src/main/java/com/mycompany/calculadoraswing/Calculos.java:109 | the loop runs `size - 1` times when there are two numbers or more and not at all otherwise |
| Reducer.Step | Calculadora/CalculadoraSwing/src/main/java/com/mycompany/calculadoraswing/Calculos.java:110-122 | one iteration: a zero total reads operator i and leaves j, any other total reads operator j and increments j; the index error happens exactly when that operator index is past the end of the list, and any other exception is the division or invalid-operator one |
| Reducer.Reduce | Calculadora/CalculadoraSwing/src/main/java/com/mycompany/calculadoraswing/Calculos.java:107-123 | after k iterations `j` is below k; an index error needs more than one number per operator; every other exception is the division or invalid-operator exception of `executarOperacao` |
| Reducer.Valor | Calculadora/CalculadoraSwing/src/main/java/com/mycompany/calculadoraswing/Calculos.java:105-124 | fewer than two numbers give 0.0; two numbers give the one operation; with at most one number per operator plus one no index error occurs, and with valid operators as well only division by zero can fail |
| Reducer.CalcularValor | Calculadora/CalculadoraSwing/src/main/java/com/mycompany/calculadoraswing/Calculos.java:105-126 | the loop returns the text of the specification's total, or the exception of the iteration that throws |
| Reducer.ReduceFailureIsFinal | Calculadora/CalculadoraSwing/src/main/java/com/mycompany/calculadoraswing/Calculos.java:109-123 | an exception in an iteration is the result of the whole fold |
| Reducer.ReduceIgnoresLast | Calculadora/CalculadoraSwing/src/main/java/com/mycompany/calculadoraswing/Calculos.java:110-120 | iteration i reads numbers at most up to index i + 1, so iterations before the last never see the last number |
| Reducer.LastOperandUnread | Calculadora/CalculadoraSwing/src/main/java/com/mycompany/calculadoraswing/Calculos.java:116-122 | when the total before the last iteration is not zero, the last number does not affect the result |
| Reducer.ThreeNumbers | Calculadora/CalculadoraSwing/src/main/java/com/mycompany/calculadoraswing/Calculos.java:109-123 | three numbers: after `x op1 y = t`, a non-zero t gives `t op1 y`, and a zero t restarts with `y op2 z` |
| Reducer.NoPrecedenceExample | Calculadora/CalculadoraSwing/src/main/java/com/mycompany/calculadoraswing/Calculos.java:109-123 | the numbers of `1+2*3` fold to 5.0 |
| Reducer.ZeroTotalRestartsExample | Calculadora/CalculadoraSwing/src/main/java/com/mycompany/calculadoraswing/Calculos.java:109-123 | the numbers of `2-2*5` fold to 10.0, since a zero total makes the next iteration start over |
| Calculos.Avaliacao | Calculadora/CalculadoraSwing/src/main/java/com/mycompany/calculadoraswing/Calculos.java:86-103 | an evaluation of any text ends with a value, a `NumberFormatException` or the division-by-zero exception: no index error or invalid operator can occur |
| Calculos.Calculadora | Calculadora/CalculadoraSwing/src/main/java/com/mycompany/calculadoraswing/Calculos.java:86-103 | the method (numbers, then operators, then the fold, with the catch) returns the specification's text: the value's text, or `"Erro: "` and the exception's message |
| Calculos.Avaliar | Calculadora/CalculadoraSwing/src/main/java/com/mycompany/calculadoraswing/Calculos.java:91-102 | the returned text is the total's text on success; on failure it is `"Erro: "` with the division-by-zero message, or with the message of the exception the number scan threw |
| Calculos.CalculadoraOutcomes | Calculadora/CalculadoraSwing/src/main/java/com/mycompany/calculadoraswing/Calculos.java:91-102 | the result is the text of the total, `"Erro: Divisão por zero não permitida."`, or `"Erro: "` and the parser's message for the first buffer that does not parse |
| Calculos.EvaluateWellFormed | Calculadora/CalculadoraSwing/src/main/java/com/mycompany/calculadoraswing/Calculos.java:91-97 | on a well-formed expression whose pieces all parse, the fold gets exactly the parsed values and the written operators |
| Calculos.EmptyExpression | Calculadora/CalculadoraSwing/src/main/java/com/mycompany/calculadoraswing/Calculos.java:86-103 | the empty text gives the text of 0.0 |
| Calculos.SingleNumber | Calculadora/CalculadoraSwing/src/main/java/com/mycompany/calculadoraswing/Calculos.java:86-103 | a single number gives the text of 0.0, whatever the number |
| Calculos.TwoOperands | Calculadora/CalculadoraSwing/src/main/java/com/mycompany/calculadoraswing/Calculos.java:86-103 | `a op b` gives the text of the one operation, or `"Erro: "` and its exception's message |
| Calculos.DivisionByZero | Calculadora/CalculadoraSwing/src/main/java/com/mycompany/calculadoraswing/Calculos.java:42-51 | `a/b` with b parsing to zero gives `"Erro: Divisão por zero não permitida."` |
| Calculos.ThreeOperands | Calculadora/CalculadoraSwing/src/main/java/com/mycompany/calculadoraswing/Calculos.java:86-126 | `a op1 b op2 c`: after `a op1 b = t`, a non-zero t gives `t op1 b` and a zero t gives `b op2 c` |
| Calculos.LeadingOperator | Calculadora/CalculadoraSwing/src/main/java/com/mycompany/calculadoraswing/Calculos.java:145-176 | a leading operator is collected while no number goes with it, so `op a` gives the text of 0.0 |

## Left out

- `main` (`Calculos.java:72-84`): it starts a `Thread` and prints to the console; concurrency and console I/O are outside the evaluator.
- IEEE-754 arithmetic: numbers are `real`s, so NaN, infinities, rounding and the sign of zero are not modelled; `total == 0.0` and `num2 == 0` are exact comparisons of reals.
- The `double` remainder `%` and `Math.pow` are parameters (`Platform.remainder`, `Platform.pow`); nothing is proved about their values.
- `Double.valueOf` is a parameter (`Platform.valueOf`); which texts it accepts, the values it gives and its exception messages are not modelled.
- The text of a `double` (`"" + total`) is a parameter (`Platform.show`); its format (for example `"5.0"`) is not modelled.
- The message of `List.get`'s `IndexOutOfBoundsException` is a parameter (`Platform.outOfBounds`); that exception is modelled and proved unreachable from `calculadora`.
- Characters: a Dafny `char` is a Unicode scalar value while Java's `charAt` returns a UTF-16 code unit; behaviour is the same, since every operator is ASCII and both halves of a surrogate pair go into the number buffer together.
- A `null` expression and the `NullPointerException` it would raise are not modelled: the expression is always a text.
- Reducer.NoPrecedenceExample: states the fold of the lists of values, not the text `"5.0"` for the input `"1+2*3"`, because parsing and printing are parameters.
- Reducer.ZeroTotalRestartsExample: states the fold of the lists of values, not the text for the input `"2-2*5"`, for the same reason.
