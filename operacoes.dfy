/** The closed set of operations (the Operacao hierarchy) and the dispatch from an operator
    character to one of them (isOperador and executarOperacao). */
module Operacoes {
  import opened Runtime

  /** One case per subclass of Operacao. */
  datatype Operacao = Som | Sub | Mul | Div | Res | Pot

  const MensagemDivisaoPorZero: string := "Divisão por zero não permitida."

  /** The message of the IllegalArgumentException thrown for a character that is no operator;
      it ends with that character, so different characters give different messages. */
  function MensagemOperadorInvalido(c: char): (m: string)
    ensures |m| > 0 && m[|m| - 1] == c
  {
    "Operador inválido: " + [c]
  }

  /** True for the six operator characters of the calculator. All of them are ASCII and none
      is a digit or the decimal point, so the scan never cuts a number such as "12.5". */
  predicate IsOperador(c: char)
    ensures IsOperador(c) ==> c as int < 128 && !('0' <= c <= '9') && c != '.'
  {
    c == '-' || c == '+' || c == '/' || c == '*' || c == '%' || c == '^'
  }

  /** The character the dispatch switch maps to each operation. */
  function Simbolo(op: Operacao): (c: char)
    ensures IsOperador(c)
  {
    match op
    case Som => '+'
    case Sub => '-'
    case Div => '/'
    case Mul => '*'
    case Res => '%'
    case Pot => '^'
  }

  /** `executar` of each subclass; only Div can throw, and only for a zero divisor. */
  function Executar(p: Platform, op: Operacao, num1: real, num2: real): (r: Result<real, JavaException>)
    ensures r.Failure? <==> op == Div && num2 == 0.0
    ensures r.Failure? ==> r.error == ArithmeticException(MensagemDivisaoPorZero)
    ensures op == Div && r.Success? ==> r.value * num2 == num1
  {
    match op
    case Som => Success(num1 + num2)
    case Sub => Success(num1 - num2)
    case Mul => Success(num1 * num2)
    case Div =>
      if num2 == 0.0 then Failure(ArithmeticException(MensagemDivisaoPorZero))
      else Success(num1 / num2)
    case Res => Success(p.remainder(num1, num2))
    case Pot => Success(p.pow(num1, num2))
  }

  /** The switch of executarOperacao: the operation for an operator character, or the
      IllegalArgumentException of its default branch. */
  function Selecionar(op: char): (r: Result<Operacao, JavaException>)
    ensures r.Success? <==> IsOperador(op)
    ensures r.Success? ==> Simbolo(r.value) == op
    ensures r.Failure? ==> r.error == IllegalArgumentException(MensagemOperadorInvalido(op))
  {
    match op
    case '+' => Success(Som)
    case '-' => Success(Sub)
    case '/' => Success(Div)
    case '*' => Success(Mul)
    case '%' => Success(Res)
    case '^' => Success(Pot)
    case _ => Failure(IllegalArgumentException(MensagemOperadorInvalido(op)))
  }

  /** executarOperacao: select the operation for `op` and apply it to the two operands. */
  function ExecutarOperacao(p: Platform, num1: real, op: char, num2: real): (r: Result<real, JavaException>)
    ensures r.Failure? <==> !IsOperador(op) || (op == '/' && num2 == 0.0)
    ensures !IsOperador(op) ==> r == Failure(IllegalArgumentException(MensagemOperadorInvalido(op)))
    ensures IsOperador(op) && r.Failure? ==> r.error == ArithmeticException(MensagemDivisaoPorZero)
    ensures forall o :: Simbolo(o) == op ==> r == Executar(p, o, num1, num2)
  {
    match Selecionar(op)
    case Failure(e) => Failure(e)
    case Success(o) => Executar(p, o, num1, num2)
  }

  /** The switch and the symbols are inverse: each operation is selected by its own symbol,
      each operator character by exactly one operation, and the operator characters are
      exactly the symbols of the six operations. */
  lemma SelecionarSimbolo(op: Operacao, c: char)
    ensures Selecionar(Simbolo(op)) == Success(op)
    ensures Simbolo(op) == c <==> Selecionar(c) == Success(op)
    ensures IsOperador(c) <==> exists o :: Simbolo(o) == c
  {
    if IsOperador(c) {
      assert Simbolo(Selecionar(c).value) == c;
    }
  }
}
