/** calculadora: the one entry point. It scans the numbers, then the operators, folds them,
    and turns any exception into "Erro: " followed by the exception's message. */
module Calculos {
  import opened Runtime
  import opened Operacoes
  import opened Lexer
  import opened Reducer

  /** The total the evaluation reaches, or the exception that ends it. Every operator the scan
      collects is valid and there is never more than one number per operator plus one, so
      only a number that does not parse or a division by zero can end it. */
  function Avaliacao(p: Platform, expressao: string): (r: Result<real, JavaException>)
    ensures r.Failure? ==>
      r.error.NumberFormatException? || r.error == ArithmeticException(MensagemDivisaoPorZero)
  {
    match Numbers(p, expressao)
    case Failure(e) => Failure(e)
    case Success(numeros) => Valor(p, numeros, Operators(expressao))
  }

  /** The string calculadora returns for `expressao`: the text of the total, or "Erro: " with
      either the division-by-zero message or the message of the number scan's exception. */
  function Avaliar(p: Platform, expressao: string): (r: string)
    ensures Avaliacao(p, expressao).Success? ==> r == p.show(Avaliacao(p, expressao).value)
    ensures Avaliacao(p, expressao).Failure? ==>
      r == "Erro: " + MensagemDivisaoPorZero ||
      (Numbers(p, expressao).Failure? && r == "Erro: " + Numbers(p, expressao).error.message)
  {
    match Avaliacao(p, expressao)
    case Failure(e) => "Erro: " + e.message
    case Success(t) => p.show(t)
  }

  /** calculadora: obterNumeros, obterOperadores and calcularValor in turn; an exception from
      any of them becomes the returned text "Erro: " + message. */
  method Calculadora(p: Platform, expressao: string) returns (result: string)
    ensures result == Avaliar(p, expressao)
  {
    var listaNumeros := ObterNumeros(p, expressao);
    if listaNumeros.Failure? {
      return "Erro: " + listaNumeros.error.message;
    }
    var listaOperadores := ObterOperadores(expressao);
    var valor := CalcularValor(p, listaNumeros.value, listaOperadores);
    if valor.Failure? {
      return "Erro: " + valor.error.message;
    }
    result := valor.value;
  }

  /** calculadora never lets an exception through: it returns the text of the total, the
      division-by-zero message, or the parser's message for the first run that does not
      parse. */
  lemma CalculadoraOutcomes(p: Platform, expressao: string)
    ensures
      (Avaliacao(p, expressao).Success? && Avaliar(p, expressao) == p.show(Avaliacao(p, expressao).value)) ||
      Avaliar(p, expressao) == "Erro: " + MensagemDivisaoPorZero ||
      (exists k :: FirstUnparsable(p, Runs(expressao), k) &&
        Avaliar(p, expressao) == "Erro: " + p.valueOf(Runs(expressao)[k]).error)
  {
    ParseRunsMeaning(p, Runs(expressao));
  }

  /** On a well-formed expression whose pieces all parse, calculadora folds exactly the
      parsed values with exactly the written operators. */
  lemma EvaluateWellFormed(p: Platform, segs: seq<string>, ops: string, xs: seq<real>)
    requires |segs| == |ops| + 1 == |xs|
    requires forall k :: 0 <= k < |segs| ==> segs[k] != [] && SemOperador(segs[k])
    requires forall k :: 0 <= k < |ops| ==> IsOperador(ops[k])
    requires forall k :: 0 <= k < |segs| ==> p.valueOf(segs[k]) == Success(xs[k])
    ensures Avaliacao(p, Join(segs, ops)) == Valor(p, xs, ops)
  {
    WellFormedScan(segs, ops);
    ParseRunsMeaning(p, segs);
    assert ParseRuns(p, segs).value == xs;
  }

  /** The empty expression gives the text of 0.0. */
  lemma EmptyExpression(p: Platform)
    ensures Avaliar(p, "") == p.show(0.0)
  {
    assert Segments("") == [[]];
  }

  /** A single number gives the text of 0.0, whatever the number: the loop never runs. */
  lemma SingleNumber(p: Platform, s: string, x: real)
    requires s != [] && SemOperador(s)
    requires p.valueOf(s) == Success(x)
    ensures Avaliar(p, s) == p.show(0.0)
  {
    EvaluateWellFormed(p, [s], [], [x]);
  }

  /** "a op b" gives the text of the one operation, or its exception's message. */
  lemma TwoOperands(p: Platform, a: string, op: char, b: string, x: real, y: real)
    requires a != [] && SemOperador(a) && b != [] && SemOperador(b) && IsOperador(op)
    requires p.valueOf(a) == Success(x) && p.valueOf(b) == Success(y)
    ensures Avaliar(p, a + [op] + b) ==
      match ExecutarOperacao(p, x, op, y)
      case Failure(e) => "Erro: " + e.message
      case Success(t) => p.show(t)
  {
    assert [a, b][..1] == [a];
    assert Join([a, b], [op]) == a + [op] + b;
    EvaluateWellFormed(p, [a, b], [op], [x, y]);
  }

  /** Dividing by a divisor that parses to zero gives the division-by-zero message. */
  lemma DivisionByZero(p: Platform, a: string, b: string, x: real)
    requires a != [] && SemOperador(a) && b != [] && SemOperador(b)
    requires p.valueOf(a) == Success(x) && p.valueOf(b) == Success(0.0)
    ensures Avaliar(p, a + ['/'] + b) == "Erro: " + MensagemDivisaoPorZero
  {
    TwoOperands(p, a, '/', b, x, 0.0);
  }

  /** "a op1 b op2 c": after the first operation the total is t. When t is not zero the
      second iteration applies op1 again to t and b, so op2 and c are never read; when t is
      zero it starts over with b op2 c. */
  lemma ThreeOperands(p: Platform, a: string, op1: char, b: string, op2: char, c: string, x: real, y: real, z: real)
    requires a != [] && SemOperador(a) && b != [] && SemOperador(b) && c != [] && SemOperador(c)
    requires IsOperador(op1) && IsOperador(op2)
    requires p.valueOf(a) == Success(x) && p.valueOf(b) == Success(y) && p.valueOf(c) == Success(z)
    ensures Avaliacao(p, a + [op1] + b + [op2] + c) ==
      match ExecutarOperacao(p, x, op1, y)
      case Failure(e) => Failure(e)
      case Success(t) =>
        if t == 0.0 then ExecutarOperacao(p, y, op2, z) else ExecutarOperacao(p, t, op1, y)
  {
    JoinThree(a, op1, b, op2, c);
    EvaluateWellFormed(p, [a, b, c], [op1, op2], [x, y, z]);
    ThreeNumbers(p, x, op1, y, op2, z);
  }

  lemma JoinThree(a: string, op1: char, b: string, op2: char, c: string)
    ensures Join([a, b, c], [op1, op2]) == a + [op1] + b + [op2] + c
  {
    var segs, ops := [a, b, c], [op1, op2];
    assert segs[..2] == [a, b] && segs[..2][..1] == [a] && ops[..1] == [op1] && ops[..1][..0] == [];
    assert Join([a], []) == a;
    assert Join([a, b], [op1]) == a + [op1] + b;
  }

  /** A leading operator is collected but no number goes with it: "op a" gives 0.0. */
  lemma LeadingOperator(p: Platform, op: char, a: string, x: real)
    requires IsOperador(op) && a != [] && SemOperador(a)
    requires p.valueOf(a) == Success(x)
    ensures Avaliar(p, [op] + a) == p.show(0.0)
  {
    var segs := [[], a];
    assert segs[..1] == [[]] && [op][..0] == [];
    assert Join(segs, [op]) == [] + [op] + a == [op] + a;
    SegmentsJoin(segs, [op]);
    assert NonEmpty(segs[..1]) == [];
    assert Runs([op] + a) == [a];
    assert [a][..0] == [];
    assert ParseRuns(p, [a]) == Success([] + [x]);
  }
}
