/** calcularValor: fold the numbers and operators into one running total, exactly as the
    source does it. The branch is chosen by testing the running total against zero; the
    other branch reads numbers[i] with operators[j], where j counts only those steps. */
module Reducer {
  import opened Runtime
  import opened Operacoes

  /** The two variables the loop updates. */
  datatype Acc = Acc(total: real, j: nat)

  /** Number of loop iterations: `i` runs while `i < size - 1`. */
  function Steps(numeros: seq<real>): (n: nat)
    ensures n == 0 <==> |numeros| < 2
    ensures n > 0 ==> n + 1 == |numeros|
  {
    if |numeros| == 0 then 0 else |numeros| - 1
  }

  /** The IndexOutOfBoundsException List.get throws for `index` on the operator list. */
  function OutOfBounds(p: Platform, index: int, operadores: string): JavaException {
    IndexOutOfBoundsException(p.outOfBounds(index, |operadores|))
  }

  /** Iteration i of the loop, from the variables before it to the variables after it. A zero
      total reads operator i and leaves j alone; any other total reads operator j and moves j
      on by one. The list index error happens exactly when the operator index read is past
      the end of the list; every other exception is executarOperacao's. */
  function Step(p: Platform, numeros: seq<real>, operadores: string, i: nat, acc: Acc): (r: Result<Acc, JavaException>)
    requires i + 1 < |numeros|
    ensures r.Success? ==> r.value.j == if acc.total == 0.0 then acc.j else acc.j + 1
    ensures (r.Failure? && r.error.IndexOutOfBoundsException?) <==>
      (if acc.total == 0.0 then i else acc.j) >= |operadores|
    ensures r.Failure? && !r.error.IndexOutOfBoundsException? ==>
      r.error == ArithmeticException(MensagemDivisaoPorZero) ||
      exists c :: c in operadores && !IsOperador(c) &&
        r.error == IllegalArgumentException(MensagemOperadorInvalido(c))
  {
    if acc.total == 0.0 then
      if i < |operadores| then
        match ExecutarOperacao(p, numeros[i], operadores[i], numeros[i + 1])
        case Failure(e) => Failure(e)
        case Success(t) => Success(Acc(t, acc.j))
      else Failure(OutOfBounds(p, i, operadores))
    else
      if acc.j < |operadores| then
        match ExecutarOperacao(p, acc.total, operadores[acc.j], numeros[i])
        case Failure(e) => Failure(e)
        case Success(t) => Success(Acc(t, acc.j + 1))
      else Failure(OutOfBounds(p, acc.j, operadores))
  }

  /** The variables after the first k iterations, or the exception one of them throws.
      After at least one iteration j is below the iteration count (the first iteration always
      takes the zero branch), so an index error needs more than one number per operator; the
      only other exceptions are those of the dispatch. */
  function Reduce(p: Platform, numeros: seq<real>, operadores: string, k: nat): (r: Result<Acc, JavaException>)
    requires k <= Steps(numeros)
    ensures k == 0 ==> r == Success(Acc(0.0, 0))
    ensures r.Success? && k > 0 ==> r.value.j < k
    ensures r.Failure? && r.error.IndexOutOfBoundsException? ==> |operadores| + 1 < |numeros|
    ensures r.Failure? ==>
      r.error.IndexOutOfBoundsException? ||
      r.error == ArithmeticException(MensagemDivisaoPorZero) ||
      exists c :: c in operadores && !IsOperador(c) &&
        r.error == IllegalArgumentException(MensagemOperadorInvalido(c))
  {
    if k == 0 then Success(Acc(0.0, 0))
    else
      match Reduce(p, numeros, operadores, k - 1)
      case Failure(e) => Failure(e)
      case Success(acc) => Step(p, numeros, operadores, k - 1, acc)
  }

  /** The total calcularValor formats, or the exception it throws. */
  function Valor(p: Platform, numeros: seq<real>, operadores: string): (r: Result<real, JavaException>)
    ensures |numeros| < 2 ==> r == Success(0.0)
    ensures |numeros| == 2 && |operadores| >= 1 ==> r == ExecutarOperacao(p, numeros[0], operadores[0], numeros[1])
    ensures |numeros| <= |operadores| + 1 ==> !(r.Failure? && r.error.IndexOutOfBoundsException?)
    ensures |numeros| <= |operadores| + 1 && (forall k :: 0 <= k < |operadores| ==> IsOperador(operadores[k])) ==>
      (r.Failure? ==> r.error == ArithmeticException(MensagemDivisaoPorZero))
  {
    match Reduce(p, numeros, operadores, Steps(numeros))
    case Failure(e) => Failure(e)
    case Success(acc) => Success(acc.total)
  }

  /** calcularValor: the loop over i with the running total and the counter j; the result is
      the text of the total. */
  method CalcularValor(p: Platform, listaNumeros: seq<real>, listaOperadores: string)
    returns (r: Result<string, JavaException>)
    ensures r == match Valor(p, listaNumeros, listaOperadores)
                 case Failure(e) => Failure(e)
                 case Success(t) => Success(p.show(t))
  {
    var total := 0.0;
    var j := 0;
    var i := 0;
    while i < |listaNumeros| - 1
      invariant 0 <= i <= Steps(listaNumeros)
      invariant Reduce(p, listaNumeros, listaOperadores, i) == Success(Acc(total, j))
    {
      if total == 0.0 {
        var num1 := listaNumeros[i];
        var num2 := listaNumeros[i + 1];
        if i >= |listaOperadores| {
          ReduceFailureIsFinal(p, listaNumeros, listaOperadores, i + 1);
          return Failure(OutOfBounds(p, i, listaOperadores));
        }
        var op := listaOperadores[i];
        var res := ExecutarOperacao(p, num1, op, num2);
        if res.Failure? {
          ReduceFailureIsFinal(p, listaNumeros, listaOperadores, i + 1);
          return Failure(res.error);
        }
        total := res.value;
      } else {
        var num2 := listaNumeros[i];
        if j >= |listaOperadores| {
          ReduceFailureIsFinal(p, listaNumeros, listaOperadores, i + 1);
          return Failure(OutOfBounds(p, j, listaOperadores));
        }
        var op := listaOperadores[j];
        var res := ExecutarOperacao(p, total, op, num2);
        if res.Failure? {
          ReduceFailureIsFinal(p, listaNumeros, listaOperadores, i + 1);
          return Failure(res.error);
        }
        total := res.value;
        j := j + 1;
      }
      i := i + 1;
    }
    r := Success(p.show(total));
  }

  /** An exception ends the loop: the result is the exception of the iteration that threw. */
  lemma {:induction false} ReduceFailureIsFinal(p: Platform, numeros: seq<real>, operadores: string, k: nat)
    requires k <= Steps(numeros)
    requires Reduce(p, numeros, operadores, k).Failure?
    ensures Valor(p, numeros, operadores) == Failure(Reduce(p, numeros, operadores, k).error)
    decreases Steps(numeros) - k
  {
    if k < Steps(numeros) {
      assert Reduce(p, numeros, operadores, k + 1) == Reduce(p, numeros, operadores, k);
      ReduceFailureIsFinal(p, numeros, operadores, k + 1);
    }
  }

  /** Before the last iteration nothing reads the last number: iteration i reads at most
      numbers[i + 1]. */
  lemma {:induction false} ReduceIgnoresLast(p: Platform, a: seq<real>, b: seq<real>, operadores: string, k: nat)
    requires 2 <= |a| == |b| && a[..|a| - 1] == b[..|b| - 1]
    requires k + 2 <= |a|
    ensures Reduce(p, a, operadores, k) == Reduce(p, b, operadores, k)
  {
    if k > 0 {
      ReduceIgnoresLast(p, a, b, operadores, k - 1);
      assert a[k - 1] == a[..|a| - 1][k - 1] && a[k] == a[..|a| - 1][k];
    }
  }

  /** Unlike a left-to-right fold, the last number counts only when the running total is
      zero before the last iteration: otherwise that iteration reads numbers[i], not
      numbers[i + 1], and any last number gives the same result. */
  lemma LastOperandUnread(p: Platform, a: seq<real>, b: seq<real>, operadores: string)
    requires 2 <= |a| == |b| && a[..|a| - 1] == b[..|b| - 1]
    requires Reduce(p, a, operadores, |a| - 2).Success?
    requires Reduce(p, a, operadores, |a| - 2).value.total != 0.0
    ensures Valor(p, a, operadores) == Valor(p, b, operadores)
  {
    var n := |a| - 2;
    ReduceIgnoresLast(p, a, b, operadores, n);
    var acc := Reduce(p, a, operadores, n).value;
    assert a[n] == a[..|a| - 1][n] == b[n];
    assert Step(p, a, operadores, n, acc) == Step(p, b, operadores, n, acc);
    assert Reduce(p, a, operadores, n + 1) == Step(p, a, operadores, n, acc);
    assert Reduce(p, b, operadores, n + 1) == Step(p, b, operadores, n, acc);
  }

  /** Three numbers: after the first operation the total is t. When t is not zero the second
      iteration applies the first operator again, to t and the second number, so the second
      operator and the third number are never read; when t is zero it starts over with the
      second number, the second operator and the third number. */
  lemma ThreeNumbers(p: Platform, x: real, op1: char, y: real, op2: char, z: real)
    ensures Valor(p, [x, y, z], [op1, op2]) ==
      match ExecutarOperacao(p, x, op1, y)
      case Failure(e) => Failure(e)
      case Success(t) =>
        if t == 0.0 then ExecutarOperacao(p, y, op2, z) else ExecutarOperacao(p, t, op1, y)
  {
    assert Reduce(p, [x, y, z], [op1, op2], 1) ==
      match ExecutarOperacao(p, x, op1, y)
      case Failure(e) => Failure(e)
      case Success(t) => Success(Acc(t, 0));
  }

  /** 1+2*3 folds to 5.0: first 1+2, then the total 3 plus numbers[1] with operators[0]. */
  lemma NoPrecedenceExample(p: Platform)
    ensures Valor(p, [1.0, 2.0, 3.0], "+*") == Success(5.0)
  {
    ThreeNumbers(p, 1.0, '+', 2.0, '*', 3.0);
  }

  /** 2-2*5 folds to 10.0: after 2-2 the total is zero, so the next iteration starts over
      with numbers[1] and operators[1]. */
  lemma ZeroTotalRestartsExample(p: Platform)
    ensures Valor(p, [2.0, 2.0, 5.0], "-*") == Success(10.0)
  {
    ThreeNumbers(p, 2.0, '-', 2.0, '*', 5.0);
  }
}
