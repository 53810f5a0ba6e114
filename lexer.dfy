/** The two scans of the input text (obterOperadores and obterNumeros) and the specification
    they are proved against: the text cut at every operator character. */
module Lexer {
  import opened Runtime
  import opened Operacoes

  /** `t` holds no operator character (SemOperadorMeaning states it index by index). */
  predicate SemOperador(t: string) {
    Operators(t) == []
  }

  /** The operator characters of `s`, in input order. */
  function Operators(s: string): (ops: string)
    ensures |ops| <= |s|
    ensures forall k :: 0 <= k < |ops| ==> IsOperador(ops[k])
  {
    if s == [] then []
    else
      Operators(s[..|s| - 1]) + (if IsOperador(s[|s| - 1]) then [s[|s| - 1]] else [])
  }

  /** `s` cut at every operator character: one piece more than there are operators, empty
      pieces (before a leading operator, between two adjacent ones, after a trailing one)
      included. */
  function Segments(s: string): (segs: seq<string>)
    ensures |segs| == |Operators(s)| + 1
  {
    if s == [] then [[]]
    else
      var prev := Segments(s[..|s| - 1]);
      var c := s[|s| - 1];
      if IsOperador(c) then prev + [[]]
      else prev[..|prev| - 1] + [prev[|prev| - 1] + [c]]
  }

  /** The inverse of the cut: the pieces with the operators put back between them. */
  function Join(segs: seq<string>, ops: string): string
    requires |segs| == |ops| + 1
  {
    if |ops| == 0 then segs[0]
    else Join(segs[..|segs| - 1], ops[..|ops| - 1]) + [ops[|ops| - 1]] + segs[|segs| - 1]
  }

  /** The pieces that are not empty, in order. */
  function NonEmpty(segs: seq<string>): (runs: seq<string>)
    ensures |runs| <= |segs|
  {
    if segs == [] then []
    else
      var last := segs[|segs| - 1];
      NonEmpty(segs[..|segs| - 1]) + (if last == [] then [] else [last])
  }

  /** The maximal non-empty runs of non-operator characters of `s`, in input order. */
  function Runs(s: string): (runs: seq<string>)
    ensures |runs| <= |Operators(s)| + 1
  {
    NonEmpty(Segments(s))
  }

  /** Double.valueOf applied to each run from left to right: all the values, or the
      NumberFormatException of the first run that does not parse. */
  function ParseRuns(p: Platform, runs: seq<string>): (r: Result<seq<real>, JavaException>)
    ensures r.Success? ==> |r.value| == |runs|
    ensures r.Failure? ==> r.error.NumberFormatException?
  {
    if runs == [] then Success([])
    else
      match ParseRuns(p, runs[..|runs| - 1])
      case Failure(e) => Failure(e)
      case Success(xs) =>
        match p.valueOf(runs[|runs| - 1])
        case Failure(m) => Failure(NumberFormatException(m))
        case Success(x) => Success(xs + [x])
  }

  /** Run k is the first run Double.valueOf rejects. */
  predicate FirstUnparsable(p: Platform, runs: seq<string>, k: int) {
    0 <= k < |runs| && p.valueOf(runs[k]).Failure? &&
    forall m :: 0 <= m < k ==> p.valueOf(runs[m]).Success?
  }

  /** Parsing the runs succeeds exactly when every run parses, and then gives each run's value
      in order; otherwise it fails with the message of the first run that does not parse. */
  lemma {:induction false} ParseRunsMeaning(p: Platform, runs: seq<string>)
    ensures ParseRuns(p, runs).Success? <==> forall k :: 0 <= k < |runs| ==> p.valueOf(runs[k]).Success?
    ensures ParseRuns(p, runs).Success? ==>
      forall k :: 0 <= k < |runs| ==> p.valueOf(runs[k]) == Success(ParseRuns(p, runs).value[k])
    ensures ParseRuns(p, runs).Failure? ==>
      exists k :: FirstUnparsable(p, runs, k) &&
        ParseRuns(p, runs).error == NumberFormatException(p.valueOf(runs[k]).error)
  {
    if runs != [] {
      var n := |runs| - 1;
      var init := runs[..n];
      ParseRunsMeaning(p, init);
      assert forall k :: 0 <= k < n ==> init[k] == runs[k];
      match ParseRuns(p, init)
      case Failure(e) => {
        var k :| FirstUnparsable(p, init, k) && e == NumberFormatException(p.valueOf(init[k]).error);
        assert FirstUnparsable(p, runs, k);
      }
      case Success(xs) => {
        if p.valueOf(runs[n]).Failure? {
          assert FirstUnparsable(p, runs, n);
        }
      }
    }
  }

  /** What obterNumeros returns for `s`. */
  function Numbers(p: Platform, s: string): (r: Result<seq<real>, JavaException>)
    ensures r.Success? ==> |r.value| == |Runs(s)| <= |Operators(s)| + 1
    ensures r.Failure? ==> r.error.NumberFormatException?
  {
    ParseRuns(p, Runs(s))
  }

  /** obterOperadores: collect the operator characters of the expression. */
  method ObterOperadores(expressao: string) returns (listaOperadores: string)
    ensures listaOperadores == Operators(expressao)
  {
    listaOperadores := [];
    var i := 0;
    while i < |expressao|
      invariant 0 <= i <= |expressao|
      invariant listaOperadores == Operators(expressao[..i])
    {
      assert expressao[..i + 1][..i] == expressao[..i];
      if IsOperador(expressao[i]) {
        listaOperadores := listaOperadores + [expressao[i]];
      }
      i := i + 1;
    }
    assert expressao[..i] == expressao;
  }

  /** The pieces of `s` already closed by an operator: all but the last. */
  function Closed(s: string): seq<string> {
    var segs := Segments(s);
    segs[..|segs| - 1]
  }

  /** The last piece of `s`: the characters read since the last operator. */
  function Pending(s: string): string {
    var segs := Segments(s);
    segs[|segs| - 1]
  }

  /** obterNumeros: scan the expression with a buffer that is parsed and cleared at each
      operator character (when non-empty) and once more at the end. */
  method ObterNumeros(p: Platform, expressao: string) returns (r: Result<seq<real>, JavaException>)
    ensures r == Numbers(p, expressao)
  {
    var listaNumeros: seq<real> := [];
    var numToStr: string := [];
    var i := 0;
    ScanStart(p, expressao);
    while i < |expressao|
      invariant 0 <= i <= |expressao|
      invariant numToStr == Pending(expressao[..i])
      invariant ParseRuns(p, NonEmpty(Closed(expressao[..i]))) == Success(listaNumeros)
    {
      var c := expressao[i];
      assert expressao[..i + 1] == expressao[..i] + [c];
      ScanStep(p, expressao[..i], c, listaNumeros);
      if IsOperador(c) {
        if |numToStr| > 0 {
          var numero := p.valueOf(numToStr);
          if numero.Failure? {
            ScanFailureIsFinal(p, expressao, i + 1);
            return Failure(NumberFormatException(numero.error));
          }
          listaNumeros := listaNumeros + [numero.value];
          numToStr := [];
        }
      } else {
        numToStr := numToStr + [c];
      }
      i := i + 1;
    }
    assert expressao[..i] == expressao;
    ScanEnd(p, expressao, listaNumeros);
    if |numToStr| > 0 {
      var numero := p.valueOf(numToStr);
      if numero.Failure? {
        return Failure(NumberFormatException(numero.error));
      }
      listaNumeros := listaNumeros + [numero.value];
    }
    r := Success(listaNumeros);
  }

  /** The pieces of a text are its closed pieces followed by its pending one. */
  lemma SegmentsSplit(y: string)
    ensures Segments(y) == Closed(y) + [Pending(y)]
  {
  }

  /** Appending one character: an operator closes the pending piece and opens an empty one;
      any other character extends the pending piece. */
  lemma Snoc(y: string, c: char)
    ensures Operators(y + [c]) == Operators(y) + (if IsOperador(c) then [c] else [])
    ensures IsOperador(c) ==> Closed(y + [c]) == Closed(y) + [Pending(y)] && Pending(y + [c]) == []
    ensures !IsOperador(c) ==> Closed(y + [c]) == Closed(y) && Pending(y + [c]) == Pending(y) + [c]
  {
    assert (y + [c])[..|y|] == y;
  }

  /** Before the scan: no piece closed, an empty buffer, no number. */
  lemma ScanStart(p: Platform, s: string)
    ensures Closed(s[..0]) == [] && Pending(s[..0]) == []
    ensures ParseRuns(p, NonEmpty(Closed(s[..0]))) == Success([])
  {
    assert s[..0] == [];
  }

  /** One iteration of the scan, in terms of the pieces of the text read so far. */
  lemma ScanStep(p: Platform, y: string, c: char, numbers: seq<real>)
    requires ParseRuns(p, NonEmpty(Closed(y))) == Success(numbers)
    ensures !IsOperador(c) ==>
      Pending(y + [c]) == Pending(y) + [c] && ParseRuns(p, NonEmpty(Closed(y + [c]))) == Success(numbers)
    ensures IsOperador(c) ==> Pending(y + [c]) == []
    ensures IsOperador(c) && Pending(y) == [] ==> ParseRuns(p, NonEmpty(Closed(y + [c]))) == Success(numbers)
    ensures IsOperador(c) && Pending(y) != [] && p.valueOf(Pending(y)).Success? ==>
      ParseRuns(p, NonEmpty(Closed(y + [c]))) == Success(numbers + [p.valueOf(Pending(y)).value])
    ensures IsOperador(c) && Pending(y) != [] && p.valueOf(Pending(y)).Failure? ==>
      ParseRuns(p, NonEmpty(Closed(y + [c]))) == Failure(NumberFormatException(p.valueOf(Pending(y)).error))
  {
    Snoc(y, c);
    if IsOperador(c) {
      var closed, pending := Closed(y), Pending(y);
      NonEmptySnoc(closed, pending);
      if pending != [] {
        ParseRunsSnoc(p, NonEmpty(closed), pending);
      } else {
        assert NonEmpty(closed) + [] == NonEmpty(closed);
      }
    }
  }

  /** After the scan: the pending buffer is the last run, if it is not empty. */
  lemma ScanEnd(p: Platform, s: string, numbers: seq<real>)
    requires ParseRuns(p, NonEmpty(Closed(s))) == Success(numbers)
    ensures Pending(s) == [] ==> Numbers(p, s) == Success(numbers)
    ensures Pending(s) != [] && p.valueOf(Pending(s)).Success? ==>
      Numbers(p, s) == Success(numbers + [p.valueOf(Pending(s)).value])
    ensures Pending(s) != [] && p.valueOf(Pending(s)).Failure? ==>
      Numbers(p, s) == Failure(NumberFormatException(p.valueOf(Pending(s)).error))
  {
    var closed, pending := Closed(s), Pending(s);
    SegmentsSplit(s);
    NonEmptySnoc(closed, pending);
    if pending != [] {
      ParseRunsSnoc(p, NonEmpty(closed), pending);
    } else {
      assert NonEmpty(closed) + [] == NonEmpty(closed);
    }
  }

  lemma NonEmptySnoc(segs: seq<string>, last: string)
    ensures NonEmpty(segs + [last]) == NonEmpty(segs) + (if last == [] then [] else [last])
  {
    assert (segs + [last])[..|segs|] == segs;
  }

  lemma ParseRunsSnoc(p: Platform, runs: seq<string>, last: string)
    ensures ParseRuns(p, runs + [last]) ==
      match ParseRuns(p, runs)
      case Failure(e) => Failure(e)
      case Success(xs) =>
        match p.valueOf(last)
        case Failure(m) => Failure(NumberFormatException(m))
        case Success(x) => Success(xs + [x])
  {
    assert (runs + [last])[..|runs|] == runs;
  }

  /** Cutting never reopens a closed piece: the closed pieces of a prefix are a prefix of the
      pieces of the whole text. */
  lemma {:induction false} ClosedIsPrefix(s: string, i: nat)
    requires i <= |s|
    ensures Closed(s[..i]) <= Segments(s)
    decreases |s| - i
  {
    if i == |s| {
      assert s[..i] == s;
      SegmentsSplit(s);
    } else {
      assert s[..i + 1] == s[..i] + [s[i]];
      Snoc(s[..i], s[i]);
      ClosedIsPrefix(s, i + 1);
    }
  }

  /** Dropping the empty pieces works piece by piece: it keeps order and repeated pieces. */
  lemma {:induction false} NonEmptyAppend(a: seq<string>, b: seq<string>)
    ensures NonEmpty(a + b) == NonEmpty(a) + NonEmpty(b)
    decreases |b|
  {
    if b == [] {
      assert a + b == a;
    } else {
      assert (a + b)[..|a + b| - 1] == a + b[..|b| - 1];
      NonEmptyAppend(a, b[..|b| - 1]);
    }
  }

  /** Parsing stops at the first run that does not parse: what follows is never looked at. */
  lemma {:induction false} ParseRunsFailureIsFinal(p: Platform, a: seq<string>, b: seq<string>)
    requires ParseRuns(p, a).Failure?
    ensures ParseRuns(p, a + b) == ParseRuns(p, a)
    decreases |b|
  {
    if b == [] {
      assert a + b == a;
    } else {
      assert (a + b)[..|a + b| - 1] == a + b[..|b| - 1];
      ParseRunsFailureIsFinal(p, a, b[..|b| - 1]);
    }
  }

  /** A run that fails to parse while scanning decides the result of the whole scan. */
  lemma ScanFailureIsFinal(p: Platform, s: string, i: nat)
    requires i <= |s|
    requires ParseRuns(p, NonEmpty(Closed(s[..i]))).Failure?
    ensures Numbers(p, s) == ParseRuns(p, NonEmpty(Closed(s[..i])))
  {
    var closed := Closed(s[..i]);
    ClosedIsPrefix(s, i);
    var rest := Segments(s)[|closed|..];
    assert Segments(s) == closed + rest;
    NonEmptyAppend(closed, rest);
    ParseRunsFailureIsFinal(p, NonEmpty(closed), NonEmpty(rest));
  }

  /** Collecting operators distributes over concatenation; with the one-character case this
      says the result is exactly the operator characters of the input, in input order. */
  lemma {:induction false} OperatorsAppend(a: string, b: string)
    ensures Operators(a + b) == Operators(a) + Operators(b)
    ensures Operators([]) == [] && (|b| == 1 ==> Operators(b) == if IsOperador(b[0]) then b else [])
    decreases |b|
  {
    if b == [] {
      assert a + b == a;
    } else {
      assert (a + b)[..|a + b| - 1] == a + b[..|b| - 1];
      assert [] + b == b;
      OperatorsAppend(a, b[..|b| - 1]);
    }
  }

  /** Each operator character occurs in the result as often as in the input, and no other
      character occurs in it. */
  lemma {:induction false} OperatorsCount(s: string, c: char)
    ensures multiset(Operators(s))[c] == if IsOperador(c) then multiset(s)[c] else 0
  {
    if s != [] {
      OperatorsCount(s[..|s| - 1], c);
      assert s == s[..|s| - 1] + [s[|s| - 1]];
    }
  }

  /** Growing the last piece by one character grows the joined text by that character. */
  lemma JoinExtendLast(segs: seq<string>, ops: string, c: char)
    requires |segs| == |ops| + 1
    ensures Join(segs[..|segs| - 1] + [segs[|segs| - 1] + [c]], ops) == Join(segs, ops) + [c]
  {
    var grown := segs[..|segs| - 1] + [segs[|segs| - 1] + [c]];
    if |ops| > 0 {
      assert grown[..|grown| - 1] == segs[..|segs| - 1];
    }
  }

  /** Round trip: putting the operators back between the pieces gives the input again. */
  lemma {:induction false} JoinSegments(s: string)
    ensures Join(Segments(s), Operators(s)) == s
  {
    if s != [] {
      var init, c := s[..|s| - 1], s[|s| - 1];
      var prev, ops := Segments(init), Operators(init);
      JoinSegments(init);
      if IsOperador(c) {
        var segs := prev + [[]];
        assert segs[..|segs| - 1] == prev;
        assert (ops + [c])[..|ops|] == ops;
        assert Join(segs, ops + [c]) == init + [c];
      } else {
        assert Operators(s) == ops + [] == ops;
        JoinExtendLast(prev, ops, c);
      }
      assert init + [c] == s;
    } else {
      assert Segments(s) == [[]] && Operators(s) == [];
    }
  }

  /** Appending characters that are no operators only extends the pending piece. */
  lemma {:induction false} AppendPlain(y: string, t: string)
    requires SemOperador(t)
    ensures Closed(y + t) == Closed(y) && Pending(y + t) == Pending(y) + t
    ensures Operators(y + t) == Operators(y)
    decreases |t|
  {
    if t == [] {
      assert y + t == y;
    } else {
      var t0, c := t[..|t| - 1], t[|t| - 1];
      AppendPlain(y, t0);
      assert y + t == (y + t0) + [c];
      Snoc(y + t0, c);
      assert Pending(y) + t0 + [c] == Pending(y) + t;
    }
  }

  /** Round trip the other way: cutting a text made of operator-free pieces joined by
      operators gives back exactly those pieces and those operators. */
  lemma {:induction false} SegmentsJoin(segs: seq<string>, ops: string)
    requires |segs| == |ops| + 1
    requires forall k :: 0 <= k < |segs| ==> SemOperador(segs[k])
    requires forall k :: 0 <= k < |ops| ==> IsOperador(ops[k])
    ensures Segments(Join(segs, ops)) == segs
    ensures Operators(Join(segs, ops)) == ops
  {
    if |ops| == 0 {
      PlainText(segs[0]);
    } else {
      var init, opsInit := segs[..|segs| - 1], ops[..|ops| - 1];
      SegmentsJoin(init, opsInit);
      OperatorThenPlain(Join(init, opsInit), ops[|ops| - 1], segs[|segs| - 1]);
      SplitLast(segs);
      SplitLast(ops);
    }
  }

  /** A non-empty sequence is its prefix followed by its last element. */
  lemma SplitLast<T>(s: seq<T>)
    requires s != []
    ensures s[..|s| - 1] + [s[|s| - 1]] == s
  {
  }

  /** An operator-free text is a single piece. */
  lemma PlainText(t: string)
    requires SemOperador(t)
    ensures Segments(t) == [t] && Operators(t) == []
  {
    AppendPlain([], t);
    assert [] + t == t;
    SegmentsSplit(t);
  }

  /** An operator followed by an operator-free text adds exactly one piece and one operator. */
  lemma OperatorThenPlain(x: string, o: char, t: string)
    requires IsOperador(o) && SemOperador(t)
    ensures Segments(x + [o] + t) == Segments(x) + [t]
    ensures Operators(x + [o] + t) == Operators(x) + [o]
  {
    SegmentsSplit(x);
    Snoc(x, o);
    AppendPlain(x + [o], t);
    SegmentsSplit(x + [o] + t);
    assert [] + t == t;
  }

  /** Pieces that are all non-empty are all kept. */
  lemma {:induction false} NonEmptyKeepsAll(segs: seq<string>)
    requires forall k :: 0 <= k < |segs| ==> segs[k] != []
    ensures NonEmpty(segs) == segs
  {
    if segs != [] {
      NonEmptyKeepsAll(segs[..|segs| - 1]);
      assert segs[..|segs| - 1] + [segs[|segs| - 1]] == segs;
    }
  }

  /** A well-formed expression (non-empty operator-free pieces joined by operators) scans to
      exactly its pieces and its operators. */
  lemma WellFormedScan(segs: seq<string>, ops: string)
    requires |segs| == |ops| + 1
    requires forall k :: 0 <= k < |segs| ==> segs[k] != [] && SemOperador(segs[k])
    requires forall k :: 0 <= k < |ops| ==> IsOperador(ops[k])
    ensures Runs(Join(segs, ops)) == segs
    ensures Operators(Join(segs, ops)) == ops
  {
    SegmentsJoin(segs, ops);
    NonEmptyKeepsAll(segs);
  }

  /** Every piece is free of operators. */
  lemma {:induction false} SegmentsOperatorFree(s: string)
    ensures forall k :: 0 <= k < |Segments(s)| ==> SemOperador(Segments(s)[k])
  {
    if s != [] {
      var y, c := s[..|s| - 1], s[|s| - 1];
      SegmentsOperatorFree(y);
      assert y + [c] == s;
      SegmentsSplit(y);
      SegmentsSplit(s);
      Snoc(y, c);
      assert SemOperador(Pending(y));
    }
  }

  /** As sets, the pieces kept are exactly the non-empty ones (NonEmptyAppend and NonEmptySnoc
      give order and repeats). */
  lemma {:induction false} NonEmptyMembers(segs: seq<string>)
    ensures forall k :: 0 <= k < |NonEmpty(segs)| ==> NonEmpty(segs)[k] != [] && NonEmpty(segs)[k] in segs
    ensures forall t :: t in segs && t != [] ==> t in NonEmpty(segs)
  {
    if segs != [] {
      var init, last := segs[..|segs| - 1], segs[|segs| - 1];
      NonEmptyMembers(init);
      assert init + [last] == segs;
      NonEmptySnoc(init, last);
    }
  }

  /** The runs are the non-empty operator-free pieces of the text: each is non-empty and
      contains no operator, and every non-empty piece is a run. */
  lemma RunsShape(s: string)
    ensures forall k :: 0 <= k < |Runs(s)| ==> Runs(s)[k] != [] && SemOperador(Runs(s)[k])
    ensures forall t :: t in Segments(s) && t != [] ==> t in Runs(s)
  {
    SegmentsOperatorFree(s);
    NonEmptyMembers(Segments(s));
  }

  /** A text is operator-free exactly when none of its characters is an operator. */
  lemma {:induction false} SemOperadorMeaning(t: string)
    ensures SemOperador(t) <==> forall k :: 0 <= k < |t| ==> !IsOperador(t[k])
  {
    if t != [] {
      var t0 := t[..|t| - 1];
      SemOperadorMeaning(t0);
      assert forall k :: 0 <= k < |t0| ==> t0[k] == t[k];
    }
  }
}
