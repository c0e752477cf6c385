// The two recursive-descent evaluators side by side. On text with no letters
// and no sign (every '-' follows an operand), the lexer of the second parser
// reads the same lexemes as the first one, so both compute the same value;
// the second one only rounds it to two decimal places.

module DescentAgreement {
  import opened Errors
  import opened Text
  import Numbers
  import MathParsing
  import S = SimpleDescent
  import C = CalculatorDescent
  import opened Terms
  import ArithTexts

  /** No character of the text starts a word. */
  predicate NoLetters(e: string)
  {
    forall k :: 0 <= k < |e| ==> !IsLetter(e[k])
  }

  /** Every '-' of the text is a binary minus: it follows a character that is no delimiter. */
  predicate Unsigned(e: string)
  {
    forall k :: 0 <= k < |e| && e[k] == '-' ==> 0 < k && !S.IsDelimiter(e[k - 1])
  }

  /** The text both parsers read alike. */
  predicate Plain(e: string)
  {
    NoLetters(e) && Unsigned(e)
  }

  /** A cursor of the first parser and one of the second on the same text, at the same lexeme, with no sign pending. */
  predicate Match(e: string, s: S.Cursor, c: C.Cursor)
  {
    S.Consistent(e, s) &&
    c.text == e && c.index == s.index && c.lexeme == s.lexeme && c.unary != '-' &&
    (s.lexemeType == S.NoType <==> c.lexemeType == C.NoType) &&
    (s.lexemeType == S.Delimiter <==> c.lexemeType == C.Delimiter) &&
    (s.lexemeType == S.Number <==> c.lexemeType == C.Number)
  }

  /** Two results of a grammar level: both fail with the same error, or both give the same value at matching cursors. */
  predicate Agree(e: string, r: Result<(real, S.Cursor)>, q: Result<(real, C.Cursor)>)
  {
    (r.Ok? <==> q.Ok?) &&
    (r.Err? ==> q.error == r.error) &&
    (r.Ok? ==> q.value.0 == r.value.0 && Match(e, r.value.1, q.value.1))
  }

  /** On plain text, getLexeme of the second parser reads the lexeme the first one reads, and leaves no sign. */
  lemma {:induction false} LexAgrees(lib: MathParsing.MathLib, e: string, i: nat, u: char)
    requires C.WritesNoBracket(lib) && Plain(e)
    requires i <= |e| && u != '-'
    ensures C.Lex(lib, e, i, u).Ok?
    ensures Match(e, S.Lex(e, i), C.Lex(lib, e, i, u).value)
  {
    if i < |e| && IsDigit(e[i]) {
      assert S.DelimiterFrom(e, i) == S.DelimiterFrom(e, i + 1);
      S.LexText(e, i);
    }
  }

  /** addOrSubtractTwoTerms of both parsers. */
  lemma {:induction false} SumAgrees(lib: MathParsing.MathLib, e: string, s: S.Cursor, c: C.Cursor)
    requires C.WritesNoBracket(lib) && Plain(e) && Match(e, s, c)
    ensures Agree(e, S.Sum(e, s), C.Sum(lib, c))
    decreases S.Rest(e, s), 3
  {
    ProductAgrees(lib, e, s, c);
    var x := S.Product(e, s);
    if x.Ok? {
      SumRestAgrees(lib, e, x.value.0, x.value.1, C.Product(lib, c).value.1);
    }
  }

  /** The loop of addOrSubtractTwoTerms in both parsers. */
  lemma {:induction false} SumRestAgrees(lib: MathParsing.MathLib, e: string, acc: real, s: S.Cursor, c: C.Cursor)
    requires C.WritesNoBracket(lib) && Plain(e) && Match(e, s, c)
    ensures Agree(e, S.SumRest(e, acc, s), C.SumRest(lib, acc, c))
    decreases S.Rest(e, s), 2
  {
    if s.lexeme != [] && (s.lexeme[0] == '+' || s.lexeme[0] == '-') {
      LexAgrees(lib, e, c.index, c.unary);
      var s1 := S.Lex(e, s.index);
      var c1 := C.Next(lib, c).value;
      ProductAgrees(lib, e, s1, c1);
      var x := S.Product(e, s1);
      if x.Ok? {
        SumRestAgrees(lib, e, S.Arith(s.lexeme[0], acc, x.value.0), x.value.1, C.Product(lib, c1).value.1);
      }
    }
  }

  /** multiplyOrDivideTwoFactors of both parsers. */
  lemma {:induction false} ProductAgrees(lib: MathParsing.MathLib, e: string, s: S.Cursor, c: C.Cursor)
    requires C.WritesNoBracket(lib) && Plain(e) && Match(e, s, c)
    ensures Agree(e, S.Product(e, s), C.Product(lib, c))
    decreases S.Rest(e, s), 2
  {
    FactorAgrees(lib, e, s, c);
    var x := S.Factor(e, s);
    if x.Ok? {
      ProductRestAgrees(lib, e, x.value.0, x.value.1, C.Factor(lib, c).value.1);
    }
  }

  /** The loop of multiplyOrDivideTwoFactors in both parsers, division by zero included. */
  lemma {:induction false} ProductRestAgrees(lib: MathParsing.MathLib, e: string, acc: real, s: S.Cursor, c: C.Cursor)
    requires C.WritesNoBracket(lib) && Plain(e) && Match(e, s, c)
    ensures Agree(e, S.ProductRest(e, acc, s), C.ProductRest(lib, acc, c))
    decreases S.Rest(e, s), 1
  {
    if s.lexeme != [] && (s.lexeme[0] == '*' || s.lexeme[0] == '/') {
      LexAgrees(lib, e, c.index, c.unary);
      var s1 := S.Lex(e, s.index);
      var c1 := C.Next(lib, c).value;
      FactorAgrees(lib, e, s1, c1);
      var x := S.Factor(e, s1);
      if x.Ok? && !(s.lexeme[0] == '/' && x.value.0 == 0.0) {
        ProductRestAgrees(lib, e, S.Arith(s.lexeme[0], acc, x.value.0), x.value.1, C.Factor(lib, c1).value.1);
      }
    }
  }

  /** evaluateInsideBrackets of both parsers. */
  lemma {:induction false} FactorAgrees(lib: MathParsing.MathLib, e: string, s: S.Cursor, c: C.Cursor)
    requires C.WritesNoBracket(lib) && Plain(e) && Match(e, s, c)
    ensures Agree(e, S.Factor(e, s), C.Factor(lib, c))
    decreases S.Rest(e, s), 1
  {
    if s.lexeme == "(" {
      LexAgrees(lib, e, c.index, c.unary);
      var s1 := S.Lex(e, s.index);
      var c1 := C.Next(lib, c).value;
      SumAgrees(lib, e, s1, c1);
      var x := S.Sum(e, s1);
      if x.Ok? && x.value.1.lexeme == ")" {
        var y := C.Sum(lib, c1).value.1;
        LexAgrees(lib, e, y.index, y.unary);
      }
    } else {
      NumberValueAgrees(lib, e, s, c);
    }
  }

  /** getNumberValue of both parsers. */
  lemma {:induction false} NumberValueAgrees(lib: MathParsing.MathLib, e: string, s: S.Cursor, c: C.Cursor)
    requires C.WritesNoBracket(lib) && Plain(e) && Match(e, s, c)
    ensures Agree(e, S.NumberValue(e, s), C.NumberValue(lib, c))
    decreases S.Rest(e, s), 0
  {
    if s.lexemeType == S.Number && Numbers.ParseDouble(s.lexeme).Ok? {
      LexAgrees(lib, e, c.index, c.unary);
    }
  }

  /**
   * getExpressionResult of a fresh second parser over text that is plain once
   * its whitespace is gone: the value of the first parser rounded to two
   * decimal places, or the same error.
   */
  lemma {:induction false} ExpressionAgrees(lib: MathParsing.MathLib, expression: string, lexeme: string, t: C.LexemeType, u: char)
    requires C.WritesNoBracket(lib) && Plain(StripWhitespace(expression)) && u != '-'
    ensures C.ValueOf(C.ExpressionResult(lib, C.Cursor(expression, 0, lexeme, t, u)))
      == Numbers.Round2Result(S.DescentResult(expression, 0))
  {
    var e := StripWhitespace(expression);
    LexAgrees(lib, e, 0, u);
    var s := S.Lex(e, 0);
    if s.lexeme != S.EOE {
      SumAgrees(lib, e, s, C.Lex(lib, e, 0, u).value);
    }
  }

  // ------------------------------------------ numbers joined by operators

  /** Text ending in a digit, followed by an operator and a number, stays plain. */
  lemma {:induction false} JoinedPlain(e1: string, op: char, e2: string)
    requires Plain(e1) && NoWhitespace(e1) && e1 != [] && IsDigit(e1[|e1| - 1])
    requires IsOperator(op) && AllDigits(e2) && e2 != []
    ensures Plain(e1 + [op] + e2) && NoWhitespace(e1 + [op] + e2)
    ensures IsDigit((e1 + [op] + e2)[|e1 + [op] + e2| - 1])
  {
    var e := e1 + [op] + e2;
    assert forall k :: |e1| < k < |e| ==> e[k] == e2[k - |e1| - 1];
    assert forall k :: 0 <= k < |e1| ==> e[k] == e1[k];
    forall k | 0 <= k < |e| && e[k] == '-'
      ensures 0 < k && !S.IsDelimiter(e[k - 1])
    {
    }
  }

  /** A number's digits are plain. */
  lemma {:induction false} NumberPlain(n: nat)
    ensures Plain(NatToString(n)) && NoWhitespace(NatToString(n))
    ensures IsDigit(NatToString(n)[|NatToString(n)| - 1])
  {
    var d := NatToString(n);
    assert forall k :: 0 <= k < |d| ==> IsDigit(d[k]);
  }

  /**
   * Two numbers joined by an operator: the second evaluator gives the
   * operation's value, rounded to two decimal places, or its error.
   */
  lemma {:induction false} PairAgrees(lib: MathParsing.MathLib, a: nat, op: char, b: nat,
                                      lexeme: string, t: C.LexemeType, u: char)
    requires C.WritesNoBracket(lib) && IsOperator(op) && u != '-'
    ensures C.ValueOf(C.ExpressionResult(lib, C.Cursor(NatToString(a) + [op] + NatToString(b), 0, lexeme, t, u)))
      == Numbers.Round2Result(Combine(op, Ok(a as real), Ok(b as real)))
  {
    var e := NatToString(a) + [op] + NatToString(b);
    NumberPlain(a);
    JoinedPlain(NatToString(a), op, NatToString(b));
    StripWhitespaceKeepsStripped(e);
    ExpressionAgrees(lib, e, lexeme, t, u);
    ArithTexts.PairValue(Leaf(a), op, Leaf(b));
  }

  /**
   * Three numbers joined by two operators: the second evaluator groups them
   * as the first one does, '*' and '/' before '+' and '-', from the left.
   */
  lemma {:induction false} ChainAgrees(lib: MathParsing.MathLib, a: nat, o1: char, b: nat, o2: char, c: nat,
                                       lexeme: string, t: C.LexemeType, u: char)
    requires C.WritesNoBracket(lib) && IsOperator(o1) && IsOperator(o2) && u != '-'
    ensures WellFormed(ArithTexts.Grouped(Leaf(a), o1, Leaf(b), o2, Leaf(c)))
    ensures C.ValueOf(C.ExpressionResult(lib, C.Cursor(NatToString(a) + [o1] + NatToString(b) + [o2] + NatToString(c), 0, lexeme, t, u)))
      == Numbers.Round2Result(Eval(ArithTexts.Grouped(Leaf(a), o1, Leaf(b), o2, Leaf(c))))
  {
    var p := NatToString(a) + [o1] + NatToString(b);
    var e := p + [o2] + NatToString(c);
    NumberPlain(a);
    JoinedPlain(NatToString(a), o1, NatToString(b));
    JoinedPlain(p, o2, NatToString(c));
    StripWhitespaceKeepsStripped(e);
    ExpressionAgrees(lib, e, lexeme, t, u);
    ArithTexts.ChainValue(Leaf(a), o1, Leaf(b), o2, Leaf(c));
  }
}
