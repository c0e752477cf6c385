// The texts of the first recursive-descent evaluator's tests, read through
// the general results about unbracketed texts: blanks are stripped first,
// then '*' and '/' bind first and each level groups from left to right.

module DescentTexts {
  import opened Errors
  import opened Text
  import S = SimpleDescent
  import opened Terms
  import opened ArithTexts

  /** Words with one blank between neighbours. */
  function Spaced(words: seq<string>): string
  {
    if |words| <= 1 then Joined(words) else words[0] + " " + Spaced(words[1..])
  }

  /** Words side by side. */
  function Joined(words: seq<string>): string
  {
    if words == [] then [] else words[0] + Joined(words[1..])
  }

  predicate Words(words: seq<string>)
  {
    forall k :: 0 <= k < |words| ==> NoWhitespace(words[k])
  }

  /** One blank between a stripped part and the rest disappears. */
  lemma {:induction false} StripSpace(a: string, b: string)
    requires NoWhitespace(a)
    ensures StripWhitespace(a + " " + b) == a + StripWhitespace(b)
  {
    StripWhitespaceAppend(a + " ", b);
    StripWhitespaceAppend(a, " ");
    StripWhitespaceKeepsStripped(a);
    assert StripWhitespace(" ") == [];
    assert a + [] == a;
  }

  /** Stripping the blanks between words leaves the words side by side. */
  lemma {:induction false} StripSpaced(words: seq<string>)
    requires Words(words)
    ensures StripWhitespace(Spaced(words)) == Joined(words)
    decreases |words|
  {
    if |words| <= 1 {
      if words != [] {
        assert words[1..] == [];
        assert Joined(words) == words[0] + [];
        assert words[0] + [] == words[0];
        StripWhitespaceKeepsStripped(words[0]);
      }
    } else {
      assert Words(words[1..]) by {
        forall k | 0 <= k < |words[1..]|
          ensures NoWhitespace(words[1..][k])
        {
          assert words[1..][k] == words[k + 1];
        }
      }
      StripSpaced(words[1..]);
      StripSpace(words[0], Spaced(words[1..]));
    }
  }

  /** "2 +2" without its blanks. */
  lemma {:induction false} AddStripped(text: string)
    requires text == "2 +2"
    ensures StripWhitespace(text) == "2+2"
  {
    var words := ["2", "+2"];
    assert Spaced(words) == text;
    assert Joined(words) == "2+2";
    StripSpaced(words);
  }

  /** "2 +2" is 4. */
  lemma {:induction false} AddText(text: string)
    requires text == "2 +2"
    ensures S.DescentResult(text, 0) == Ok(4.0)
  {
    AddStripped(text);
    DescentIgnoresWhitespace(text);
    assert Print(Leaf(2)) + ['+'] + Print(Leaf(2)) == "2+2";
    PairValue(Leaf(2), '+', Leaf(2));
  }

  /** "20- 4" without its blanks. */
  lemma {:induction false} SubtractStripped(text: string)
    requires text == "20- 4"
    ensures StripWhitespace(text) == "20-4"
  {
    var words := ["20-", "4"];
    assert Spaced(words) == text;
    assert Joined(words) == "20-4";
    StripSpaced(words);
  }

  /** "20- 4" is 16. */
  lemma {:induction false} SubtractText(text: string)
    requires text == "20- 4"
    ensures S.DescentResult(text, 0) == Ok(16.0)
  {
    SubtractStripped(text);
    DescentIgnoresWhitespace(text);
    assert NatToString(20) == "20";
    assert Print(Leaf(20)) + ['-'] + Print(Leaf(4)) == "20-4";
    PairValue(Leaf(20), '-', Leaf(4));
  }

  /** The sum "20-4+5-10", grouped from the left. */
  lemma {:induction false} AddSubtractSum() returns (s: Sum)
    ensures SumOk(s) && SumText(s) == "20-4+5-10"
    ensures SumTerm(s) == Bin('-', Bin('+', Bin('-', Leaf(20), Leaf(4)), Leaf(5)), Leaf(10))
  {
    var s0 := PairSum(Leaf(20), '-', Leaf(4));
    var s1 := SumSnoc(s0, '+', Leaf(5));
    s := SumSnoc(s1, '-', Leaf(10));
    assert NatToString(20) == "20";
    assert NatToString(10) == "10";
  }

  /** ((20 - 4) + 5) - 10 is 11. */
  lemma {:induction false} AddSubtractValue()
    ensures WellFormed(Bin('-', Bin('+', Bin('-', Leaf(20), Leaf(4)), Leaf(5)), Leaf(10)))
    ensures Eval(Bin('-', Bin('+', Bin('-', Leaf(20), Leaf(4)), Leaf(5)), Leaf(10))) == Ok(11.0)
  {
    assert Eval(Bin('-', Leaf(20), Leaf(4))) == Ok(16.0);
    assert Eval(Bin('+', Bin('-', Leaf(20), Leaf(4)), Leaf(5))) == Ok(21.0);
  }

  /** "20- 4 + 5 - 10" without its blanks. */
  lemma {:induction false} AddSubtractStripped(text: string)
    requires text == "20- 4 + 5 - 10"
    ensures StripWhitespace(text) == "20-4+5-10"
  {
    var words := ["20-", "4", "+", "5", "-", "10"];
    assert Spaced(words) == text;
    assert Joined(words) == "20-4+5-10";
    StripSpaced(words);
  }

  /** "20- 4 + 5 - 10" is 11: subtraction and addition from left to right. */
  lemma {:induction false} AddSubtractText(text: string)
    requires text == "20- 4 + 5 - 10"
    ensures S.DescentResult(text, 0) == Ok(11.0)
  {
    var s := AddSubtractSum();
    AddSubtractValue();
    AddSubtractStripped(text);
    DescentIgnoresWhitespace(text);
    DescentOfSumText(s);
  }

  /** "5 * 2 *9" without its blanks. */
  lemma {:induction false} MultiplyStripped(text: string)
    requires text == "5 * 2 *9"
    ensures StripWhitespace(text) == "5*2*9"
  {
    var words := ["5", "*", "2", "*9"];
    assert Spaced(words) == text;
    assert Joined(words) == "5*2*9";
    StripSpaced(words);
  }

  /** "5 * 2 *9" is 90: one product, from the left. */
  lemma {:induction false} MultiplyText(text: string)
    requires text == "5 * 2 *9"
    ensures S.DescentResult(text, 0) == Ok(90.0)
  {
    MultiplyStripped(text);
    DescentIgnoresWhitespace(text);
    assert Print(Leaf(5)) + ['*'] + Print(Leaf(2)) + ['*'] + Print(Leaf(9)) == "5*2*9";
    ChainValue(Leaf(5), '*', Leaf(2), '*', Leaf(9));
  }

  /** "13 / 4 " without its blanks. */
  lemma {:induction false} DivideStripped(text: string)
    requires text == "13 / 4 "
    ensures StripWhitespace(text) == "13/4"
  {
    var words := ["13", "/", "4", ""];
    assert Spaced(words) == text;
    assert Joined(words) == "13/4";
    StripSpaced(words);
  }

  /** "13 / 4 " is 3.25: the division is not an integer one. */
  lemma {:induction false} DivideText(text: string)
    requires text == "13 / 4 "
    ensures S.DescentResult(text, 0) == Ok(3.25)
  {
    DivideStripped(text);
    DescentIgnoresWhitespace(text);
    assert NatToString(13) == "13";
    assert Print(Leaf(13)) + ['/'] + Print(Leaf(4)) == "13/4";
    PairValue(Leaf(13), '/', Leaf(4));
  }

  /** "15*20/2 " without its blanks. */
  lemma {:induction false} MultiplyDivideStripped(text: string)
    requires text == "15*20/2 "
    ensures StripWhitespace(text) == "15*20/2"
  {
    var words := ["15*20/2", ""];
    assert Spaced(words) == text;
    assert Joined(words) == "15*20/2";
    StripSpaced(words);
  }

  /** "15*20/2 " is 150: one product, from the left. */
  lemma {:induction false} MultiplyDivideText(text: string)
    requires text == "15*20/2 "
    ensures S.DescentResult(text, 0) == Ok(150.0)
  {
    MultiplyDivideStripped(text);
    DescentIgnoresWhitespace(text);
    assert NatToString(15) == "15" && NatToString(20) == "20";
    assert Print(Leaf(15)) + ['*'] + Print(Leaf(20)) + ['/'] + Print(Leaf(2)) == "15*20/2";
    ChainValue(Leaf(15), '*', Leaf(20), '/', Leaf(2));
  }

  /** "(2 + 2) * 2" without its blanks. */
  lemma {:induction false} BracketsStripped(text: string)
    requires text == "(2 + 2) * 2"
    ensures StripWhitespace(text) == "(2+2)*2"
  {
    var words := ["(2", "+", "2)", "*", "2"];
    assert Spaced(words) == text;
    assert Joined(words) == "(2+2)*2";
    StripSpaced(words);
  }

  /** "(2 + 2) * 2" is 8: the bracket is read first. */
  lemma {:induction false} BracketsText(text: string)
    requires text == "(2 + 2) * 2"
    ensures S.DescentResult(text, 0) == Ok(8.0)
  {
    BracketsStripped(text);
    DescentIgnoresWhitespace(text);
    assert Print(Bin('+', Leaf(2), Leaf(2))) + ['*'] + Print(Leaf(2)) == "(2+2)*2";
    PairValue(Bin('+', Leaf(2), Leaf(2)), '*', Leaf(2));
  }

  /** The product "24/4*5", grouped from the left. */
  lemma {:induction false} AllOperatorsProduct() returns (p: Sum)
    ensures SumOk(p) && SumText(p) == "24/4*5"
    ensures SumTerm(p) == Bin('*', Bin('/', Leaf(24), Leaf(4)), Leaf(5))
  {
    p := ChainProducts(Leaf(24), '/', Leaf(4), '*', Leaf(5));
    assert NatToString(24) == "24";
  }

  /** The sum "24/4*5-(17-9)": the product of 24, 4 and 5 from the left, less the bracket. */
  lemma {:induction false} AllOperatorsSum() returns (s: Sum)
    ensures SumOk(s) && SumText(s) == "24/4*5-(17-9)"
    ensures SumTerm(s) == Bin('-', Bin('*', Bin('/', Leaf(24), Leaf(4)), Leaf(5)), Bin('-', Leaf(17), Leaf(9)))
  {
    var p := AllOperatorsProduct();
    var bracket := Bin('-', Leaf(17), Leaf(9));
    assert Print(bracket) == "(17-9)" by {
      assert NatToString(17) == "17";
    }
    s := SumSnoc(p, '-', bracket);
    assert "24/4*5" + ['-'] + "(17-9)" == "24/4*5-(17-9)";
  }

  /** ((24 / 4) * 5) - (17 - 9) is 22. */
  lemma {:induction false} AllOperatorsValue()
    ensures WellFormed(Bin('-', Bin('*', Bin('/', Leaf(24), Leaf(4)), Leaf(5)), Bin('-', Leaf(17), Leaf(9))))
    ensures Eval(Bin('-', Bin('*', Bin('/', Leaf(24), Leaf(4)), Leaf(5)), Bin('-', Leaf(17), Leaf(9)))) == Ok(22.0)
  {
    assert Eval(Bin('/', Leaf(24), Leaf(4))) == Ok(6.0);
    assert Eval(Bin('*', Bin('/', Leaf(24), Leaf(4)), Leaf(5))) == Ok(30.0);
    assert Eval(Bin('-', Leaf(17), Leaf(9))) == Ok(8.0);
  }

  /** "24/ 4 *5-(17-9)" without its blanks. */
  lemma {:induction false} AllOperatorsStripped(text: string)
    requires text == "24/ 4 *5-(17-9)"
    ensures StripWhitespace(text) == "24/4*5-(17-9)"
  {
    var words := ["24/", "4", "*5-(17-9)"];
    assert Spaced(words) == text;
    assert Joined(words) == "24/4*5-(17-9)";
    StripSpaced(words);
  }

  /** "24/ 4 *5-(17-9)" is 22: '*' and '/' from the left before the subtraction. */
  lemma {:induction false} AllOperatorsText(text: string)
    requires text == "24/ 4 *5-(17-9)"
    ensures S.DescentResult(text, 0) == Ok(22.0)
  {
    var s := AllOperatorsSum();
    AllOperatorsValue();
    AllOperatorsStripped(text);
    DescentIgnoresWhitespace(text);
    DescentOfSumText(s);
  }

  /** " " is NO_EXPRESSION_ERROR: nothing is left once the blank is stripped. */
  lemma {:induction false} NoExpressionText(text: string)
    requires text == " "
    ensures S.DescentResult(text, 0) == Err(NoExpressionError)
  {
  }

  /** "2 * (2 + 2" without its blanks. */
  lemma {:induction false} UnclosedBracketStripped(text: string)
    requires text == "2 * (2 + 2"
    ensures StripWhitespace(text) == "2*(2+2"
  {
    var words := ["2", "*", "(2", "+", "2"];
    assert Spaced(words) == text;
    assert Joined(words) == "2*(2+2";
    StripSpaced(words);
  }

  /** "2 * (2 + 2" is BRACKET_ERROR: the bracket is never closed. */
  lemma {:induction false} UnclosedBracketText(text: string)
    requires text == "2 * (2 + 2"
    ensures S.DescentResult(text, 0) == Err(BracketError)
  {
    UnclosedBracketStripped(text);
    DescentIgnoresWhitespace(text);
    var s := PairSum(Leaf(2), '+', Leaf(2));
    assert SumText(s) == "2+2";
    assert Print(Leaf(2)) + ['*', '('] + SumText(s) == "2*(2+2";
    UnclosedBracket(Leaf(2), '*', s);
  }

  /** "10 * 2 / 0" without its blanks. */
  lemma {:induction false} DivisionByZeroStripped(text: string)
    requires text == "10 * 2 / 0"
    ensures StripWhitespace(text) == "10*2/0"
  {
    var words := ["10", "*", "2", "/", "0"];
    assert Spaced(words) == text;
    assert Joined(words) == "10*2/0";
    StripSpaced(words);
  }

  /** "10 * 2 / 0" is DIVISION_BY_ZERO. */
  lemma {:induction false} DivisionByZeroText(text: string)
    requires text == "10 * 2 / 0"
    ensures S.DescentResult(text, 0) == Err(DivisionByZeroError)
  {
    DivisionByZeroStripped(text);
    DescentIgnoresWhitespace(text);
    assert NatToString(10) == "10";
    assert Print(Leaf(10)) + ['*'] + Print(Leaf(2)) + ['/'] + Print(Leaf(0)) == "10*2/0";
    ChainValue(Leaf(10), '*', Leaf(2), '/', Leaf(0));
  }

  /** "2 ++ 4" without its blanks. */
  lemma {:induction false} DoubledOperatorStripped(text: string)
    requires text == "2 ++ 4"
    ensures StripWhitespace(text) == "2++4"
  {
    var words := ["2", "++", "4"];
    assert Spaced(words) == text;
    assert Joined(words) == "2++4";
    StripSpaced(words);
  }

  /** "2 ++ 4" is SYNTAX_ERROR: the second '+' stands where an operand belongs. */
  lemma {:induction false} DoubledOperatorText(text: string)
    requires text == "2 ++ 4"
    ensures S.DescentResult(text, 0) == Err(SyntaxError)
  {
    DoubledOperatorStripped(text);
    DescentIgnoresWhitespace(text);
    assert Print(Leaf(2)) + ['+', '+'] + Print(Leaf(4)) == "2++4";
    DoubledOperator(Leaf(2), '+', '+', Leaf(4));
  }
}
