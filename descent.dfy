// The first recursive-descent evaluator, src/main/java/com/calculator/parser/StringParser.java:
// a cursor-based lexer (getLexeme) and one function per grammar level:
//
//   sum     ::= product { ('+' | '-') product }
//   product ::= factor { ('*' | '/') factor }
//   factor  ::= '(' sum ')' | NUMBER
//
// Each level reads the lexeme in front of it (the lookahead) and leaves the
// cursor on the first lexeme it did not use.

module SimpleDescent {
  import opened Errors
  import opened Text
  import Numbers

  /** isDelimiter: the operators and the brackets. */
  predicate IsDelimiter(c: char)
  {
    c == '+' || c == '-' || c == '/' || c == '*' || c == '(' || c == ')'
  }

  /** The lexeme types NONE, DELIMITER and NUMBER. */
  datatype LexemeType = NoType | Delimiter | Number

  /** The lexeme text that marks the end of the expression. */
  const EOE: string := "EOE"

  /** The fields getLexeme updates: currentIndex, lexeme and lexemeType. */
  datatype Cursor = Cursor(index: nat, lexeme: string, lexemeType: LexemeType)

  /** Every cursor the lexer produces: inside the text, and of type NONE only at EOE. */
  predicate Consistent(e: string, c: Cursor)
  {
    c.index <= |e| && (c.lexemeType == NoType ==> c.lexeme == EOE)
  }

  /** The first position from i on that holds a delimiter, or the end. */
  function DelimiterFrom(e: string, i: nat): (j: nat)
    requires i <= |e|
    ensures i <= j <= |e|
    ensures j < |e| ==> IsDelimiter(e[j])
    decreases |e| - i
  {
    if i == |e| || IsDelimiter(e[i]) then i else DelimiterFrom(e, i + 1)
  }

  /** No delimiter stands between i and the one DelimiterFrom finds. */
  lemma {:induction false} DelimiterFromSkips(e: string, i: nat)
    requires i <= |e|
    ensures forall k :: i <= k < DelimiterFrom(e, i) ==> !IsDelimiter(e[k])
    decreases |e| - i
  {
    if i < |e| && !IsDelimiter(e[i]) {
      DelimiterFromSkips(e, i + 1);
    }
  }

  /** The characters from i up to the next delimiter or the end, appended one by one as getLexeme's loop does. */
  function Run(e: string, i: nat): (s: string)
    requires i <= |e|
    decreases |e| - i
  {
    if i == |e| || IsDelimiter(e[i]) then [] else [e[i]] + Run(e, i + 1)
  }

  /** The run from i is the text from i up to the delimiter DelimiterFrom finds. */
  lemma {:induction false} RunIsText(e: string, i: nat)
    requires i <= |e|
    ensures Run(e, i) == e[i..DelimiterFrom(e, i)]
    decreases |e| - i
  {
    if i < |e| && !IsDelimiter(e[i]) {
      RunIsText(e, i + 1);
      assert e[i..DelimiterFrom(e, i)] == [e[i]] + e[i + 1..DelimiterFrom(e, i + 1)];
    }
  }

  /**
   * getLexeme at position i: a delimiter is a lexeme of its own; a digit
   * starts a NUMBER that runs to the next delimiter or the end; the end of
   * the text, and any other character, give EOE without moving.
   */
  function Lex(e: string, i: nat): (c: Cursor)
    requires i <= |e|
    ensures Consistent(e, c) && i <= c.index
    ensures c.lexemeType == NoType <==> c.index == i
    ensures c.lexemeType == Delimiter <==> i < |e| && IsDelimiter(e[i])
    ensures c.lexemeType == Delimiter ==> c.index == i + 1
    ensures c.lexemeType == Number <==> i < |e| && IsDigit(e[i])
    ensures c.lexemeType == Number ==> c.index == DelimiterFrom(e, i)
  {
    if i == |e| then Cursor(i, EOE, NoType)
    else if IsDelimiter(e[i]) then Cursor(i + 1, [e[i]], Delimiter)
    else if IsDigit(e[i]) then Cursor(DelimiterFrom(e, i), Run(e, i), Number)
    else Cursor(i, EOE, NoType)
  }

  /** A lexeme other than EOE is the text it was read from. */
  lemma {:induction false} LexText(e: string, i: nat)
    requires i <= |e|
    ensures var c := Lex(e, i); c.lexemeType != NoType ==> c.lexeme == e[i..c.index]
  {
    if i < |e| && !IsDelimiter(e[i]) && IsDigit(e[i]) {
      RunIsText(e, i);
    }
  }

  /** What is left to read: the text after the cursor, and the lookahead unless it is EOE. */
  function Rest(e: string, c: Cursor): nat
  {
    (if c.index <= |e| then |e| - c.index else 0) + (if c.lexemeType != NoType then 1 else 0)
  }

  /** lexeme.charAt(0). */
  function Head(s: string): (r: Result<char>)
    ensures r.Ok? <==> s != []
    ensures r.Ok? ==> r.value == s[0]
    ensures r.Err? ==> r.error == Runtime(IndexOutOfBounds)
  {
    if s == [] then Err(Runtime(IndexOutOfBounds)) else Ok(s[0])
  }

  /** The operation an operator lexeme stands for; a zero divisor is refused before this is reached. */
  function Arith(op: char, a: real, b: real): real
    requires op == '/' ==> b != 0.0
  {
    if op == '+' then a + b
    else if op == '-' then a - b
    else if op == '*' then a * b
    else if op == '/' then a / b
    else a
  }

  /** A result of a grammar level: the value read and the cursor after it. */
  predicate Advanced(e: string, c: Cursor, r: Result<(real, Cursor)>)
  {
    r.Ok? ==> Consistent(e, r.value.1) && Rest(e, r.value.1) <= Rest(e, c)
  }

  /** addOrSubtractTwoTerms. */
  function Sum(e: string, c: Cursor): (r: Result<(real, Cursor)>)
    requires Consistent(e, c)
    ensures Advanced(e, c, r)
    decreases Rest(e, c), 3
  {
    var x := Product(e, c);
    if x.Err? then Err(x.error) else SumRest(e, x.value.0, x.value.1)
  }

  /** The loop of addOrSubtractTwoTerms, with acc the value so far. */
  function SumRest(e: string, acc: real, c: Cursor): (r: Result<(real, Cursor)>)
    requires Consistent(e, c)
    ensures Advanced(e, c, r)
    decreases Rest(e, c), 2
  {
    if c.lexeme == [] then Err(Runtime(IndexOutOfBounds))
    else if c.lexeme[0] == '+' || c.lexeme[0] == '-' then
      var x := Product(e, Lex(e, c.index));
      if x.Err? then Err(x.error)
      else SumRest(e, Arith(c.lexeme[0], acc, x.value.0), x.value.1)
    else Ok((acc, c))
  }

  /** multiplyOrDivideTwoFactors. */
  function Product(e: string, c: Cursor): (r: Result<(real, Cursor)>)
    requires Consistent(e, c)
    ensures Advanced(e, c, r)
    decreases Rest(e, c), 2
  {
    var x := Factor(e, c);
    if x.Err? then Err(x.error) else ProductRest(e, x.value.0, x.value.1)
  }

  /** The loop of multiplyOrDivideTwoFactors: a zero divisor is DIVISION_BY_ZERO_ERROR. */
  function ProductRest(e: string, acc: real, c: Cursor): (r: Result<(real, Cursor)>)
    requires Consistent(e, c)
    ensures Advanced(e, c, r)
    decreases Rest(e, c), 1
  {
    if c.lexeme == [] then Err(Runtime(IndexOutOfBounds))
    else if c.lexeme[0] == '*' || c.lexeme[0] == '/' then
      var x := Factor(e, Lex(e, c.index));
      if x.Err? then Err(x.error)
      else if c.lexeme[0] == '/' && x.value.0 == 0.0 then Err(DivisionByZeroError)
      else ProductRest(e, Arith(c.lexeme[0], acc, x.value.0), x.value.1)
    else Ok((acc, c))
  }

  /** One more round of the loop of addOrSubtractTwoTerms. */
  lemma {:induction false} SumRestContinues(e: string, acc: real, c: Cursor)
    requires Consistent(e, c) && c.lexeme != [] && (c.lexeme[0] == '+' || c.lexeme[0] == '-')
    ensures var x := Product(e, Lex(e, c.index));
      SumRest(e, acc, c) ==
        if x.Err? then Err(x.error)
        else SumRest(e, Arith(c.lexeme[0], acc, x.value.0), x.value.1)
  {
  }

  /** The loop of addOrSubtractTwoTerms ends at a lexeme that is no '+' or '-'. */
  lemma {:induction false} SumRestStops(e: string, acc: real, c: Cursor)
    requires Consistent(e, c) && !(c.lexeme != [] && (c.lexeme[0] == '+' || c.lexeme[0] == '-'))
    ensures SumRest(e, acc, c) == if c.lexeme == [] then Err(Runtime(IndexOutOfBounds)) else Ok((acc, c))
  {
  }

  /** One more round of the loop of multiplyOrDivideTwoFactors. */
  lemma {:induction false} ProductRestContinues(e: string, acc: real, c: Cursor)
    requires Consistent(e, c) && c.lexeme != [] && (c.lexeme[0] == '*' || c.lexeme[0] == '/')
    ensures var x := Factor(e, Lex(e, c.index));
      ProductRest(e, acc, c) ==
        if x.Err? then Err(x.error)
        else if c.lexeme[0] == '/' && x.value.0 == 0.0 then Err(DivisionByZeroError)
        else ProductRest(e, Arith(c.lexeme[0], acc, x.value.0), x.value.1)
  {
  }

  lemma {:induction false} ProductRestStops(e: string, acc: real, c: Cursor)
    requires Consistent(e, c) && !(c.lexeme != [] && (c.lexeme[0] == '*' || c.lexeme[0] == '/'))
    ensures ProductRest(e, acc, c) == if c.lexeme == [] then Err(Runtime(IndexOutOfBounds)) else Ok((acc, c))
  {
  }

  /** evaluateInsideBrackets: a bracketed sum must end at ')', or it is BRACKET_ERROR. */
  function Factor(e: string, c: Cursor): (r: Result<(real, Cursor)>)
    requires Consistent(e, c)
    ensures Advanced(e, c, r)
    decreases Rest(e, c), 1
  {
    if c.lexeme == "(" then
      var x := Sum(e, Lex(e, c.index));
      if x.Err? then Err(x.error)
      else if x.value.1.lexeme != ")" then Err(BracketError)
      else Ok((x.value.0, Lex(e, x.value.1.index)))
    else NumberValue(e, c)
  }

  /** getNumberValue: only a NUMBER lexeme that Double.parseDouble accepts; anything else is SYNTAX_ERROR. */
  function NumberValue(e: string, c: Cursor): (r: Result<(real, Cursor)>)
    requires Consistent(e, c)
    ensures Advanced(e, c, r)
    ensures r.Ok? <==> c.lexemeType == Number && Numbers.ParseDouble(c.lexeme).Ok?
    ensures r.Ok? ==> r.value == (Numbers.ParseDouble(c.lexeme).value, Lex(e, c.index))
    ensures r.Err? ==> r.error == SyntaxError
  {
    if c.lexemeType == Number then
      match Numbers.ParseDouble(c.lexeme)
      case Ok(v) => Ok((v, Lex(e, c.index)))
      case Err(_) => Err(SyntaxError)
    else Err(SyntaxError)
  }

  /** The fields the parser keeps between calls: currentIndex is never reset. */
  predicate Resumable(expression: string, index: nat)
  {
    index <= |expression| && (index == 0 || NoWhitespace(expression))
  }

  /**
   * getExpressionResult: the stripped text is read from the stored index;
   * EOE in front is NO_EXPRESSION_ERROR, a lexeme left after the sum is
   * SYNTAX_ERROR, and the value is not rounded.
   */
  function DescentResult(expression: string, index: nat): (r: Result<real>)
    requires Resumable(expression, index)
  {
    var e := StripWhitespace(expression);
    assert index <= |e| by {
      if index != 0 {
        StripWhitespaceKeepsStripped(expression);
      }
    }
    var c := Lex(e, index);
    if c.lexeme == EOE then Err(NoExpressionError)
    else
      var x :- Sum(e, c);
      if x.1.lexeme != EOE then Err(SyntaxError) else Ok(x.0)
  }

  /** On a fresh parser over text without whitespace, getExpressionResult reads the text as it stands. */
  lemma {:induction false} DescentResultStripped(e: string)
    requires NoWhitespace(e)
    ensures var c := Lex(e, 0);
      DescentResult(e, 0) ==
        if c.lexeme == EOE then Err(NoExpressionError)
        else match Sum(e, c)
          case Err(err) => Err(err)
          case Ok(x) => if x.1.lexeme != EOE then Err(SyntaxError) else Ok(x.0)
  {
    StripWhitespaceKeepsStripped(e);
  }

  /** The value of a grammar level without its cursor. */
  function ValueOf(r: Result<(real, Cursor)>): Result<real>
  {
    if r.Ok? then Ok(r.value.0) else Err(r.error)
  }

  class StringParser {
    var expression: string
    var currentIndex: nat
    var lexeme: string
    var lexemeType: LexemeType

    function Position(): Cursor
      reads this
    {
      Cursor(currentIndex, lexeme, lexemeType)
    }

    predicate Valid()
      reads this
    {
      Resumable(expression, currentIndex)
    }

    constructor(expression: string)
      ensures Valid() && this.expression == expression && currentIndex == 0
    {
      this.expression := expression;
      currentIndex := 0;
      lexeme := "";
      lexemeType := NoType;
    }

    method GetLexeme()
      requires currentIndex <= |expression|
      modifies this
      ensures expression == old(expression)
      ensures Position() == Lex(expression, old(currentIndex))
    {
      lexemeType := NoType;
      lexeme := "";
      if currentIndex == |expression| {
        lexeme := EOE;
        return;
      }
      if IsDelimiter(expression[currentIndex]) {
        lexeme := lexeme + [expression[currentIndex]];
        currentIndex := currentIndex + 1;
        lexemeType := Delimiter;
      } else if IsDigit(expression[currentIndex]) {
        ghost var start := currentIndex;
        while !IsDelimiter(expression[currentIndex])
          invariant expression == old(expression) && start == old(currentIndex)
          invariant start <= currentIndex < |expression|
          invariant lexeme == expression[start..currentIndex]
          invariant start < currentIndex ==> DelimiterFrom(expression, start + 1) == DelimiterFrom(expression, currentIndex)
          decreases |expression| - currentIndex
        {
          lexeme := lexeme + [expression[currentIndex]];
          currentIndex := currentIndex + 1;
          if currentIndex >= |expression| {
            break;
          }
        }
        lexemeType := Number;
        RunIsText(expression, start);
      } else {
        lexeme := EOE;
      }
    }

    method AddOrSubtractTwoTerms() returns (r: Result<real>)
      requires Consistent(expression, Position())
      modifies this
      ensures expression == old(expression) && Consistent(expression, Position())
      ensures r == ValueOf(Sum(expression, old(Position())))
      ensures r.Ok? ==> Position() == Sum(expression, old(Position())).value.1
      decreases Rest(expression, Position()), 3
    {
      r := MultiplyOrDivideTwoFactors();
      if r.Err? {
        return;
      }
      ghost var top := old(Position());
      var result := r.value;
      while |lexeme| > 0 && (lexeme[0] == '+' || lexeme[0] == '-')
        invariant expression == old(expression) && Consistent(expression, Position())
        invariant Rest(expression, Position()) <= Rest(expression, top)
        invariant Sum(expression, top) == SumRest(expression, result, Position())
        decreases Rest(expression, Position())
      {
        ghost var before := Position();
        ghost var x := Product(expression, Lex(expression, before.index));
        var operator := lexeme[0];
        SumRestContinues(expression, result, before);
        GetLexeme();
        var partialResult := MultiplyOrDivideTwoFactors();
        if partialResult.Err? {
          return Err(partialResult.error);
        }
        assert Position() == x.value.1;
        ghost var acc := result;
        if operator == '-' {
          result := result - partialResult.value;
        } else {
          result := result + partialResult.value;
        }
        assert result == Arith(operator, acc, x.value.0);
      }
      SumRestStops(expression, result, Position());
      if lexeme == [] {
        return Err(Runtime(IndexOutOfBounds));
      }
      return Ok(result);
    }

    method MultiplyOrDivideTwoFactors() returns (r: Result<real>)
      requires Consistent(expression, Position())
      modifies this
      ensures expression == old(expression) && Consistent(expression, Position())
      ensures r == ValueOf(Product(expression, old(Position())))
      ensures r.Ok? ==> Position() == Product(expression, old(Position())).value.1
      decreases Rest(expression, Position()), 2
    {
      r := EvaluateInsideBrackets();
      if r.Err? {
        return;
      }
      ghost var top := old(Position());
      var result := r.value;
      while |lexeme| > 0 && (lexeme[0] == '*' || lexeme[0] == '/')
        invariant expression == old(expression) && Consistent(expression, Position())
        invariant Rest(expression, Position()) <= Rest(expression, top)
        invariant Product(expression, top) == ProductRest(expression, result, Position())
        decreases Rest(expression, Position())
      {
        ghost var before := Position();
        ghost var x := Factor(expression, Lex(expression, before.index));
        var operator := lexeme[0];
        ProductRestContinues(expression, result, before);
        GetLexeme();
        var partialResult := EvaluateInsideBrackets();
        if partialResult.Err? {
          return Err(partialResult.error);
        }
        if operator == '/' && partialResult.value == 0.0 {
          return Err(DivisionByZeroError);
        }
        assert Position() == x.value.1 && partialResult.value == x.value.0;
        result := Arith(operator, result, partialResult.value);
      }
      ProductRestStops(expression, result, Position());
      if lexeme == [] {
        return Err(Runtime(IndexOutOfBounds));
      }
      return Ok(result);
    }

    method EvaluateInsideBrackets() returns (r: Result<real>)
      requires Consistent(expression, Position())
      modifies this
      ensures expression == old(expression) && Consistent(expression, Position())
      ensures r == ValueOf(Factor(expression, old(Position())))
      ensures r.Ok? ==> Position() == Factor(expression, old(Position())).value.1
      decreases Rest(expression, Position()), 1
    {
      if lexeme == "(" {
        GetLexeme();
        r := AddOrSubtractTwoTerms();
        if r.Err? {
          return;
        }
        if lexeme != ")" {
          return Err(BracketError);
        }
        GetLexeme();
      } else {
        r := GetNumberValue();
      }
    }

    method GetNumberValue() returns (r: Result<real>)
      requires Consistent(expression, Position())
      modifies this
      ensures expression == old(expression) && Consistent(expression, Position())
      ensures r == ValueOf(NumberValue(expression, old(Position())))
      ensures r.Ok? ==> Position() == NumberValue(expression, old(Position())).value.1
    {
      if lexemeType == Number {
        var parsed := Numbers.ParseDouble(lexeme);
        if parsed.Err? {
          return Err(SyntaxError);
        }
        GetLexeme();
        return Ok(parsed.value);
      }
      return Err(SyntaxError);
    }

    method GetExpressionResult() returns (r: Result<real>)
      requires Valid()
      modifies this
      ensures Valid()
      ensures r == DescentResult(old(expression), old(currentIndex))
      ensures expression == StripWhitespace(old(expression))
      ensures r.Ok? ==>
        old(currentIndex) <= |expression| && Sum(expression, Lex(expression, old(currentIndex))).Ok? &&
        Position() == Sum(expression, Lex(expression, old(currentIndex))).value.1 && lexeme == EOE
    {
      if currentIndex != 0 {
        StripWhitespaceKeepsStripped(expression);
      }
      expression := StripWhitespace(expression);
      GetLexeme();
      if lexeme == EOE {
        return Err(NoExpressionError);
      }
      r := AddOrSubtractTwoTerms();
      if r.Err? {
        return;
      }
      if lexeme != EOE {
        return Err(SyntaxError);
      }
    }
  }
}
