// The second recursive-descent evaluator,
// Calculator/src/main/java/com/calculator/parser/StringParser.java. It has the
// grammar of the first one (sum, product, factor) and adds:
//   - a '-' at the start of the text or right after a delimiter, which is not
//     a lexeme but is kept in unaryOperator as the sign of the next number;
//   - words: a word followed by '(' is a function call, any other word is a
//     VARIABLE; a tan/sin/cos call is evaluated, and every occurrence of its
//     text in the expression is replaced by the rounded value;
//   - setVariablesValue, which replaces each VARIABLE by a queued value.
// The lexer rewrites the expression while it reads it, so the cursor carries
// the text along with the position.

module CalculatorDescent {
  import opened Errors
  import opened Text
  import Numbers
  import MathParsing
  import SimpleDescent

  /**
   * The lexeme types NONE, DELIMITER, NUMBER and VARIABLE, and Unset: no type
   * yet (the field is null) or the empty type setVariablesValue leaves behind.
   */
  datatype LexemeType = NoType | Delimiter | Number | Variable | Unset

  /** The lexeme text that marks the end of the expression. */
  const EOE: string := "EOE"

  /** mathFunctions: the functions evaluated while the text is read. */
  const MathFunctions: seq<string> := ["tan", "sin", "cos"]

  /** The fields getLexeme reads and writes: expression, currentIndex, lexeme, lexemeType and unaryOperator. */
  datatype Cursor = Cursor(text: string, index: nat, lexeme: string, lexemeType: LexemeType, unary: char)

  /** Double.toString writes no bracket: digits, a point, an exponent, a sign, NaN or Infinity. */
  ghost predicate WritesNoBracket(lib: MathParsing.MathLib)
  {
    forall x :: '(' !in lib.toText(x)
  }

  /** Every cursor the lexer produces: EOE has no type, a VARIABLE has a name, an unset lexeme is empty. */
  predicate Consistent(c: Cursor)
  {
    (c.lexemeType == NoType ==> c.lexeme == EOE) &&
    (c.lexemeType == Variable ==> c.lexeme != []) &&
    (c.lexemeType == Unset ==> c.lexeme == [])
  }

  /** The number of opening brackets left in the text: a function call that is evaluated removes one. */
  function Brackets(c: Cursor): nat
  {
    CountChar(c.text, '(')
  }

  /**
   * A lexeme read from position i of e: either the text lost an opening
   * bracket (a call was evaluated), or the text is unchanged and the position
   * did not go back, and moved forward unless the lexeme is EOE.
   */
  predicate Moved(e: string, i: nat, d: Cursor)
  {
    i <= |e| &&
    (CountChar(d.text, '(') < CountChar(e, '(') ||
     (d.text == e && i <= d.index <= |e| && (d.lexemeType != NoType ==> i < d.index)))
  }

  /** Where the letter loop of getLexeme stops: at a delimiter, or at the last character of the text even if it is none. */
  function WordEnd(e: string, j: nat): (k: nat)
    requires j <= |e|
    ensures j <= k <= |e|
    ensures k == |e| ==> j == |e|
    ensures k < |e| ==> k + 1 == |e| || SimpleDescent.IsDelimiter(e[k])
    decreases |e| - j
  {
    if j + 1 >= |e| || SimpleDescent.IsDelimiter(e[j]) then j else WordEnd(e, j + 1)
  }

  /** No delimiter stands between j and the position WordEnd finds. */
  lemma {:induction false} WordEndSkips(e: string, j: nat)
    requires j <= |e|
    ensures forall m :: j <= m < WordEnd(e, j) ==> !SimpleDescent.IsDelimiter(e[m])
    decreases |e| - j
  {
    if !(j + 1 >= |e| || SimpleDescent.IsDelimiter(e[j])) {
      WordEndSkips(e, j + 1);
    }
  }

  /** The first ')' from j on, or the end of the text. */
  function CloseFrom(e: string, j: nat): (k: nat)
    requires j <= |e|
    ensures j <= k <= |e|
    ensures k < |e| ==> e[k] == ')'
    decreases |e| - j
  {
    if j == |e| || e[j] == ')' then j else CloseFrom(e, j + 1)
  }

  /** Math.tan, Math.sin or Math.cos, chosen by name. */
  function MathFunctionValue(lib: MathParsing.MathLib, name: string, x: real): real
    requires name in MathFunctions
  {
    if name == "tan" then lib.tan(x) else if name == "sin" then lib.sin(x) else lib.cos(x)
  }

  /**
   * getResultMathFunction without its update of the fields: the argument
   * text is parsed (NumberFormatException escapes), the function value is
   * rounded to two decimal places and written by Double.toString.
   */
  function MathResult(lib: MathParsing.MathLib, name: string, arguments: string): (r: Result<string>)
    requires WritesNoBracket(lib) && name in MathFunctions
    ensures r.Ok? <==> Numbers.ParseDouble(arguments).Ok?
    ensures r.Err? ==> r.error == Runtime(NumberFormat)
    ensures r.Ok? ==> '(' !in r.value
    ensures r.Ok? ==> r.value == lib.toText(Numbers.Round2(MathFunctionValue(lib, name, Numbers.ParseDouble(arguments).value)))
  {
    var x :- Numbers.ParseDouble(arguments);
    Ok(lib.toText(Numbers.Round2(MathFunctionValue(lib, name, x))))
  }

  /** The call text name + "(" + arguments + ")" is the slice of e from the name to the closing bracket. */
  lemma {:induction false} CallInText(e: string, i: nat, j: nat, k: nat)
    requires i < j < k < |e| && e[j] == '(' && e[k] == ')'
    ensures e[i..k + 1] == e[i..j] + "(" + e[j + 1..k] + ")"
    ensures '(' in e[i..j] + "(" + e[j + 1..k] + ")"
  {
    assert e[i..k + 1] == e[i..j] + [e[j]] + e[j + 1..k] + [e[k]];
    assert (e[i..j] + "(" + e[j + 1..k] + ")")[j - i] == '(';
  }

  /** Replacing text that holds no '(' never adds an opening bracket. */
  lemma {:induction false} ReplaceAllKeepsBrackets(s: string, t: string, w: string)
    requires |t| > 0 && '(' !in w
    ensures CountChar(ReplaceAll(s, t, w), '(') <= CountChar(s, '(')
    decreases |s|
  {
    LeadsIsStartsWith(s, t);
    if |s| >= |t| {
      if s[..|t|] == t {
        ReplaceAllKeepsBrackets(s[|t|..], t, w);
        CountCharAppend(w, ReplaceAll(s[|t|..], t, w), '(');
        CountCharAppend(s[..|t|], s[|t|..], '(');
        assert s == s[..|t|] + s[|t|..];
      } else {
        ReplaceAllKeepsBrackets(s[1..], t, w);
        CountCharAppend([s[0]], ReplaceAll(s[1..], t, w), '(');
      }
    }
  }

  /** Replacing an occurrence of a text that holds '(' by one that does not removes an opening bracket. */
  lemma {:induction false} ReplaceAllFewerBrackets(s: string, t: string, w: string, i: nat)
    requires |t| > 0 && '(' in t && '(' !in w
    requires i + |t| <= |s| && s[i..i + |t|] == t
    ensures CountChar(ReplaceAll(s, t, w), '(') < CountChar(s, '(')
    decreases |s|
  {
    LeadsIsStartsWith(s, t);
    if s[..|t|] == t {
      ReplaceAllKeepsBrackets(s[|t|..], t, w);
      CountCharAppend(w, ReplaceAll(s[|t|..], t, w), '(');
      CountCharAppend(s[..|t|], s[|t|..], '(');
      assert s == s[..|t|] + s[|t|..];
    } else {
      assert s[1..][i - 1..i - 1 + |t|] == s[i..i + |t|];
      ReplaceAllFewerBrackets(s[1..], t, w, i - 1);
      CountCharAppend([s[0]], ReplaceAll(s[1..], t, w), '(');
    }
  }

  /**
   * The letter branch of getLexeme. The word runs to the next delimiter, but
   * the loop also stops at the last character of the text, which it leaves
   * out; reading at the end of the text is an index error. A word before '('
   * is a call; any other word is a VARIABLE. The sign in unaryOperator is
   * kept.
   */
  function LexWord(lib: MathParsing.MathLib, e: string, i: nat, unary: char): (r: Result<Cursor>)
    requires WritesNoBracket(lib)
    requires i < |e| && !SimpleDescent.IsDelimiter(e[i])
    ensures r.Ok? ==> Consistent(r.value) && Moved(e, i, r.value) && r.value.unary == unary
    ensures r.Ok? ==> r.value.lexemeType == Variable || r.value.lexemeType == Number
    ensures r.Err? ==> r.error == Runtime(IndexOutOfBounds) || r.error == Runtime(NumberFormat)
  {
    var j := WordEnd(e, i + 1);
    if j == |e| then Err(Runtime(IndexOutOfBounds))
    else if e[j] != '(' then Ok(Cursor(e, j, e[i..j], Variable, unary))
    else LexCallMoves(lib, e, i, j, unary); LexCall(lib, e, i, j, unary)
  }

  /**
   * A call: the name e[i..j] before '(' at j, and arguments that run to the
   * next ')', whose absence is an index error. tan, sin and cos are
   * evaluated, every occurrence of the call text is replaced by the value and
   * the position is moved from the ')' by the difference in length; any other
   * call stays as its bare name, since no caller object is set.
   */
  function LexCall(lib: MathParsing.MathLib, e: string, i: nat, j: nat, unary: char): (r: Result<Cursor>)
    requires WritesNoBracket(lib)
    requires i < j < |e| && e[j] == '('
    ensures r.Ok? ==> Consistent(r.value) && r.value.unary == unary && r.value.lexemeType == Number
    ensures r.Err? ==> r.error == Runtime(IndexOutOfBounds) || r.error == Runtime(NumberFormat)
  {
    var k := CloseFrom(e, j + 1);
    if k == |e| then Err(Runtime(IndexOutOfBounds))
    else
      var name := e[i..j];
      var arguments := e[j + 1..k];
      if name in MathFunctions then
        var written :- MathResult(lib, name, arguments);
        var call := name + "(" + arguments + ")";
        Ok(Cursor(ReplaceAll(e, call, written), k - (|call| - |written|) + 1, written, Number, unary))
      else Ok(Cursor(e, k, name, Number, unary))
  }

  /** A call read from i either is evaluated, and the text loses an opening bracket, or leaves the text alone and moves on. */
  lemma {:induction false} LexCallMoves(lib: MathParsing.MathLib, e: string, i: nat, j: nat, unary: char)
    requires WritesNoBracket(lib)
    requires i < j < |e| && e[j] == '('
    ensures LexCall(lib, e, i, j, unary).Ok? ==> Moved(e, i, LexCall(lib, e, i, j, unary).value)
  {
    var k := CloseFrom(e, j + 1);
    if k < |e| && e[i..j] in MathFunctions && MathResult(lib, e[i..j], e[j + 1..k]).Ok? {
      var call := e[i..j] + "(" + e[j + 1..k] + ")";
      CallInText(e, i, j, k);
      ReplaceAllFewerBrackets(e, call, MathResult(lib, e[i..j], e[j + 1..k]).value, i);
    }
  }

  /** The digit branch of getLexeme: a NUMBER running to the next delimiter, with the pending sign in front, which it uses up. */
  function LexNumber(e: string, i: nat, u: char): (d: Cursor)
    requires i < |e| && !SimpleDescent.IsDelimiter(e[i])
    ensures d.text == e && i < d.index <= |e| && d.lexemeType == Number && d.unary == ' '
  {
    var j := SimpleDescent.DelimiterFrom(e, i);
    Cursor(e, j, (if u == '-' then "-" else "") + e[i..j], Number, ' ')
  }

  /**
   * getLexeme at position i with the sign u pending: the end of the text is
   * EOE, a position past it an index error. A '-' at the start or after a
   * delimiter becomes the pending sign; any other delimiter is a lexeme of
   * its own. A digit starts a NUMBER running to the next delimiter, with the
   * pending sign in front, which it uses up. A letter starts a word. Any
   * other character is EOE without moving.
   */
  function Lex(lib: MathParsing.MathLib, e: string, i: nat, u: char): (r: Result<Cursor>)
    requires WritesNoBracket(lib)
    ensures r.Ok? ==> Consistent(r.value) && Moved(e, i, r.value)
    ensures r.Ok? ==> r.value.lexemeType != Unset
    ensures r.Err? ==> r.error == Runtime(IndexOutOfBounds) || r.error == Runtime(NumberFormat)
    decreases |e| - i
  {
    if i == |e| then Ok(Cursor(e, i, EOE, NoType, u))
    else if i > |e| then Err(Runtime(IndexOutOfBounds))
    else if SimpleDescent.IsDelimiter(e[i]) then
      if e[i] == '-' && (i == 0 || SimpleDescent.IsDelimiter(e[i - 1])) then Lex(lib, e, i + 1, '-')
      else Ok(Cursor(e, i + 1, [e[i]], Delimiter, u))
    else if IsDigit(e[i]) then Ok(LexNumber(e, i, u))
    else if IsLetter(e[i]) then LexWord(lib, e, i, u)
    else Ok(Cursor(e, i, EOE, NoType, u))
  }

  /** What is left to read: the text after the cursor, and the lookahead unless it is EOE. */
  function Rest(c: Cursor): nat
  {
    (if c.index <= |c.text| then |c.text| - c.index else 0) + (if c.lexemeType != NoType then 1 else 0)
  }

  /** d is no further from the end than c: fewer opening brackets, or as many and no more to read. */
  predicate Below(d: Cursor, c: Cursor)
  {
    Brackets(d) < Brackets(c) || (Brackets(d) == Brackets(c) && Rest(d) <= Rest(c))
  }

  /** d is nearer to the end than c. */
  predicate StrictlyBelow(d: Cursor, c: Cursor)
  {
    Brackets(d) < Brackets(c) || (Brackets(d) == Brackets(c) && Rest(d) < Rest(c))
  }

  /** getLexeme after the lookahead of c has been used: the next cursor is nearer to the end. */
  function Next(lib: MathParsing.MathLib, c: Cursor): (r: Result<Cursor>)
    requires WritesNoBracket(lib) && c.lexemeType != NoType
    ensures r.Ok? ==> Consistent(r.value) && StrictlyBelow(r.value, c) && r.value.lexemeType != Unset
  {
    Lex(lib, c.text, c.index, c.unary)
  }

  /** A result of a grammar level: the value read and the cursor after it. */
  predicate Advanced(c: Cursor, r: Result<(real, Cursor)>)
  {
    r.Ok? ==> Consistent(r.value.1) && Below(r.value.1, c)
  }

  /** addOrSubtractTwoTerms. */
  function Sum(lib: MathParsing.MathLib, c: Cursor): (r: Result<(real, Cursor)>)
    requires WritesNoBracket(lib) && Consistent(c)
    ensures Advanced(c, r)
    decreases Brackets(c), Rest(c), 3
  {
    var x :- Product(lib, c);
    SumRest(lib, x.0, x.1)
  }

  /** The loop of addOrSubtractTwoTerms, with acc the value so far; it tests lexeme.charAt(0), so a signed number counts as a '-'. */
  function SumRest(lib: MathParsing.MathLib, acc: real, c: Cursor): (r: Result<(real, Cursor)>)
    requires WritesNoBracket(lib) && Consistent(c)
    ensures Advanced(c, r)
    decreases Brackets(c), Rest(c), 2
  {
    if c.lexeme == [] then Err(Runtime(IndexOutOfBounds))
    else if c.lexeme[0] == '+' || c.lexeme[0] == '-' then
      var d :- Next(lib, c);
      var x :- Product(lib, d);
      SumRest(lib, SimpleDescent.Arith(c.lexeme[0], acc, x.0), x.1)
    else Ok((acc, c))
  }

  /** multiplyOrDivideTwoFactors. */
  function Product(lib: MathParsing.MathLib, c: Cursor): (r: Result<(real, Cursor)>)
    requires WritesNoBracket(lib) && Consistent(c)
    ensures Advanced(c, r)
    decreases Brackets(c), Rest(c), 2
  {
    var x :- Factor(lib, c);
    ProductRest(lib, x.0, x.1)
  }

  /** The loop of multiplyOrDivideTwoFactors: a zero divisor is DIVISION_BY_ZERO_ERROR. */
  function ProductRest(lib: MathParsing.MathLib, acc: real, c: Cursor): (r: Result<(real, Cursor)>)
    requires WritesNoBracket(lib) && Consistent(c)
    ensures Advanced(c, r)
    decreases Brackets(c), Rest(c), 1
  {
    if c.lexeme == [] then Err(Runtime(IndexOutOfBounds))
    else if c.lexeme[0] == '*' || c.lexeme[0] == '/' then
      var d :- Next(lib, c);
      var x :- Factor(lib, d);
      if c.lexeme[0] == '/' && x.0 == 0.0 then Err(DivisionByZeroError)
      else ProductRest(lib, SimpleDescent.Arith(c.lexeme[0], acc, x.0), x.1)
    else Ok((acc, c))
  }

  /** One more round of the loop of addOrSubtractTwoTerms: the next lexeme, then a product. */
  lemma {:induction false} SumRestContinues(lib: MathParsing.MathLib, acc: real, c: Cursor)
    requires WritesNoBracket(lib) && Consistent(c) && c.lexeme != [] && (c.lexeme[0] == '+' || c.lexeme[0] == '-')
    ensures var d := Next(lib, c);
      SumRest(lib, acc, c) ==
        if d.Err? then Err(d.error)
        else
          var x := Product(lib, d.value);
          if x.Err? then Err(x.error)
          else SumRest(lib, SimpleDescent.Arith(c.lexeme[0], acc, x.value.0), x.value.1)
  {
  }

  /** The loop of addOrSubtractTwoTerms ends at a lexeme that is no '+' or '-'. */
  lemma {:induction false} SumRestStops(lib: MathParsing.MathLib, acc: real, c: Cursor)
    requires WritesNoBracket(lib) && Consistent(c) && !(c.lexeme != [] && (c.lexeme[0] == '+' || c.lexeme[0] == '-'))
    ensures SumRest(lib, acc, c) == if c.lexeme == [] then Err(Runtime(IndexOutOfBounds)) else Ok((acc, c))
  {
  }

  /** One more round of the loop of multiplyOrDivideTwoFactors: the next lexeme, then a factor. */
  lemma {:induction false} ProductRestContinues(lib: MathParsing.MathLib, acc: real, c: Cursor)
    requires WritesNoBracket(lib) && Consistent(c) && c.lexeme != [] && (c.lexeme[0] == '*' || c.lexeme[0] == '/')
    ensures var d := Next(lib, c);
      ProductRest(lib, acc, c) ==
        if d.Err? then Err(d.error)
        else
          var x := Factor(lib, d.value);
          if x.Err? then Err(x.error)
          else if c.lexeme[0] == '/' && x.value.0 == 0.0 then Err(DivisionByZeroError)
          else ProductRest(lib, SimpleDescent.Arith(c.lexeme[0], acc, x.value.0), x.value.1)
  {
  }

  lemma {:induction false} ProductRestStops(lib: MathParsing.MathLib, acc: real, c: Cursor)
    requires WritesNoBracket(lib) && Consistent(c) && !(c.lexeme != [] && (c.lexeme[0] == '*' || c.lexeme[0] == '/'))
    ensures ProductRest(lib, acc, c) == if c.lexeme == [] then Err(Runtime(IndexOutOfBounds)) else Ok((acc, c))
  {
  }

  /** evaluateInsideBrackets: a bracketed sum must end at ')', or it is BRACKET_ERROR. */
  function Factor(lib: MathParsing.MathLib, c: Cursor): (r: Result<(real, Cursor)>)
    requires WritesNoBracket(lib) && Consistent(c)
    ensures Advanced(c, r)
    decreases Brackets(c), Rest(c), 1
  {
    if c.lexeme == "(" then
      var d :- Next(lib, c);
      var x :- Sum(lib, d);
      if x.1.lexeme != ")" then Err(BracketError)
      else
        var f :- Next(lib, x.1);
        Ok((x.0, f))
    else NumberValue(lib, c)
  }

  /**
   * getNumberValue: a NUMBER lexeme that Double.parseDouble accepts; a
   * VARIABLE is VARIABLE_DETECTED_ERROR and anything else SYNTAX_ERROR.
   */
  function NumberValue(lib: MathParsing.MathLib, c: Cursor): (r: Result<(real, Cursor)>)
    requires WritesNoBracket(lib) && Consistent(c)
    ensures Advanced(c, r)
    ensures r.Ok? ==> c.lexemeType == Number && Numbers.ParseDouble(c.lexeme) == Ok(r.value.0)
    ensures c.lexemeType == Variable ==> r == Err(VariableDetectedError)
    ensures c.lexemeType != Number && c.lexemeType != Variable ==> r == Err(SyntaxError)
    ensures c.lexemeType == Number && Numbers.ParseDouble(c.lexeme).Err? ==> r == Err(SyntaxError)
    decreases Brackets(c), Rest(c), 0
  {
    if c.lexemeType == Number then
      match Numbers.ParseDouble(c.lexeme)
      case Err(_) => Err(SyntaxError)
      case Ok(v) =>
        var d :- Next(lib, c);
        Ok((v, d))
    else if c.lexemeType == Variable then Err(VariableDetectedError)
    else Err(SyntaxError)
  }

  /**
   * getExpressionResult: the text loses its whitespace and is read from the
   * stored position and sign; EOE in front is NO_EXPRESSION_ERROR, a lexeme
   * left after the sum is SYNTAX_ERROR, and the value is rounded to two
   * decimal places.
   */
  function ExpressionResult(lib: MathParsing.MathLib, c: Cursor): Result<(real, Cursor)>
    requires WritesNoBracket(lib)
  {
    var e := StripWhitespace(c.text);
    var d :- Lex(lib, e, c.index, c.unary);
    if d.lexeme == EOE then Err(NoExpressionError)
    else
      var x :- Sum(lib, d);
      Finished(x)
  }

  /** A value of getExpressionResult is read up to EOE and is a whole number of hundredths. */
  lemma {:induction false} ExpressionRounded(lib: MathParsing.MathLib, c: Cursor)
    requires WritesNoBracket(lib)
    ensures var r := ExpressionResult(lib, c);
      r.Ok? ==> r.value.1.lexeme == EOE && Numbers.Hundredths(r.value.0)
  {
    var d := Lex(lib, StripWhitespace(c.text), c.index, c.unary);
    if d.Ok? && d.value.lexeme != EOE {
      var x := Sum(lib, d.value);
      if x.Ok? {
        assert ExpressionResult(lib, c) == Finished(x.value);
      }
    }
  }

  /** The end of getExpressionResult: a lexeme left after the sum is SYNTAX_ERROR; otherwise the value rounded to two places. */
  function Finished(x: (real, Cursor)): (r: Result<(real, Cursor)>)
    ensures r.Ok? <==> x.1.lexeme == EOE
    ensures r.Err? ==> r.error == SyntaxError
    ensures r.Ok? ==> r.value.1 == x.1 && Numbers.Hundredths(r.value.0)
    ensures r.Ok? ==> x.0 - 1.0 / 200.0 < r.value.0 <= x.0 + 1.0 / 200.0
  {
    if x.1.lexeme != EOE then Err(SyntaxError) else Ok((Numbers.Round2(x.0), x.1))
  }

  /** The value of a grammar level without its cursor. */
  function ValueOf(r: Result<(real, Cursor)>): Result<real>
  {
    if r.Ok? then Ok(r.value.0) else Err(r.error)
  }

  /** A result without its value: whether it failed, and how. */
  function OutcomeOf<T>(r: Result<T>): Outcome
  {
    if r.Ok? then Pass else Fail(r.error)
  }

  /** The text still to be read from the cursor's position. */
  function Remaining(c: Cursor): nat
  {
    if c.index <= |c.text| then |c.text| - c.index else 0
  }

  /**
   * The loop of setVariablesValue: the lexer reads the expression, and each
   * VARIABLE it meets has its first occurrence in the copy replaced by the
   * next queued value (INCORRECT_VALUES_QUANTITY_ERROR when none is left);
   * at EOE the copy is the text to store, provided every value was used
   * (INCORRECT_VARIABLES_QUANTITY_ERROR otherwise).
   */
  function BindFrom(lib: MathParsing.MathLib, c: Cursor, copy: string, values: seq<int>): Result<string>
    requires WritesNoBracket(lib)
    decreases Brackets(c), Remaining(c)
  {
    var d :- Lex(lib, c.text, c.index, c.unary);
    if d.lexemeType == Variable then
      if values == [] then Err(IncorrectValuesQuantityError)
      else BindFrom(lib, d, ReplaceFirst(copy, d.lexeme, IntToString(values[0])), values[1..])
    else if d.lexeme == EOE then
      if values == [] then Ok(copy) else Err(IncorrectVariablesQuantityError)
    else BindFrom(lib, d, copy, values)
  }

  /** One round of the loop of setVariablesValue, from the lexeme read at c. */
  lemma {:induction false} BindFromStep(lib: MathParsing.MathLib, c: Cursor, copy: string, values: seq<int>)
    requires WritesNoBracket(lib)
    ensures var d := Lex(lib, c.text, c.index, c.unary);
      BindFrom(lib, c, copy, values) ==
        if d.Err? then Err(d.error)
        else if d.value.lexemeType == Variable then
          if values == [] then Err(IncorrectValuesQuantityError)
          else BindFrom(lib, d.value, ReplaceFirst(copy, d.value.lexeme, IntToString(values[0])), values[1..])
        else if d.value.lexeme == EOE then
          if values == [] then Ok(copy) else Err(IncorrectVariablesQuantityError)
        else BindFrom(lib, d.value, copy, values)
  {
  }

  /** setVariablesValue: the text loses its whitespace and is read from the stored position and sign. */
  function Bind(lib: MathParsing.MathLib, c: Cursor, values: seq<int>): Result<string>
    requires WritesNoBracket(lib)
  {
    var e := StripWhitespace(c.text);
    BindFrom(lib, c.(text := e), e, values)
  }

  /** The VARIABLE lexemes the lexer meets before EOE, in order, or the error that stops it. */
  function Variables(lib: MathParsing.MathLib, c: Cursor): (r: Result<seq<string>>)
    requires WritesNoBracket(lib)
    ensures r.Ok? ==> forall k :: 0 <= k < |r.value| ==> r.value[k] != []
    decreases Brackets(c), Remaining(c)
  {
    var d :- Lex(lib, c.text, c.index, c.unary);
    if d.lexemeType == Variable then
      var rest :- Variables(lib, d);
      Ok([d.lexeme] + rest)
    else if d.lexeme == EOE then Ok([])
    else Variables(lib, d)
  }

  /** The text after each name in turn has its first occurrence replaced by the matching value. */
  function Substituted(copy: string, names: seq<string>, values: seq<int>): string
    requires |names| == |values| && forall k :: 0 <= k < |names| ==> names[k] != []
    decreases |names|
  {
    if names == [] then copy
    else Substituted(ReplaceFirst(copy, names[0], IntToString(values[0])), names[1..], values[1..])
  }

  /**
   * Binding succeeds exactly when there are as many values as VARIABLE
   * lexemes, and then stores the copy with each of them substituted in turn;
   * too few values or too many give the two quantity errors.
   */
  lemma {:induction false} BindFromVariables(lib: MathParsing.MathLib, c: Cursor, copy: string, values: seq<int>)
    requires WritesNoBracket(lib)
    ensures var b := BindFrom(lib, c, copy, values); var vs := Variables(lib, c);
      (b.Ok? <==> vs.Ok? && |vs.value| == |values|) &&
      (b.Ok? ==> b.value == Substituted(copy, vs.value, values)) &&
      (vs.Ok? && |values| < |vs.value| ==> b == Err(IncorrectValuesQuantityError)) &&
      (vs.Ok? && |vs.value| < |values| ==> b == Err(IncorrectVariablesQuantityError))
    decreases Brackets(c), Remaining(c)
  {
    var x := Lex(lib, c.text, c.index, c.unary);
    if x.Ok? {
      var d := x.value;
      if d.lexemeType == Variable {
        if values != [] {
          BindFromVariables(lib, d, ReplaceFirst(copy, d.lexeme, IntToString(values[0])), values[1..]);
        }
      } else if d.lexeme != EOE {
        BindFromVariables(lib, d, copy, values);
      }
    }
  }

  /** A text without letters has no VARIABLE lexemes, and the lexer reads it to the end without failing. */
  lemma {:induction false} VariablesWithoutLetters(lib: MathParsing.MathLib, c: Cursor)
    requires WritesNoBracket(lib)
    requires c.index <= |c.text| && forall k :: 0 <= k < |c.text| ==> !IsLetter(c.text[k])
    ensures Variables(lib, c) == Ok([])
    decreases Remaining(c)
  {
    var d := LexWithoutLetters(lib, c.text, c.index, c.unary);
    if d.lexeme != EOE {
      VariablesWithoutLetters(lib, d);
    }
  }

  /** Without letters the lexer never fails, never sees a VARIABLE and leaves the text as it is. */
  lemma {:induction false} LexWithoutLetters(lib: MathParsing.MathLib, e: string, i: nat, u: char) returns (d: Cursor)
    requires WritesNoBracket(lib)
    requires i <= |e| && forall k :: 0 <= k < |e| ==> !IsLetter(e[k])
    ensures Lex(lib, e, i, u) == Ok(d)
    ensures d.text == e && i <= d.index <= |e| && d.lexemeType != Variable
    ensures d.lexemeType == NoType || i < d.index
    decreases |e| - i
  {
    if i < |e| && SimpleDescent.IsDelimiter(e[i]) && e[i] == '-' && (i == 0 || SimpleDescent.IsDelimiter(e[i - 1])) {
      d := LexWithoutLetters(lib, e, i + 1, '-');
    } else {
      d := Lex(lib, e, i, u).value;
    }
  }

  /**
   * Binding text without letters: with no values the stripped text is stored
   * as it is; any value is one too many.
   */
  lemma {:induction false} BindWithoutLetters(lib: MathParsing.MathLib, c: Cursor, values: seq<int>)
    requires WritesNoBracket(lib)
    requires var e := StripWhitespace(c.text); c.index <= |e| && forall k :: 0 <= k < |e| ==> !IsLetter(e[k])
    ensures Bind(lib, c, values) ==
      if values == [] then Ok(StripWhitespace(c.text)) else Err(IncorrectVariablesQuantityError)
  {
    var e := StripWhitespace(c.text);
    VariablesWithoutLetters(lib, c.(text := e));
    BindFromVariables(lib, c.(text := e), e, values);
  }

  /** The letter loop stops at the first delimiter, or at the last character of the text, whichever comes first. */
  lemma {:induction false} WordEndAt(e: string, m: nat, j: nat)
    requires m <= j < |e|
    requires forall n :: m <= n < j ==> !SimpleDescent.IsDelimiter(e[n])
    requires SimpleDescent.IsDelimiter(e[j]) || j + 1 == |e|
    ensures WordEnd(e, m) == j
    decreases j - m
  {
    if m < j {
      WordEndAt(e, m + 1, j);
    }
  }

  /** A '-' at the start or after a delimiter, before a digit, is the sign of that NUMBER, and no sign is left pending. */
  lemma {:induction false} LexSignedNumber(lib: MathParsing.MathLib, e: string, i: nat, u: char)
    requires WritesNoBracket(lib)
    requires i + 1 < |e| && e[i] == '-' && (i == 0 || SimpleDescent.IsDelimiter(e[i - 1])) && IsDigit(e[i + 1])
    ensures var j := SimpleDescent.DelimiterFrom(e, i + 1);
      Lex(lib, e, i, u) == Ok(Cursor(e, j, "-" + e[i + 1..j], Number, ' '))
  {
  }

  /** A '-' after an operand is the operator: a DELIMITER of its own, with the pending sign untouched. */
  lemma {:induction false} LexMinusOperator(lib: MathParsing.MathLib, e: string, i: nat, u: char)
    requires WritesNoBracket(lib)
    requires 0 < i < |e| && e[i] == '-' && !SimpleDescent.IsDelimiter(e[i - 1])
    ensures Lex(lib, e, i, u) == Ok(Cursor(e, i + 1, "-", Delimiter, u))
  {
  }

  /**
   * A sign before '(' does not apply to the bracket: the lexeme is the '('
   * and the sign stays pending, for the first NUMBER inside it.
   */
  lemma {:induction false} LexSignBeforeBracket(lib: MathParsing.MathLib, e: string, i: nat, u: char)
    requires WritesNoBracket(lib)
    requires i + 1 < |e| && e[i] == '-' && (i == 0 || SimpleDescent.IsDelimiter(e[i - 1])) && e[i + 1] == '('
    ensures Lex(lib, e, i, u) == Ok(Cursor(e, i + 2, "(", Delimiter, '-'))
  {
  }

  /** A word that ends at a delimiter other than '(' is a VARIABLE: the whole word, the pending sign kept. */
  lemma {:induction false} LexVariable(lib: MathParsing.MathLib, e: string, i: nat, j: nat, u: char)
    requires WritesNoBracket(lib)
    requires i < j < |e| && IsLetter(e[i])
    requires forall n :: i < n < j ==> !SimpleDescent.IsDelimiter(e[n])
    requires SimpleDescent.IsDelimiter(e[j]) && e[j] != '('
    ensures Lex(lib, e, i, u) == Ok(Cursor(e, j, e[i..j], Variable, u))
  {
    WordEndAt(e, i + 1, j);
  }

  /**
   * A word that runs to the end of the text is a VARIABLE without its last
   * character, which is read as the next lexeme: at the end of "2+x1" the
   * VARIABLE is "x".
   */
  lemma {:induction false} LexTrailingWord(lib: MathParsing.MathLib, e: string, i: nat, u: char)
    requires WritesNoBracket(lib)
    requires i + 1 < |e| && IsLetter(e[i])
    requires forall n :: i < n < |e| ==> !SimpleDescent.IsDelimiter(e[n])
    ensures Lex(lib, e, i, u) == Ok(Cursor(e, |e| - 1, e[i..|e| - 1], Variable, u))
  {
    WordEndAt(e, i + 1, |e| - 1);
  }

  /** A letter that is the last character of the text is an index error. */
  lemma {:induction false} LexLastLetter(lib: MathParsing.MathLib, e: string, u: char)
    requires WritesNoBracket(lib)
    requires e != [] && IsLetter(e[|e| - 1])
    ensures Lex(lib, e, |e| - 1, u) == Err(Runtime(IndexOutOfBounds))
  {
  }

  /**
   * A tan, sin or cos call whose text first occurs at i: the text keeps what
   * stands before i, has the value written in place of the call and every
   * later occurrence of the call replaced too, and the position lands right
   * after the value, which is the NUMBER lexeme.
   */
  lemma {:induction false} LexMathCall(lib: MathParsing.MathLib, e: string, i: nat, j: nat, u: char)
    requires WritesNoBracket(lib)
    requires i < j < |e| && IsLetter(e[i]) && e[i..j] in MathFunctions && e[j] == '('
    requires forall n :: i < n < j ==> !SimpleDescent.IsDelimiter(e[n])
    requires CloseFrom(e, j + 1) < |e|
    requires Numbers.ParseDouble(e[j + 1..CloseFrom(e, j + 1)]).Ok?
    requires !Contains(e[..CloseFrom(e, j + 1)], e[i..CloseFrom(e, j + 1) + 1])
    ensures var k := CloseFrom(e, j + 1);
      var w := MathResult(lib, e[i..j], e[j + 1..k]).value;
      Lex(lib, e, i, u) == Ok(Cursor(e[..i] + w + ReplaceAll(e[k + 1..], e[i..k + 1], w), i + |w|, w, Number, u))
  {
    WordEndAt(e, i + 1, j);
    assert Lex(lib, e, i, u) == LexCall(lib, e, i, j, u);
    LexCallText(lib, e, i, j, u);
  }

  /** An evaluated call whose text first occurs at i: the text keeps what stands before i and has the value written there. */
  lemma {:induction false} LexCallText(lib: MathParsing.MathLib, e: string, i: nat, j: nat, u: char)
    requires WritesNoBracket(lib)
    requires i < j < |e| && e[i..j] in MathFunctions && e[j] == '('
    requires CloseFrom(e, j + 1) < |e|
    requires Numbers.ParseDouble(e[j + 1..CloseFrom(e, j + 1)]).Ok?
    requires !Contains(e[..CloseFrom(e, j + 1)], e[i..CloseFrom(e, j + 1) + 1])
    ensures var k := CloseFrom(e, j + 1);
      var w := MathResult(lib, e[i..j], e[j + 1..k]).value;
      LexCall(lib, e, i, j, u) == Ok(Cursor(e[..i] + w + ReplaceAll(e[k + 1..], e[i..k + 1], w), i + |w|, w, Number, u))
  {
    var k := CloseFrom(e, j + 1);
    var w := MathResult(lib, e[i..j], e[j + 1..k]).value;
    LexCallValue(lib, e, i, j, k, w, u);
    ReplaceFirstCall(e, i, j, k, w);
  }

  /** An evaluated call read from the name at i: every copy of name(arguments) becomes the value w, and the position lands the length of w after i. */
  lemma {:induction false} LexCallValue(lib: MathParsing.MathLib, e: string, i: nat, j: nat, k: nat, w: string, u: char)
    requires WritesNoBracket(lib)
    requires i < j < |e| && e[i..j] in MathFunctions && e[j] == '('
    requires k == CloseFrom(e, j + 1) && k < |e|
    requires MathResult(lib, e[i..j], e[j + 1..k]) == Ok(w)
    ensures LexCall(lib, e, i, j, u) == Ok(Cursor(ReplaceAll(e, e[i..j] + "(" + e[j + 1..k] + ")", w), i + |w|, w, Number, u))
  {
    assert |e[i..j]| == j - i && |e[j + 1..k]| == k - j - 1;
  }

  /** Replacing every copy of the call text e[i..k + 1], whose first copy is the one at i, keeps e[..i] and writes w there. */
  lemma {:induction false} ReplaceFirstCall(e: string, i: nat, j: nat, k: nat, w: string)
    requires i < j < k < |e| && e[j] == '(' && e[k] == ')'
    requires !Contains(e[..k], e[i..k + 1])
    ensures ReplaceAll(e, e[i..j] + "(" + e[j + 1..k] + ")", w) == e[..i] + w + ReplaceAll(e[k + 1..], e[i..k + 1], w)
  {
    CallInText(e, i, j, k);
    var t := e[i..k + 1];
    assert |t| == k + 1 - i && e[i..i + |t|] == t;
    ReplaceAllAt(e, t, w, i);
  }

  /**
   * getExpressionResult on text whose whitespace-free form starts with a
   * word ended by a delimiter other than '(': VARIABLE_DETECTED_ERROR, unless
   * the word is "EOE", which reads as the end of the text, so that the
   * expression counts as missing.
   */
  lemma {:induction false} ExpressionStartingWithVariable(lib: MathParsing.MathLib, c: Cursor, j: nat)
    requires WritesNoBracket(lib) && c.index == 0 && c.unary != '-'
    requires var e := StripWhitespace(c.text);
      0 < j < |e| && IsLetter(e[0]) && SimpleDescent.IsDelimiter(e[j]) && e[j] != '(' &&
      forall n :: 0 < n < j ==> !SimpleDescent.IsDelimiter(e[n])
    ensures ExpressionResult(lib, c) ==
      if StripWhitespace(c.text)[..j] == EOE then Err(NoExpressionError) else Err(VariableDetectedError)
  {
    var e := StripWhitespace(c.text);
    LexVariable(lib, e, 0, j, c.unary);
    var d := Cursor(e, j, e[0..j], Variable, c.unary);
    assert e[0..j] == e[..j];
    if e[..j] != EOE {
      assert d.lexeme[0] == e[0];
      assert Factor(lib, d) == Err(VariableDetectedError);
      assert Product(lib, d) == Err(VariableDetectedError);
      assert Sum(lib, d) == Err(VariableDetectedError);
    }
  }

  class StringParser {
    /** Math.tan/sin/cos and Double.toString, which the parser calls. */
    const lib: MathParsing.MathLib
    var expression: string
    var currentIndex: nat
    var lexeme: string
    var lexemeType: LexemeType
    var unaryOperator: char

    function Position(): Cursor
      reads this
    {
      Cursor(expression, currentIndex, lexeme, lexemeType, unaryOperator)
    }

    /** StringParser(expression): the text as given, read from the start; lexeme and type are still null. */
    constructor(lib: MathParsing.MathLib, expression: string)
      requires WritesNoBracket(lib)
      ensures this.lib == lib && Position() == Cursor(expression, 0, "", Unset, '\0')
    {
      this.lib := lib;
      this.expression := expression;
      currentIndex := 0;
      lexeme := "";
      lexemeType := Unset;
      unaryOperator := '\0';
    }

    method GetLexeme() returns (r: Outcome)
      requires WritesNoBracket(lib)
      modifies this
      ensures r == OutcomeOf(Lex(lib, old(expression), old(currentIndex), old(unaryOperator)))
      ensures r.Pass? ==> Position() == Lex(lib, old(expression), old(currentIndex), old(unaryOperator)).value
      decreases |expression| - currentIndex
    {
      lexemeType := NoType;
      lexeme := "";
      if currentIndex == |expression| {
        lexeme := EOE;
        return Pass;
      }
      if currentIndex > |expression| {
        return Fail(Runtime(IndexOutOfBounds));
      }
      var symbol := expression[currentIndex];
      if SimpleDescent.IsDelimiter(symbol) {
        if currentIndex == 0 && symbol == '-' {
          unaryOperator := symbol;
          currentIndex := currentIndex + 1;
          r := GetLexeme();
        } else if currentIndex != 0 && SimpleDescent.IsDelimiter(expression[currentIndex - 1]) && symbol == '-' {
          unaryOperator := symbol;
          currentIndex := currentIndex + 1;
          r := GetLexeme();
        } else {
          lexeme := lexeme + [symbol];
          currentIndex := currentIndex + 1;
          lexemeType := Delimiter;
          r := Pass;
        }
      } else if IsDigit(symbol) {
        ReadNumber();
        r := Pass;
      } else if IsLetter(symbol) {
        r := ReadWord();
      } else {
        lexeme := EOE;
        r := Pass;
      }
    }

    /** The digit branch of getLexeme. */
    method ReadNumber()
      requires currentIndex < |expression| && IsDigit(expression[currentIndex]) && lexeme == []
      modifies this
      ensures Position() == LexNumber(old(expression), old(currentIndex), old(unaryOperator))
    {
      if unaryOperator == '-' {
        lexeme := lexeme + [unaryOperator];
      }
      ghost var start := currentIndex;
      ghost var sign := lexeme;
      assert sign == if unaryOperator == '-' then "-" else "";
      while !SimpleDescent.IsDelimiter(expression[currentIndex])
        invariant expression == old(expression) && start == old(currentIndex)
        invariant start <= currentIndex < |expression|
        invariant lexeme == sign + expression[start..currentIndex]
        invariant start < currentIndex ==>
          SimpleDescent.DelimiterFrom(expression, start) == SimpleDescent.DelimiterFrom(expression, currentIndex)
        decreases |expression| - currentIndex
      {
        SliceExtend(sign, expression, start, currentIndex);
        lexeme := lexeme + [expression[currentIndex]];
        currentIndex := currentIndex + 1;
        if currentIndex >= |expression| {
          break;
        }
      }
      assert currentIndex == SimpleDescent.DelimiterFrom(expression, start);
      lexemeType := Number;
      unaryOperator := ' ';
    }

    /** The letter branch of getLexeme: the word, then a call or a VARIABLE. */
    method ReadWord() returns (r: Outcome)
      requires WritesNoBracket(lib)
      requires currentIndex < |expression| && IsLetter(expression[currentIndex]) && lexeme == []
      modifies this
      ensures r == OutcomeOf(LexWord(lib, old(expression), old(currentIndex), old(unaryOperator)))
      ensures r.Pass? ==> Position() == LexWord(lib, old(expression), old(currentIndex), old(unaryOperator)).value
    {
      ghost var start := currentIndex;
      ReadLetters();
      if currentIndex >= |expression| {
        return Fail(Runtime(IndexOutOfBounds));
      }
      if expression[currentIndex] == '(' {
        r := ReadCall(start);
      } else {
        lexemeType := Variable;
        r := Pass;
      }
    }

    /** The loop of the letter branch: the word up to a delimiter, or up to the last character of the text. */
    method ReadLetters()
      requires currentIndex < |expression| && !SimpleDescent.IsDelimiter(expression[currentIndex]) && lexeme == []
      modifies this
      ensures expression == old(expression) && unaryOperator == old(unaryOperator) && lexemeType == old(lexemeType)
      ensures currentIndex == WordEnd(expression, old(currentIndex) + 1) && lexeme == expression[old(currentIndex)..currentIndex]
    {
      ghost var start := currentIndex;
      while !SimpleDescent.IsDelimiter(expression[currentIndex])
        invariant expression == old(expression) && unaryOperator == old(unaryOperator) && lexemeType == old(lexemeType)
        invariant start == old(currentIndex) <= currentIndex < |expression|
        invariant start < currentIndex ==> currentIndex + 1 < |expression|
        invariant lexeme == expression[start..currentIndex]
        invariant start < currentIndex ==> WordEnd(expression, start + 1) == WordEnd(expression, currentIndex)
        decreases |expression| - currentIndex
      {
        SliceExtend([], expression, start, currentIndex);
        lexeme := lexeme + [expression[currentIndex]];
        currentIndex := currentIndex + 1;
        if currentIndex >= |expression| - 1 {
          break;
        }
      }
    }

    /** The call part of the letter branch of getLexeme, on '(' after the name. */
    method ReadCall(ghost start: nat) returns (r: Outcome)
      requires WritesNoBracket(lib)
      requires start < currentIndex < |expression| && expression[currentIndex] == '('
      requires lexeme == expression[start..currentIndex]
      modifies this
      ensures r == OutcomeOf(LexCall(lib, old(expression), start, old(currentIndex), old(unaryOperator)))
      ensures r.Pass? ==> Position() == LexCall(lib, old(expression), start, old(currentIndex), old(unaryOperator)).value
    {
      ghost var open := currentIndex;
      currentIndex := currentIndex + 1;
      var functionArguments := ReadArguments();
      if currentIndex == |expression| {
        return Fail(Runtime(IndexOutOfBounds));
      }
      if lexeme in MathFunctions {
        CallInText(expression, start, open, currentIndex);
        ghost var k := currentIndex;
        var written := GetResultMathFunction(lexeme, functionArguments);
        if written.Err? {
          return Fail(written.error);
        }
        assert currentIndex == k - (|old(lexeme) + "(" + functionArguments + ")"| - |written.value|) + 1;
        lexeme := written.value;
      }
      // Otherwise getResultClientFunction gives back the bare name: no caller object is set.
      lexemeType := Number;
      r := Pass;
    }

    /** The loop of the call part: the arguments up to the next ')', or to the end of the text. */
    method ReadArguments() returns (functionArguments: string)
      requires currentIndex <= |expression|
      modifies this
      ensures expression == old(expression) && unaryOperator == old(unaryOperator)
      ensures lexeme == old(lexeme) && lexemeType == old(lexemeType)
      ensures currentIndex == CloseFrom(expression, old(currentIndex))
      ensures functionArguments == expression[old(currentIndex)..currentIndex]
    {
      ghost var start := currentIndex;
      functionArguments := "";
      while currentIndex < |expression| && expression[currentIndex] != ')'
        invariant expression == old(expression) && unaryOperator == old(unaryOperator)
        invariant lexeme == old(lexeme) && lexemeType == old(lexemeType)
        invariant start == old(currentIndex) <= currentIndex <= |expression|
        invariant functionArguments == expression[start..currentIndex]
        invariant CloseFrom(expression, start) == CloseFrom(expression, currentIndex)
        decreases |expression| - currentIndex
      {
        SliceExtend([], expression, start, currentIndex);
        functionArguments := functionArguments + [expression[currentIndex]];
        currentIndex := currentIndex + 1;
      }
    }

    /**
     * getResultMathFunction: the value text, with every occurrence of the
     * call text replaced by it and the position moved by the difference in
     * length, from the closing bracket.
     */
    method GetResultMathFunction(name: string, arguments: string) returns (r: Result<string>)
      requires WritesNoBracket(lib) && name in MathFunctions
      requires currentIndex + 1 >= |name| + |arguments| + 2
      modifies this
      ensures r == MathResult(lib, name, arguments)
      ensures r.Ok? ==> expression == ReplaceAll(old(expression), name + "(" + arguments + ")", r.value)
      ensures r.Ok? ==> currentIndex == old(currentIndex) - (|name + "(" + arguments + ")"| - |r.value|) + 1
      ensures lexeme == old(lexeme) && lexemeType == old(lexemeType) && unaryOperator == old(unaryOperator)
    {
      var x := Numbers.ParseDouble(arguments);
      if x.Err? {
        return Err(x.error);
      }
      var functionValue := MathFunctionValue(lib, name, x.value);
      functionValue := Numbers.Round2(functionValue);
      var lexemeWithFunctionArguments := name + "(" + arguments + ")";
      var written := lib.toText(functionValue);
      expression := ReplaceAll(expression, lexemeWithFunctionArguments, written);
      currentIndex := currentIndex - (|lexemeWithFunctionArguments| - |written|) + 1;
      return Ok(written);
    }

    method AddOrSubtractTwoTerms() returns (r: Result<real>)
      requires WritesNoBracket(lib) && Consistent(Position())
      modifies this
      ensures r == ValueOf(Sum(lib, old(Position())))
      ensures r.Ok? ==> Position() == Sum(lib, old(Position())).value.1
      decreases Brackets(Position()), Rest(Position()), 3
    {
      r := MultiplyOrDivideTwoFactors();
      if r.Err? {
        return;
      }
      ghost var top := old(Position());
      var result := r.value;
      while |lexeme| > 0 && (lexeme[0] == '+' || lexeme[0] == '-')
        invariant Consistent(Position()) && Below(Position(), top)
        invariant Sum(lib, top) == SumRest(lib, result, Position())
        decreases Brackets(Position()), Rest(Position())
      {
        SumRestContinues(lib, result, Position());
        var operator := lexeme[0];
        var g := GetLexeme();
        if g.Fail? {
          return Err(g.error);
        }
        var partialResult := MultiplyOrDivideTwoFactors();
        if partialResult.Err? {
          return Err(partialResult.error);
        }
        ghost var acc := result;
        if operator == '-' {
          result := result - partialResult.value;
        } else if operator == '+' {
          result := result + partialResult.value;
        }
        assert result == SimpleDescent.Arith(operator, acc, partialResult.value);
      }
      SumRestStops(lib, result, Position());
      if lexeme == [] {
        return Err(Runtime(IndexOutOfBounds));
      }
      return Ok(result);
    }

    method MultiplyOrDivideTwoFactors() returns (r: Result<real>)
      requires WritesNoBracket(lib) && Consistent(Position())
      modifies this
      ensures r == ValueOf(Product(lib, old(Position())))
      ensures r.Ok? ==> Position() == Product(lib, old(Position())).value.1
      decreases Brackets(Position()), Rest(Position()), 2
    {
      r := EvaluateInsideBrackets();
      if r.Err? {
        return;
      }
      ghost var top := old(Position());
      var result := r.value;
      while |lexeme| > 0 && (lexeme[0] == '*' || lexeme[0] == '/')
        invariant Consistent(Position()) && Below(Position(), top)
        invariant Product(lib, top) == ProductRest(lib, result, Position())
        decreases Brackets(Position()), Rest(Position())
      {
        ProductRestContinues(lib, result, Position());
        var operator := lexeme[0];
        var g := GetLexeme();
        if g.Fail? {
          return Err(g.error);
        }
        var partialResult := EvaluateInsideBrackets();
        if partialResult.Err? {
          return Err(partialResult.error);
        }
        if operator == '/' && partialResult.value == 0.0 {
          return Err(DivisionByZeroError);
        }
        // `*` multiplies, `/` divides the running product
        result := SimpleDescent.Arith(operator, result, partialResult.value);
      }
      ProductRestStops(lib, result, Position());
      if lexeme == [] {
        return Err(Runtime(IndexOutOfBounds));
      }
      return Ok(result);
    }

    method EvaluateInsideBrackets() returns (r: Result<real>)
      requires WritesNoBracket(lib) && Consistent(Position())
      modifies this
      ensures r == ValueOf(Factor(lib, old(Position())))
      ensures r.Ok? ==> Position() == Factor(lib, old(Position())).value.1
      decreases Brackets(Position()), Rest(Position()), 1
    {
      if lexeme == "(" {
        var g := GetLexeme();
        if g.Fail? {
          return Err(g.error);
        }
        r := AddOrSubtractTwoTerms();
        if r.Err? {
          return;
        }
        if lexeme != ")" {
          return Err(BracketError);
        }
        g := GetLexeme();
        if g.Fail? {
          return Err(g.error);
        }
      } else {
        r := GetNumberValue();
      }
    }

    method GetNumberValue() returns (r: Result<real>)
      requires WritesNoBracket(lib) && Consistent(Position())
      modifies this
      ensures r == ValueOf(NumberValue(lib, old(Position())))
      ensures r.Ok? ==> Position() == NumberValue(lib, old(Position())).value.1
    {
      if lexemeType == Number {
        var parsed := Numbers.ParseDouble(lexeme);
        if parsed.Err? {
          return Err(SyntaxError);
        }
        var g := GetLexeme();
        if g.Fail? {
          return Err(g.error);
        }
        return Ok(parsed.value);
      } else if lexemeType == Variable {
        return Err(VariableDetectedError);
      }
      return Err(SyntaxError);
    }

    method GetExpressionResult() returns (r: Result<real>)
      requires WritesNoBracket(lib)
      modifies this
      ensures r == ValueOf(ExpressionResult(lib, old(Position())))
      ensures r.Ok? ==> Position() == ExpressionResult(lib, old(Position())).value.1
    {
      expression := StripWhitespace(expression);
      var g := GetLexeme();
      if g.Fail? {
        return Err(g.error);
      }
      if lexeme == EOE {
        return Err(NoExpressionError);
      }
      r := AddOrSubtractTwoTerms();
      if r.Err? {
        return;
      }
      if lexeme != EOE {
        return Err(SyntaxError);
      }
      return Ok(Numbers.Round2(r.value));
    }

    method SetVariablesValue(values: seq<int>) returns (r: Outcome)
      requires WritesNoBracket(lib)
      modifies this
      ensures r == OutcomeOf(Bind(lib, old(Position()), values))
      ensures r.Pass? ==> Position() == Cursor(Bind(lib, old(Position()), values).value, 0, "", Unset, ' ')
    {
      expression := StripWhitespace(expression);
      var expressionWithSetedValues := expression;
      var queue := values;
      while true
        invariant Bind(lib, old(Position()), values) == BindFrom(lib, Position(), expressionWithSetedValues, queue)
        decreases Brackets(Position()), Remaining(Position())
      {
        ghost var before := Position();
        BindFromStep(lib, before, expressionWithSetedValues, queue);
        var g := GetLexeme();
        if g.Fail? {
          return g;
        }
        if lexemeType == Variable {
          if queue != [] {
            expressionWithSetedValues := ReplaceFirst(expressionWithSetedValues, lexeme, IntToString(queue[0]));
            queue := queue[1..];
          } else {
            return Fail(IncorrectValuesQuantityError);
          }
        } else if lexeme == EOE {
          if queue == [] {
            expression := expressionWithSetedValues;
            lexeme := "";
            lexemeType := Unset;
            currentIndex := 0;
            unaryOperator := ' ';
            return Pass;
          } else {
            return Fail(IncorrectVariablesQuantityError);
          }
        }
      }
    }
  }
}
