// The numeric layer of the math parsers: token priorities, built-in and client
// function calls written as operands ("min10,3"), the resolution of an operand
// to a number, the four operators, the operand-type validator, and the
// conversion-then-evaluation pipeline that the parsers share. Numbers are
// exact reals; the built-in trigonometric functions, Math.pow and
// Double.toString are parameters (MathLib), and client functions are tables
// from names to functions.

module MathParsing {
  import opened Errors
  import opened Text
  import opened Numbers
  import Converter
  import Postfix

  /** getTokenPriority of the math parsers. */
  function MathPriority(c: char): (p: int)
    ensures p > 1 <==> c == '+' || c == '-' || c == '*' || c == '/'
    ensures p == 3 <==> c == '*' || c == '/'
    ensures p == 1 <==> c == '('
    ensures p == -1 <==> c == ')'
    ensures p == 0 <==> !(c in "+-*/()")
  {
    if c == '*' || c == '/' then 3
    else if c == '+' || c == '-' then 2
    else if c == '(' then 1
    else if c == ')' then -1
    else 0
  }

  /** The built-in functions an operand may name. */
  const MathFunctions: seq<string> := ["tan", "sin", "cos", "pow", "min", "max"]

  /** Math.tan, Math.sin, Math.cos, Math.pow and Double.toString, left uninterpreted. */
  datatype MathLib = MathLib(
    tan: real -> real,
    sin: real -> real,
    cos: real -> real,
    pow: (real, real) -> real,
    toText: real -> string)

  /** The client function tables of an expression. */
  datatype ClientFunctions = ClientFunctions(one: map<string, real -> real>, two: map<string, (real, real) -> real>)

  /** A name that the binders keep and the evaluator calls. */
  predicate IsFunctionName(fns: ClientFunctions, name: string)
  {
    name in MathFunctions || name in fns.one || name in fns.two
  }

  function RealMax(a: real, b: real): real { if a >= b then a else b }

  function RealMin(a: real, b: real): real { if a <= b then a else b }

  /** The argument texts of a call operand: its digit-and-comma run split at the commas. */
  function Arguments(operand: string): (r: seq<string>)
    ensures forall k :: 0 <= k < |r| ==> ',' !in r[k]
    ensures forall k :: 0 <= k < |r| ==> AllDigits(r[k])
    ensures Join(r, ',') == TrimTrailing(Converter.FunctionArguments(operand), ',')
  {
    Split(Converter.FunctionArguments(operand), ',')
  }

  /** getMathFunctionResult before rounding: the built-in applied to its parsed arguments. */
  function MathFunctionValue(lib: MathLib, operand: string): (r: Result<real>)
    ensures r.Err? ==> r.error == Runtime(NumberFormat)
    ensures r.Err? ==> var args := Arguments(operand);
      |args| in {1, 2} && (ParseDouble(args[0]).Err? || (|args| == 2 && ParseDouble(args[1]).Err?))
    ensures !(|Arguments(operand)| in {1, 2}) ==> r == Ok(0.0)
    ensures Converter.FunctionName(operand) !in MathFunctions ==> r == Ok(0.0)
    ensures var name := Converter.FunctionName(operand); var args := Arguments(operand);
      (|args| == 1 && !(name in ["tan", "sin", "cos"])) || (|args| == 2 && !(name in ["pow", "max", "min"])) ==> r == Ok(0.0)
  {
    var name := Converter.FunctionName(operand);
    var args := Arguments(operand);
    if |args| == 1 then
      if name == "tan" || name == "sin" || name == "cos" then
        var x :- ParseDouble(args[0]);
        Ok(if name == "tan" then lib.tan(x) else if name == "sin" then lib.sin(x) else lib.cos(x))
      else Ok(0.0)
    else if |args| == 2 then
      if name == "pow" || name == "max" || name == "min" then
        var x :- ParseDouble(args[0]);
        var y :- ParseDouble(args[1]);
        Ok(if name == "pow" then lib.pow(x, y) else if name == "max" then RealMax(x, y) else RealMin(x, y))
      else Ok(0.0)
    else Ok(0.0)
  }

  /**
   * getClientFunctionResult before rounding. The argument is parsed before the
   * table lookup is dereferenced, and a two-argument function receives its
   * first argument twice.
   */
  function ClientFunctionValue(fns: ClientFunctions, operand: string): (r: Result<real>)
    ensures r.Err? ==> r.error in {Runtime(NumberFormat), Runtime(NullFunction)}
    ensures r.Err? ==> var args := Arguments(operand);
      |args| in {1, 2} && (ParseDouble(args[0]).Err? || r.error == Runtime(NullFunction))
    ensures !(|Arguments(operand)| in {1, 2}) ==> r == Ok(0.0)
    ensures r == Err(Runtime(NullFunction)) <==> var args := Arguments(operand);
      var name := Converter.FunctionName(operand);
      |args| in {1, 2} && ParseDouble(args[0]).Ok? &&
      ((|args| == 1 && name !in fns.one) || (|args| == 2 && name !in fns.two))
  {
    var name := Converter.FunctionName(operand);
    var args := Arguments(operand);
    if |args| == 1 then
      var x :- ParseDouble(args[0]);
      if name in fns.one then Ok(fns.one[name](x)) else Err(Runtime(NullFunction))
    else if |args| == 2 then
      var x :- ParseDouble(args[0]);
      if name in fns.two then Ok(fns.two[name](x, x)) else Err(Runtime(NullFunction))
    else Ok(0.0)
  }

  /**
   * The text an operand stands for: a call is evaluated, rounded to two
   * decimals and formatted (getMathFunctionResult / getClientFunctionResult);
   * any other operand is its own text. A letter-initial operand that names no
   * function is a variable left unbound.
   */
  function OperandText(lib: MathLib, fns: ClientFunctions, operand: string): (r: Result<string>)
    ensures r == Err(VariableDetectedError) <==>
      operand != [] && IsLetter(operand[0]) && !IsFunctionName(fns, Converter.FunctionName(operand))
    ensures r.Err? ==> r.error == VariableDetectedError || r.error.Runtime?
    ensures !(operand != [] && IsLetter(operand[0])) ==> r == Ok(operand)
  {
    if operand != [] && IsLetter(operand[0]) then
      var name := Converter.FunctionName(operand);
      if name in MathFunctions then
        var v :- MathFunctionValue(lib, operand);
        Ok(lib.toText(Round2(v)))
      else if name in fns.one || name in fns.two then
        var v :- ClientFunctionValue(fns, operand);
        Ok(lib.toText(Round2(v)))
      else Err(VariableDetectedError)
    else Ok(operand)
  }

  /** The operand pushed by the double evaluator: its text parsed as a double. */
  function Resolve(lib: MathLib, fns: ClientFunctions, operand: string): (r: Result<real>)
    ensures r == Err(VariableDetectedError) <==>
      operand != [] && IsLetter(operand[0]) && !IsFunctionName(fns, Converter.FunctionName(operand))
    ensures r.Err? ==> r.error == VariableDetectedError || r.error.Runtime?
    ensures !(operand != [] && IsLetter(operand[0])) ==> r == ParseDouble(operand)
  {
    var text :- OperandText(lib, fns, operand);
    ParseDouble(text)
  }

  /**
   * A call's value reaches the stack rounded to two decimals, provided the
   * formatter writes that rounded value so that it parses back.
   */
  lemma {:induction false} ResolveCall(lib: MathLib, fns: ClientFunctions, operand: string, v: real)
    requires operand != [] && IsLetter(operand[0])
    requires Converter.FunctionName(operand) in MathFunctions ==> MathFunctionValue(lib, operand) == Ok(v)
    requires Converter.FunctionName(operand) !in MathFunctions ==>
      IsFunctionName(fns, Converter.FunctionName(operand)) && ClientFunctionValue(fns, operand) == Ok(v)
    requires ParseDouble(lib.toText(Round2(v))) == Ok(Round2(v))
    ensures Resolve(lib, fns, operand) == Ok(Round2(v))
    ensures Resolve(lib, fns, operand).Ok? ==> Round2(Resolve(lib, fns, operand).value) == Resolve(lib, fns, operand).value
  {
    Round2Idempotent(v);
  }

  lemma {:induction false} CommasOnly()
    ensures Arguments("max,,") == []
  {
    Converter.FunctionNameUnique("max,,", "max");
    Converter.ArgumentRunUnique("max,,", 3, ",,");
    SplitCommas();
  }

  /** Two commas split into three empty pieces, all of them dropped. */
  lemma {:induction false} SplitCommas()
    ensures Split(",,", ',') == []
  {
    assert ",,"[1..] == "," && ","[1..] == "";
    assert SplitAll(",", ',') == ["", ""];
    assert SplitAll(",,", ',') == ["", "", ""];
    assert DropTrailingEmpty(["", "", ""]) == [] by {
      assert ["", "", ""][..2] == ["", ""] && ["", ""][..1] == [""] && [""][..0] == [];
    }
  }

  /** A call whose arguments are only commas has no arguments at all and counts as 0. */
  lemma {:induction false} BuiltinNoArguments(lib: MathLib)
    ensures MathFunctionValue(lib, "max,,") == Ok(0.0)
  {
    CommasOnly();
  }

  /** The four operators with the earlier operand b on the left; a zero divisor is refused. */
  function MathApply(c: char, b: real, a: real): (r: Result<real>)
    ensures c == '+' ==> r == Ok(b + a)
    ensures c == '-' ==> r == Ok(b - a)
    ensures c == '*' ==> r == Ok(b * a)
    ensures c == '/' ==> r == (if a == 0.0 then Err(DivisionByZeroError) else Ok(b / a))
    ensures c in "+-*/" ==> (r.Err? <==> c == '/' && a == 0.0)
  {
    // Only the four operators have a priority above 1, so no other character reaches here.
    if c == '+' then Ok(b + a)
    else if c == '-' then Ok(b - a)
    else if c == '*' then Ok(b * a)
    else if a == 0.0 then Err(DivisionByZeroError)
    else Ok(b / a)
  }

  /** The double evaluator as an instance of the shared postfix scan. */
  function MathMachine(lib: MathLib, fns: ClientFunctions): Postfix.Machine<real>
  {
    Postfix.Machine(
      MathPriority,
      (operand: string) => Resolve(lib, fns, operand),
      (a: real) => Pass,
      (c: char, b: real, a: real) => MathApply(c, b, a))
  }

  /** expressionToReversePolishNotation followed by expressionInReversePolishNotationToResult. */
  function ExpressionValue(lib: MathLib, fns: ClientFunctions, expression: string): (r: Result<real>)
    ensures expression == [] ==> r == Err(Runtime(IndexOutOfBounds))
  {
    var postfix :- Converter.ToReversePolish(MathPriority, expression);
    Postfix.Evaluate(MathMachine(lib, fns), postfix)
  }

  /** The conversion and the evaluation, as the parsers run them. */
  method ExpressionResult(lib: MathLib, fns: ClientFunctions, expression: string) returns (r: Result<real>)
    ensures r == ExpressionValue(lib, fns, expression)
  {
    var postfix := Converter.ExpressionToReversePolishNotation(MathPriority, expression);
    if postfix.Err? {
      return Err(postfix.error);
    }
    r := Postfix.EvaluatePostfix(MathMachine(lib, fns), postfix.value);
  }

  // ------------------------------------------------ validateOperandTypeInExpression

  /** The validator's operand after one more priority-0 character: digits, and '.' once a digit is collected. */
  function Collect(operand: string, c: char): string
  {
    if IsDigit(c) then operand + [c]
    else if c == '.' && operand != [] then operand + [c]
    else operand
  }

  /** The operand the validator holds after reading t: reset at every character of non-zero priority. */
  function Collected(t: string): string
    decreases |t|
  {
    if t == [] then ""
    else
      var c := t[|t| - 1];
      if MathPriority(c) == 0 then Collect(Collected(t[..|t| - 1]), c) else ""
  }

  /** No operator or bracket ends an operand that holds a decimal point. */
  predicate OperandTypesValid(s: string)
  {
    forall k :: 0 <= k < |s| && MathPriority(s[k]) != 0 ==> '.' !in Collected(s[..k])
  }

  /** validateOperandTypeInExpression: false at the first operand with a '.' that an operator or bracket ends. */
  method ValidateOperandTypeInExpression(expression: string) returns (flag: bool)
    ensures flag == OperandTypesValid(expression)
  {
    var operand := "";
    flag := true;
    var i := 0;
    while i < |expression|
      invariant 0 <= i <= |expression|
      invariant operand == Collected(expression[..i])
      invariant forall k :: 0 <= k < i && MathPriority(expression[k]) != 0 ==> '.' !in Collected(expression[..k])
    {
      var symbol := expression[i];
      assert expression[..i + 1][..i] == expression[..i];
      if MathPriority(symbol) == 0 {
        if IsDigit(symbol) {
          operand := operand + [symbol];
        } else if symbol == '.' && operand != [] {
          operand := operand + [symbol];
        }
      } else {
        if '.' in operand {
          flag := false;
          break;
        } else {
          operand := "";
        }
      }
      i := i + 1;
    }
  }

  /** From position i to the end, t holds only priority-0 characters. */
  predicate ZeroFrom(t: string, i: nat)
  {
    forall m :: i <= m < |t| ==> MathPriority(t[m]) == 0
  }

  /** A digit was read since the last operator or bracket. */
  predicate DigitPending(t: string)
  {
    exists i :: 0 <= i < |t| && IsDigit(t[i]) && ZeroFrom(t, i)
  }

  /** A digit and then a point were read since the last operator or bracket. */
  predicate PointPending(t: string)
  {
    exists i, j :: 0 <= i < j < |t| && IsDigit(t[i]) && t[j] == '.' && ZeroFrom(t, i)
  }

  lemma {:induction false} ZeroFromInit(t: string, i: nat)
    requires i < |t|
    ensures ZeroFrom(t, i) <==> ZeroFrom(t[..|t| - 1], i) && MathPriority(t[|t| - 1]) == 0
  {
    assert forall m :: i <= m < |t| - 1 ==> t[..|t| - 1][m] == t[m];
  }

  lemma {:induction false} NotZeroFrom(t: string)
    requires t != [] && MathPriority(t[|t| - 1]) != 0
    ensures !DigitPending(t) && !PointPending(t)
  {
    forall i | 0 <= i < |t|
      ensures !ZeroFrom(t, i)
    {
      ZeroFromInit(t, i);
    }
  }

  /** The operand in hand is not empty exactly when a digit was read since the last reset. */
  lemma {:induction false} CollectedNonEmpty(t: string)
    ensures Collected(t) != [] <==> DigitPending(t)
    decreases |t|
  {
    if t != [] {
      var u := t[..|t| - 1];
      var c := t[|t| - 1];
      CollectedNonEmpty(u);
      if MathPriority(c) != 0 {
        NotZeroFrom(t);
      } else if IsDigit(c) {
        ZeroFromInit(t, |t| - 1);
        assert IsDigit(t[|t| - 1]) && ZeroFrom(t, |t| - 1);
      } else {
        if DigitPending(t) {
          var i :| 0 <= i < |t| && IsDigit(t[i]) && ZeroFrom(t, i);
          ZeroFromInit(t, i);
          assert i < |u| && u[i] == t[i];
        }
        if DigitPending(u) {
          var i :| 0 <= i < |u| && IsDigit(u[i]) && ZeroFrom(u, i);
          ZeroFromInit(t, i);
          assert t[i] == u[i];
        }
      }
    }
  }

  /** The operand in hand holds a '.' exactly when a digit and a later point were read since the last reset. */
  lemma {:induction false} CollectedHasPoint(t: string)
    ensures '.' in Collected(t) <==> PointPending(t)
    decreases |t|
  {
    if t != [] {
      var u := t[..|t| - 1];
      var c := t[|t| - 1];
      CollectedHasPoint(u);
      CollectedNonEmpty(u);
      if MathPriority(c) != 0 {
        NotZeroFrom(t);
      } else {
        assert '.' in Collected(t) <==> '.' in Collected(u) || (c == '.' && Collected(u) != []);
        if PointPending(t) {
          var i, j :| 0 <= i < j < |t| && IsDigit(t[i]) && t[j] == '.' && ZeroFrom(t, i);
          ZeroFromInit(t, i);
          assert u[i] == t[i];
          if j < |u| {
            assert u[j] == t[j];
            assert PointPending(u);
          } else {
            assert DigitPending(u);
          }
        }
        if PointPending(u) {
          var i, j :| 0 <= i < j < |u| && IsDigit(u[i]) && u[j] == '.' && ZeroFrom(u, i);
          ZeroFromInit(t, i);
          assert t[i] == u[i] && t[j] == u[j];
        }
        if c == '.' && DigitPending(u) {
          var i :| 0 <= i < |u| && IsDigit(u[i]) && ZeroFrom(u, i);
          ZeroFromInit(t, i);
          assert t[i] == u[i] && t[|u|] == '.';
        }
      }
    }
  }

  /** A digit at i, a point at j and an operator or bracket at k, with no operator or bracket in between. */
  predicate EndedDecimal(s: string, i: nat, j: nat, k: nat)
  {
    i < j < k < |s| && IsDigit(s[i]) && s[j] == '.' && MathPriority(s[k]) != 0 &&
    forall m :: i <= m < k ==> MathPriority(s[m]) == 0
  }

  /** The validator rejects exactly the texts where a decimal operand is ended by an operator or bracket. */
  lemma {:induction false} OperandTypesValidIff(s: string)
    ensures OperandTypesValid(s) <==> !exists i: nat, j: nat, k: nat :: EndedDecimal(s, i, j, k)
  {
    forall k | 0 <= k < |s| && MathPriority(s[k]) != 0
      ensures '.' in Collected(s[..k]) <==> exists i: nat, j: nat :: EndedDecimal(s, i, j, k)
    {
      CollectedHasPoint(s[..k]);
      if PointPending(s[..k]) {
        var i, j :| 0 <= i < j < k && IsDigit(s[..k][i]) && s[..k][j] == '.' && ZeroFrom(s[..k], i);
        assert forall m :: i <= m < k ==> s[..k][m] == s[m];
        assert EndedDecimal(s, i, j, k);
      }
      if exists i: nat, j: nat :: EndedDecimal(s, i, j, k) {
        var i: nat, j: nat :| EndedDecimal(s, i, j, k);
        assert forall m :: i <= m < k ==> s[..k][m] == s[m];
        assert ZeroFrom(s[..k], i);
      }
    }
    if !OperandTypesValid(s) {
      var k :| 0 <= k < |s| && MathPriority(s[k]) != 0 && '.' in Collected(s[..k]);
    }
  }

  /** A decimal as the last operand is never checked: "2+1.5" passes, "(2.5+3)*x1" does not. */
  lemma {:induction false} TrailingDecimalUnchecked()
    ensures OperandTypesValid("2+1.5")
    ensures !OperandTypesValid("(2.5+3)*x1")
  {
    var s := "2+1.5";
    forall k | 0 <= k < |s| && MathPriority(s[k]) != 0
      ensures '.' !in Collected(s[..k])
    {
      assert k == 1 && s[..1] == "2" && "2"[..0] == "";
    }
    var t := "(2.5+3)*x1";
    assert t[..4] == "(2.5" && "(2.5"[..3] == "(2." && "(2."[..2] == "(2" && "(2"[..1] == "(";
    assert Collected("(2.5") == "2.5";
    assert MathPriority(t[4]) != 0;
  }
}
