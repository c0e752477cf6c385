// The numeric parsers that sit on the shared converter and evaluator: the
// root MathStringExpressionParser.java (double result rounded to two places,
// Integer values), and the parsers/math subclasses Int, Double and
// BigDecimal. Each getExpressionResult is a chain of checks in front of the
// conversion and the postfix scan; each setVariablesValue is the binder with
// the parser's own way of writing a value, and stores the bound text only
// when binding succeeds.

/** The root MathStringExpressionParser.java. */
module RootMathParser {
  import opened Errors
  import opened Text
  import opened Numbers
  import MathParsing
  import Binding
  import RootEntity

  /** Integer.toString as the binder's value format: it never fails. */
  function IntegerText(v: int): (r: Result<string>)
    ensures r.Ok?
  {
    Ok(IntToString(v))
  }

  /** The text written for a value reads back as that value. */
  lemma {:induction false} IntegerTextParses(v: int)
    ensures ParseDouble(IntegerText(v).value) == Ok(v as real)
  {
    ParseDoubleOfIntToString(v);
  }

  /** getExpressionResult: no text is an error; otherwise the value of the text rounded to two places. */
  function ParserResult(lib: MathParsing.MathLib, fns: MathParsing.ClientFunctions, expression: string): (r: Result<real>)
    ensures expression == [] ==> r == Err(NoExpressionError)
  {
    if expression == [] then Err(NoExpressionError)
    else Round2Result(MathParsing.ExpressionValue(lib, fns, expression))
  }

  /** Integer values are always accepted, so binding fails only when values are left over. */
  lemma {:induction false} BindingQuantity(fns: MathParsing.ClientFunctions, expression: string, values: seq<int>)
    ensures Binding.Bound(fns, IntegerText, expression, values).Err? <==> |values| > Binding.Slots(fns, expression)
    ensures Binding.Bound(fns, IntegerText, expression, values).Err? ==>
      Binding.Bound(fns, IntegerText, expression, values) == Err(IncorrectVariablesQuantityError)
  {
    Binding.BindQuantity(fns, IntegerText, expression, values);
  }

  class MathStringExpressionParser {
    const stringExpression: RootEntity.StringExpression
    const lib: MathParsing.MathLib

    constructor(stringExpression: RootEntity.StringExpression, lib: MathParsing.MathLib)
      ensures this.stringExpression == stringExpression && this.lib == lib
    {
      this.stringExpression := stringExpression;
      this.lib := lib;
    }

    method GetExpressionResult() returns (r: Result<real>)
      ensures r == ParserResult(lib, stringExpression.Functions(), stringExpression.expression)
    {
      var expression := stringExpression.expression;
      if expression == [] {
        return Err(NoExpressionError);
      }
      var v := MathParsing.ExpressionResult(lib, stringExpression.Functions(), expression);
      if v.Err? {
        return Err(v.error);
      }
      return Ok(Round2(v.value));
    }

    method SetVariablesValue(values: seq<int>) returns (r: Outcome)
      modifies stringExpression
      ensures var bound := Binding.Bound(old(stringExpression.Functions()), IntegerText, old(stringExpression.expression), values);
        if bound.Ok? then r == Pass && stringExpression.expression == StripWhitespace(bound.value)
        else r == Fail(bound.error) && stringExpression.expression == old(stringExpression.expression)
      ensures stringExpression.clientFunctions == old(stringExpression.clientFunctions)
    {
      var bound := Binding.SetVariablesValue(stringExpression.Functions(), IntegerText, stringExpression.expression, values);
      if bound.Err? {
        return Fail(bound.error);
      }
      stringExpression.SetExpression(bound.value);
      return Pass;
    }
  }
}

/** parsers/math/IntMathStringExpressionParser.java. */
module IntMathParser {
  import opened Errors
  import opened Text
  import opened Numbers
  import MathParsing
  import Binding
  import Entities
  import RootMathParser

  /**
   * getExpressionResult: no text, then a decimal operand ended by an operator,
   * are errors; the value is written as text by the evaluator, parsed back,
   * rounded half up and must fit in an int.
   */
  function IntResult(lib: MathParsing.MathLib, fns: MathParsing.ClientFunctions, expression: string): (r: Result<int>)
    ensures expression == [] ==> r == Err(NoExpressionError)
    ensures expression != [] && !MathParsing.OperandTypesValid(expression) ==> r == Err(IncorrectNumberType)
    ensures r.Ok? ==> (expression != [] && MathParsing.OperandTypesValid(expression) &&
                       MathParsing.ExpressionValue(lib, fns, expression).Ok?)
    ensures r.Ok? ==> var d := ParseDouble(lib.toText(MathParsing.ExpressionValue(lib, fns, expression).value));
      d.Ok? && d.value - 0.5 < r.value as real <= d.value + 0.5 && IntMin <= r.value <= IntMax
  {
    if expression == [] then Err(NoExpressionError)
    else if !MathParsing.OperandTypesValid(expression) then Err(IncorrectNumberType)
    else
      var v :- MathParsing.ExpressionValue(lib, fns, expression);
      var d :- ParseDouble(lib.toText(v));
      RoundToInt(d)
  }

  /** A decimal operand ended by an operator or bracket makes the Int parser refuse the text. */
  lemma {:induction false} DecimalOperandRejected(lib: MathParsing.MathLib, fns: MathParsing.ClientFunctions, expression: string,
                               i: nat, j: nat, k: nat)
    requires MathParsing.EndedDecimal(expression, i, j, k)
    ensures IntResult(lib, fns, expression) == Err(IncorrectNumberType)
  {
    MathParsing.OperandTypesValidIff(expression);
  }

  class IntMathStringExpressionParser {
    const stringExpression: Entities.MathStringExpression
    const lib: MathParsing.MathLib

    constructor(stringExpression: Entities.MathStringExpression, lib: MathParsing.MathLib)
      ensures this.stringExpression == stringExpression && this.lib == lib
    {
      this.stringExpression := stringExpression;
      this.lib := lib;
    }

    method GetExpressionResult() returns (r: Result<int>)
      ensures r == IntResult(lib, stringExpression.Functions(), stringExpression.text.expression)
    {
      var expression := stringExpression.text.expression;
      if expression == [] {
        return Err(NoExpressionError);
      }
      var valid := MathParsing.ValidateOperandTypeInExpression(expression);
      if !valid {
        return Err(IncorrectNumberType);
      }
      var v := MathParsing.ExpressionResult(lib, stringExpression.Functions(), expression);
      if v.Err? {
        return Err(v.error);
      }
      var d := ParseDouble(lib.toText(v.value));
      if d.Err? {
        return Err(d.error);
      }
      return RoundToInt(d.value);
    }

    method SetVariablesValue(values: seq<int>) returns (r: Outcome)
      modifies stringExpression.text
      ensures var bound := Binding.Bound(stringExpression.Functions(), RootMathParser.IntegerText,
                                         old(stringExpression.text.expression), values);
        if bound.Ok? then r == Pass && stringExpression.text.expression == StripWhitespace(bound.value)
        else r == Fail(bound.error) && stringExpression.text.expression == old(stringExpression.text.expression)
    {
      var bound := Binding.SetVariablesValue(stringExpression.Functions(), RootMathParser.IntegerText,
                                             stringExpression.text.expression, values);
      if bound.Err? {
        return Fail(bound.error);
      }
      stringExpression.text.SetExpression(bound.value);
      return Pass;
    }
  }
}

/** parsers/math/DoubleMathStringExpressionParser.java. */
module DoubleMathParser {
  import opened Errors
  import opened Text
  import opened Numbers
  import MathParsing
  import Binding
  import Entities

  /**
   * getExpressionResult: no text is an error, and so is a text the operand
   * validator accepts (the check is the Int parser's, inverted); the value is
   * written as text, parsed back and rounded to two places.
   */
  function DoubleResult(lib: MathParsing.MathLib, fns: MathParsing.ClientFunctions, expression: string): (r: Result<real>)
    ensures expression == [] ==> r == Err(NoExpressionError)
    ensures expression != [] && MathParsing.OperandTypesValid(expression) ==> r == Err(IncorrectNumberType)
  {
    if expression == [] then Err(NoExpressionError)
    else if MathParsing.OperandTypesValid(expression) then Err(IncorrectNumberType)
    else ReadBack(lib, MathParsing.ExpressionValue(lib, fns, expression))
  }

  /** The value written with Double.toString, parsed back and rounded to two places, or the first error. */
  function ReadBack(lib: MathParsing.MathLib, x: Result<real>): (r: Result<real>)
    ensures x.Err? ==> r == x
    ensures r.Ok? ==> x.Ok? && var d := ParseDouble(lib.toText(x.value));
      d.Ok? && d.value - 1.0 / 200.0 < r.value <= d.value + 1.0 / 200.0 &&
      Hundredths(r.value)
    ensures x.Ok? && ParseDouble(lib.toText(x.value)).Err? ==> r == Err(Runtime(NumberFormat))
  {
    var v :- x;
    Round2Result(ParseDouble(lib.toText(v)))
  }

  /** A text without any decimal point is refused by the Double parser, "(25+3)*x1" among them. */
  lemma {:induction false} NoDecimalRejected(lib: MathParsing.MathLib, fns: MathParsing.ClientFunctions, expression: string)
    requires expression != [] && '.' !in expression
    ensures DoubleResult(lib, fns, expression) == Err(IncorrectNumberType)
  {
    MathParsing.OperandTypesValidIff(expression);
  }

  /** Double.toString as the binder's value format. */
  function DoubleText(lib: MathParsing.MathLib): (format: real -> Result<string>)
    ensures forall v :: format(v) == Ok(lib.toText(v))
  {
    (v: real) => Ok(lib.toText(v))
  }

  lemma {:induction false} BindingQuantity(lib: MathParsing.MathLib, fns: MathParsing.ClientFunctions, expression: string, values: seq<real>)
    ensures Binding.Bound(fns, DoubleText(lib), expression, values).Err? <==> |values| > Binding.Slots(fns, expression)
    ensures Binding.Bound(fns, DoubleText(lib), expression, values).Err? ==>
      Binding.Bound(fns, DoubleText(lib), expression, values) == Err(IncorrectVariablesQuantityError)
  {
    Binding.BindQuantity(fns, DoubleText(lib), expression, values);
  }

  class DoubleMathStringExpressionParser {
    const stringExpression: Entities.MathStringExpression
    const lib: MathParsing.MathLib

    constructor(stringExpression: Entities.MathStringExpression, lib: MathParsing.MathLib)
      ensures this.stringExpression == stringExpression && this.lib == lib
    {
      this.stringExpression := stringExpression;
      this.lib := lib;
    }

    method GetExpressionResult() returns (r: Result<real>)
      ensures r == DoubleResult(lib, stringExpression.Functions(), stringExpression.text.expression)
    {
      var expression := stringExpression.text.expression;
      if expression == [] {
        return Err(NoExpressionError);
      }
      var valid := MathParsing.ValidateOperandTypeInExpression(expression);
      if valid {
        return Err(IncorrectNumberType);
      }
      var v := MathParsing.ExpressionResult(lib, stringExpression.Functions(), expression);
      if v.Err? {
        return Err(v.error);
      }
      var d := ParseDouble(lib.toText(v.value));
      if d.Err? {
        return Err(d.error);
      }
      return Ok(Round2(d.value));
    }

    method SetVariablesValue(values: seq<real>) returns (r: Outcome)
      modifies stringExpression.text
      ensures var bound := Binding.Bound(stringExpression.Functions(), DoubleText(lib),
                                         old(stringExpression.text.expression), values);
        if bound.Ok? then r == Pass && stringExpression.text.expression == StripWhitespace(bound.value)
        else r == Fail(bound.error) && stringExpression.text.expression == old(stringExpression.text.expression)
    {
      var bound := Binding.SetVariablesValue(stringExpression.Functions(), DoubleText(lib),
                                             stringExpression.text.expression, values);
      if bound.Err? {
        return Fail(bound.error);
      }
      stringExpression.text.SetExpression(bound.value);
      return Pass;
    }
  }
}

/** parsers/math/BigDecimalMathStringExpressionParser.java. */
module DecimalMathParser {
  import opened Errors
  import opened Text
  import opened Numbers
  import MathParsing
  import Converter
  import Postfix
  import Binding
  import Entities

  /** new BigDecimal(a) on the right operand, run as soon as it is popped. */
  function DecimalInspect(a: string): (r: Outcome)
    ensures r.Pass? <==> ParseBigDecimal(a).Ok?
    ensures r.Fail? ==> r.error == Runtime(NumberFormat)
  {
    if ParseBigDecimal(a).Ok? then Pass else Fail(Runtime(NumberFormat))
  }

  /**
   * An operator on two operand texts: both are parsed, the exact decimal
   * operation is applied as b op a and the result is written by
   * BigDecimal.toString. A divisor equal to zero in value is refused.
   */
  function DecimalApply(c: char, b: string, a: string): (r: Result<string>)
    ensures ParseBigDecimal(a).Err? || ParseBigDecimal(b).Err? ==> r == Err(Runtime(NumberFormat))
    ensures ParseBigDecimal(a).Ok? && ParseBigDecimal(b).Ok? ==>
      var x := ParseBigDecimal(a).value;
      var y := ParseBigDecimal(b).value;
      (c == '+' ==> r == Ok(DecimalToString(DecimalAdd(y, x)))) &&
      (c == '-' ==> r == Ok(DecimalToString(DecimalSubtract(y, x)))) &&
      (c == '*' ==> r == Ok(DecimalToString(DecimalMultiply(y, x)))) &&
      (c == '/' ==> (x.unscaled == 0 <==> r == Err(DivisionByZeroError))) &&
      (c == '/' && r.Ok? ==> exists q :: DecimalDivide(y, x) == Ok(q) && r.value == DecimalToString(q)) &&
      (c == '/' && x.unscaled != 0 ==> (r.Ok? <==> DecimalDivide(y, x).Ok?)) &&
      (c == '/' && x.unscaled != 0 && r.Err? ==> r.error == Runtime(NonTerminatingQuotient))
  {
    var x :- ParseBigDecimal(a);
    var y :- ParseBigDecimal(b);
    var q :- DecimalOperation(c, y, x);
    Ok(DecimalToString(q))
  }

  /** The exact operation y c x on parsed values: BigDecimal.add, subtract, multiply and divide; a zero divisor is refused first. */
  function DecimalOperation(c: char, y: Decimal, x: Decimal): Result<Decimal>
  {
    if c == '+' then Ok(DecimalAdd(y, x))
    else if c == '-' then Ok(DecimalSubtract(y, x))
    else if c == '*' then Ok(DecimalMultiply(y, x))
    else if x.unscaled == 0 then Err(DivisionByZeroError)
    else DecimalDivide(y, x)
  }

  /** The decimal evaluator: a stack of operand texts; calls are replaced by their formatted value. */
  function DecimalMachine(lib: MathParsing.MathLib, fns: MathParsing.ClientFunctions): Postfix.Machine<string>
  {
    Postfix.Machine(
      MathParsing.MathPriority,
      (operand: string) => MathParsing.OperandText(lib, fns, operand),
      DecimalInspect,
      DecimalApply)
  }

  /** getExpressionResult: no text is an error; no operand-type validation; the top text is the result. */
  function DecimalResult(lib: MathParsing.MathLib, fns: MathParsing.ClientFunctions, expression: string): (r: Result<string>)
    ensures expression == [] ==> r == Err(NoExpressionError)
    ensures expression != [] && Converter.ToReversePolish(MathParsing.MathPriority, expression).Err? ==>
      r == Err(Converter.ToReversePolish(MathParsing.MathPriority, expression).error)
  {
    if expression == [] then Err(NoExpressionError)
    else
      var postfix :- Converter.ToReversePolish(MathParsing.MathPriority, expression);
      Postfix.Evaluate(DecimalMachine(lib, fns), postfix)
  }

  /**
   * A single number is returned as written, without being parsed or
   * normalised: the evaluator pushes operand texts and only operators parse them.
   */
  lemma {:induction false} SingleOperandUnchanged(lib: MathParsing.MathLib, fns: MathParsing.ClientFunctions, operand: string)
    requires operand != [] && !IsLetter(operand[0]) && operand[0] != '-'
    requires forall k :: 0 <= k < |operand| ==> operand[k] != ' ' && MathParsing.MathPriority(operand[k]) == 0
    ensures DecimalResult(lib, fns, operand) == Ok(operand)
  {
    Converter.SingleOperandConverts(MathParsing.MathPriority, operand);
    Postfix.EvaluateOperand(DecimalMachine(lib, fns), operand);
  }

  /** validateVariableValue on a value text: digits and points only. */
  predicate DecimalCharacters(value: string)
  {
    forall i :: 0 <= i < |value| ==> IsDigit(value[i]) || value[i] == '.'
  }

  method ValidateVariableValue(value: string) returns (valid: bool)
    ensures valid == DecimalCharacters(value)
  {
    var i := 0;
    while i < |value|
      invariant 0 <= i <= |value|
      invariant forall k :: 0 <= k < i ==> IsDigit(value[k]) || value[k] == '.'
    {
      var symbol := value[i];
      if IsDigit(symbol) || symbol == '.' {
        i := i + 1;
        continue;
      }
      return false;
    }
    return true;
  }

  /** The binder's value format: the value text itself once it passes validateVariableValue. */
  function ValueText(value: string): (r: Result<string>)
    ensures r.Ok? <==> DecimalCharacters(value)
    ensures r.Ok? ==> r.value == value
    ensures r.Err? ==> r.error == IncorrectVariableValueType
  {
    if DecimalCharacters(value) then Ok(value) else Err(IncorrectVariableValueType)
  }

  /** Binding fails only on a value with another character than a digit or a point, or on values left over. */
  lemma {:induction false} BindingErrors(fns: MathParsing.ClientFunctions, expression: string, values: seq<string>)
    ensures Binding.Bound(fns, ValueText, expression, values).Err? ==>
      Binding.Bound(fns, ValueText, expression, values).error == IncorrectVariablesQuantityError ||
      (Binding.Bound(fns, ValueText, expression, values).error == IncorrectVariableValueType &&
       exists v :: v in values && !DecimalCharacters(v))
  {
    Binding.BindFromErrors(fns, ValueText, expression, 0, Binding.Binder("", "", values));
  }

  /** With every value well formed, binding fails exactly when values are left over. */
  lemma {:induction false} BindingQuantity(fns: MathParsing.ClientFunctions, expression: string, values: seq<string>)
    requires forall k :: 0 <= k < |values| ==> DecimalCharacters(values[k])
    ensures Binding.Bound(fns, ValueText, expression, values).Err? <==> |values| > Binding.Slots(fns, expression)
  {
    Binding.BindQuantity(fns, ValueText, expression, values);
  }

  class BigDecimalMathStringExpressionParser {
    const stringExpression: Entities.MathStringExpression
    const lib: MathParsing.MathLib

    constructor(stringExpression: Entities.MathStringExpression, lib: MathParsing.MathLib)
      ensures this.stringExpression == stringExpression && this.lib == lib
    {
      this.stringExpression := stringExpression;
      this.lib := lib;
    }

    method GetExpressionResult() returns (r: Result<string>)
      ensures r == DecimalResult(lib, stringExpression.Functions(), stringExpression.text.expression)
    {
      var expression := stringExpression.text.expression;
      if expression == [] {
        return Err(NoExpressionError);
      }
      var postfix := Converter.ExpressionToReversePolishNotation(MathParsing.MathPriority, expression);
      if postfix.Err? {
        return Err(postfix.error);
      }
      r := Postfix.EvaluatePostfix(DecimalMachine(lib, stringExpression.Functions()), postfix.value);
    }

    method SetVariablesValue(values: seq<string>) returns (r: Outcome)
      modifies stringExpression.text
      ensures var bound := Binding.Bound(stringExpression.Functions(), ValueText,
                                         old(stringExpression.text.expression), values);
        if bound.Ok? then r == Pass && stringExpression.text.expression == StripWhitespace(bound.value)
        else r == Fail(bound.error) && stringExpression.text.expression == old(stringExpression.text.expression)
    {
      var bound := Binding.SetVariablesValue(stringExpression.Functions(), ValueText,
                                             stringExpression.text.expression, values);
      if bound.Err? {
        return Fail(bound.error);
      }
      stringExpression.text.SetExpression(bound.value);
      return Pass;
    }
  }
}
