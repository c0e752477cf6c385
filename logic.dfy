// The boolean parsers of parsers/logic: ShortLogicStringExpressionParser.java
// works on the short form (T, F, &, |, brackets) with the shared converter
// and postfix scan; FullLogicStringExpressionParser.java first translates
// the verbose form (true, false, and, or) into the short one.

module LogicParsing {
  import opened Errors
  import opened Text
  import Converter
  import Postfix
  import Entities

  /** getTokenPriority of the logic parsers. */
  function LogicPriority(c: char): (p: int)
    ensures p > 1 <==> c == '&' || c == '|'
    ensures p == 3 <==> c == '&'
    ensures p == 1 <==> c == '('
    ensures p == -1 <==> c == ')'
    ensures p == 0 <==> !(c in "&|()")
  {
    if c == '&' then 3
    else if c == '|' then 2
    else if c == '(' then 1
    else if c == ')' then -1
    else 0
  }

  /** The letters the logic parsers read as truth values, in either case. */
  predicate IsTruthLetter(c: char)
  {
    LowerChar(c) == 't' || LowerChar(c) == 'f'
  }

  /** operand.toLowerCase().contains("t") || ... .contains("f"). */
  predicate HasTruthLetter(v: string)
  {
    't' in ToLower(v) || 'f' in ToLower(v)
  }

  lemma {:induction false} HasTruthLetterAppend(v: string, c: char)
    ensures HasTruthLetter(v + [c]) <==> HasTruthLetter(v) || IsTruthLetter(c)
  {
    assert ToLower(v + [c]) == ToLower(v) + [LowerChar(c)];
  }

  lemma {:induction false} HasTruthLetterAt(v: string)
    ensures HasTruthLetter(v) <==> exists i :: 0 <= i < |v| && IsTruthLetter(v[i])
  {
    if HasTruthLetter(v) {
      var i :| 0 <= i < |v| && (ToLower(v)[i] == 't' || ToLower(v)[i] == 'f');
      assert IsTruthLetter(v[i]);
    }
    if exists i :: 0 <= i < |v| && IsTruthLetter(v[i]) {
      var i :| 0 <= i < |v| && IsTruthLetter(v[i]);
      assert ToLower(v)[i] == LowerChar(v[i]);
    }
  }

  // ------------------------------------------------------------- evaluation

  /**
   * An operand's truth value: a text holding "true" or "false" (in any case)
   * is Boolean.parseBoolean of it, true only for "true" itself; otherwise a
   * 't' makes it true and an 'f' false; anything else is an unbound variable.
   */
  function LogicResolve(operand: string): (r: Result<bool>)
    ensures r.Err? <==> !HasTruthLetter(operand)
    ensures r.Err? ==> r.error == VariableDetectedError
    ensures Contains(ToLower(operand), "true") || Contains(ToLower(operand), "false") ==>
      r == Ok(ToLower(operand) == "true")
    ensures !Contains(ToLower(operand), "true") && !Contains(ToLower(operand), "false") && HasTruthLetter(operand) ==>
      r == Ok('t' in ToLower(operand))
  {
    var lower := ToLower(operand);
    if Contains(lower, "true") || Contains(lower, "false") then
      TruthWordHasLetter(lower);
      Ok(lower == "true")
    else if 't' in lower then Ok(true)
    else if 'f' in lower then Ok(false)
    else Err(VariableDetectedError)
  }

  lemma {:induction false} TruthWordHasLetter(lower: string)
    requires Contains(lower, "true") || Contains(lower, "false")
    ensures 't' in lower || 'f' in lower
  {
    if Contains(lower, "true") {
      var i := ContainsWitness(lower, "true");
      assert lower[i] == lower[i..i + 4][0];
    } else {
      var i := ContainsWitness(lower, "false");
      assert lower[i] == lower[i..i + 5][0];
    }
  }

  /** '&' pushes b and a, '|' pushes b or a; no other character has an operator's priority. */
  function LogicApply(c: char, b: bool, a: bool): (r: Result<bool>)
    ensures c == '&' ==> r == Ok(b && a)
    ensures c == '|' ==> r == Ok(b || a)
  {
    if c == '&' then Ok(b && a) else Ok(b || a)
  }

  function LogicMachine(): Postfix.Machine<bool>
  {
    Postfix.Machine(LogicPriority, LogicResolve, (a: bool) => Pass, LogicApply)
  }

  // ------------------------------------------------------------- validation

  /** The validator's operand after one more character; an operator that passes the check resets it. */
  function LogicCollect(operand: string, c: char): string
  {
    if IsLetter(c) then operand + [c]
    else if operand != [] && IsDigit(c) then operand + [c]
    else if LogicPriority(c) > 1 then ""
    else operand
  }

  /** The operand collected over t, read left to right. */
  function LogicCollected(t: string): string
    decreases |t|
  {
    if t == [] then "" else LogicCollect(LogicCollected(t[..|t| - 1]), t[|t| - 1])
  }

  /** validateOperandTypeInExpression: at every '&' and '|' the operand collected holds a 't' or an 'f'. */
  predicate LogicOperandsValid(s: string)
  {
    forall k :: 0 <= k < |s| && LogicPriority(s[k]) > 1 ==> HasTruthLetter(LogicCollected(s[..k]))
  }

  /** The check holds at every '&' and '|' before position i. */
  predicate OperandsValidBefore(s: string, i: nat)
    requires i <= |s|
  {
    forall k :: 0 <= k < i && LogicPriority(s[k]) > 1 ==> HasTruthLetter(LogicCollected(s[..k]))
  }

  /** One more position checked: the check before it, and its own check if it is '&' or '|'. */
  lemma {:induction false} OperandsValidStep(s: string, i: nat)
    requires i < |s|
    ensures OperandsValidBefore(s, i + 1) <==>
      OperandsValidBefore(s, i) && (LogicPriority(s[i]) > 1 ==> HasTruthLetter(LogicCollected(s[..i])))
  {
  }

  /** The operand collected up to position i + 1 is the one up to i, with s[i] taken in. */
  lemma {:induction false} CollectedStep(s: string, i: nat)
    requires i < |s|
    ensures LogicCollected(s[..i + 1]) == LogicCollect(LogicCollected(s[..i]), s[i])
  {
    assert s[..i + 1][..i] == s[..i];
  }

  method ValidateOperandTypeInExpression(expression: string) returns (flag: bool)
    ensures flag == LogicOperandsValid(expression)
  {
    var operand := "";
    var i := 0;
    while i < |expression|
      invariant 0 <= i <= |expression|
      invariant operand == LogicCollected(expression[..i])
      invariant OperandsValidBefore(expression, i)
    {
      var symbol := expression[i];
      OperandsValidStep(expression, i);
      CollectedStep(expression, i);
      if IsLetter(symbol) {
        operand := operand + [symbol];
      } else if operand != [] && IsDigit(symbol) {
        operand := operand + [symbol];
      } else if LogicPriority(symbol) != 0 {
        if LogicPriority(symbol) == 1 || LogicPriority(symbol) == -1 {
          i := i + 1;
          continue;
        }
        if 't' in ToLower(operand) || 'f' in ToLower(operand) {
          operand := "";
        } else {
          assert !OperandsValidBefore(expression, i + 1);
          return false;
        }
      }
      i := i + 1;
    }
    assert expression[..i] == expression;
    return true;
  }

  /** A truth letter after the last operator of t. */
  predicate TruthSinceOperator(t: string)
  {
    exists m :: 0 <= m < |t| && IsTruthLetter(t[m]) && forall n :: m < n < |t| ==> LogicPriority(t[n]) <= 1
  }

  /**
   * The collected operand holds a truth letter exactly when one occurs after
   * the last operator: letters always join it, brackets neither join nor reset it.
   */
  lemma {:induction false} CollectedTruth(t: string)
    ensures HasTruthLetter(LogicCollected(t)) <==> TruthSinceOperator(t)
    decreases |t|
  {
    if t != [] {
      var u := t[..|t| - 1];
      var c := t[|t| - 1];
      CollectedTruth(u);
      var o := LogicCollected(u);
      assert forall n :: 0 <= n < |u| ==> u[n] == t[n];
      if IsLetter(c) {
        HasTruthLetterAppend(o, c);
        LetterSinceOperator(t);
      } else if o != [] && IsDigit(c) {
        HasTruthLetterAppend(o, c);
        RestSinceOperator(t);
      } else if LogicPriority(c) > 1 {
        assert LogicCollected(t) == "";
        NoTruthAfterOperator(t);
      } else {
        assert LogicCollected(t) == o;
        RestSinceOperator(t);
      }
    }
  }

  /** A letter at the end is after the last operator, and whatever was after the last operator before it still is. */
  lemma {:induction false} LetterSinceOperator(t: string)
    requires t != [] && IsLetter(t[|t| - 1])
    ensures TruthSinceOperator(t) <==> TruthSinceOperator(t[..|t| - 1]) || IsTruthLetter(t[|t| - 1])
  {
    assert LogicPriority(t[|t| - 1]) == 0;
    SinceOperatorKept(t);
    if IsTruthLetter(t[|t| - 1]) {
      var m: nat := |t| - 1;
      assert IsTruthLetter(t[m]);
    } else {
      SinceOperatorBefore(t);
    }
  }

  /** A last character that is no letter and no operator changes nothing about truth letters after the last operator. */
  lemma {:induction false} RestSinceOperator(t: string)
    requires t != [] && !IsLetter(t[|t| - 1]) && LogicPriority(t[|t| - 1]) <= 1
    ensures TruthSinceOperator(t) <==> TruthSinceOperator(t[..|t| - 1])
  {
    SinceOperatorKept(t);
    SinceOperatorBefore(t);
  }

  /** A truth letter after the last operator stays so when a character that is no operator follows. */
  lemma {:induction false} SinceOperatorKept(t: string)
    requires t != [] && LogicPriority(t[|t| - 1]) <= 1
    ensures TruthSinceOperator(t[..|t| - 1]) ==> TruthSinceOperator(t)
  {
    var u := t[..|t| - 1];
    if TruthSinceOperator(u) {
      var m :| 0 <= m < |u| && IsTruthLetter(u[m]) && forall n :: m < n < |u| ==> LogicPriority(u[n]) <= 1;
      assert forall n :: m < n < |t| ==> LogicPriority(t[n]) <= 1 by {
        forall n | m < n < |t|
          ensures LogicPriority(t[n]) <= 1
        {
          if n < |u| {
            assert u[n] == t[n];
          }
        }
      }
      assert IsTruthLetter(t[m]) by {
        assert u[m] == t[m];
      }
    }
  }

  /** A truth letter after the last operator that is not the last character was there before it. */
  lemma {:induction false} SinceOperatorBefore(t: string)
    requires t != [] && !IsTruthLetter(t[|t| - 1])
    ensures TruthSinceOperator(t) ==> TruthSinceOperator(t[..|t| - 1])
  {
    var u := t[..|t| - 1];
    if TruthSinceOperator(t) {
      var m :| 0 <= m < |t| && IsTruthLetter(t[m]) && forall n :: m < n < |t| ==> LogicPriority(t[n]) <= 1;
      assert m < |u|;
      assert IsTruthLetter(u[m]) by {
        assert u[m] == t[m];
      }
      assert forall n :: m < n < |u| ==> LogicPriority(u[n]) <= 1 by {
        forall n | m < n < |u|
          ensures LogicPriority(u[n]) <= 1
        {
          assert u[n] == t[n];
        }
      }
    }
  }

  lemma {:induction false} NoTruthAfterOperator(t: string)
    requires t != [] && LogicPriority(t[|t| - 1]) > 1
    ensures !TruthSinceOperator(t)
  {
    forall m | 0 <= m < |t| && IsTruthLetter(t[m])
      ensures exists n :: m < n < |t| && LogicPriority(t[n]) > 1
    {
      assert LowerChar(t[|t| - 1]) == t[|t| - 1];
      assert m < |t| - 1;
    }
  }

  /**
   * The validator accepts a text exactly when every '&' and '|' has a truth
   * letter after the operator before it (or after the start).
   */
  lemma {:induction false} LogicOperandsValidIff(s: string)
    ensures LogicOperandsValid(s) <==> forall k :: 0 <= k < |s| && LogicPriority(s[k]) > 1 ==> TruthSinceOperator(s[..k])
  {
    forall k | 0 <= k < |s| && LogicPriority(s[k]) > 1
      ensures HasTruthLetter(LogicCollected(s[..k])) <==> TruthSinceOperator(s[..k])
    {
      CollectedTruth(s[..k]);
    }
  }

  // ---------------------------------------------------------------- binding

  /** The text written so far, the identifier being read and the values not yet used. */
  datatype LogicBinder = LogicBinder(output: string, variable: string, queue: seq<bool>)

  /** The end of an identifier: the terminating character is kept when it is an operator or a bracket. */
  function Close(symbol: char, output: string, queue: seq<bool>): LogicBinder
  {
    LogicBinder(output + (if LogicPriority(symbol) != 0 then [symbol] else ""), "", queue)
  }

  /**
   * One character of setVariablesValue. A letter in the last position joins
   * the identifier as it ends; an identifier with a truth letter is a literal
   * and is kept; any other takes the next value as "T" or "F", followed by its
   * terminating character unless that was the last one.
   */
  function LogicBindStep(symbol: char, last: bool, st: LogicBinder): LogicBinder
  {
    if IsLetter(symbol) && !last then LogicBinder(st.output, st.variable + [symbol], st.queue)
    else if IsDigit(symbol) && st.variable != [] && !last then LogicBinder(st.output, st.variable + [symbol], st.queue)
    else if st.variable != [] then
      var variable := if IsLetter(symbol) then st.variable + [symbol] else st.variable;
      if HasTruthLetter(variable) then Close(symbol, st.output + variable, st.queue)
      else if st.queue != [] then
        var ended := if IsDigit(symbol) then ' ' else symbol;
        var output := st.output + (if st.queue[0] then "T" else "F");
        if !last then LogicBinder(output + [ended], "", st.queue[1..])
        else Close(ended, output, st.queue[1..])
      else Close(symbol, st.output, st.queue)
    else LogicBinder(st.output + [symbol], "", st.queue)
  }

  function LogicBindFrom(expression: string, token: nat, st: LogicBinder): LogicBinder
    requires token <= |expression|
    decreases |expression| - token
  {
    if token == |expression| then st
    else LogicBindFrom(expression, token + 1, LogicBindStep(expression[token], token == |expression| - 1, st))
  }

  /** The bound text, or INCORRECT_VARIABLES_QUANTITY_ERROR when values are left over. */
  function LogicBound(expression: string, values: seq<bool>): Result<string>
  {
    var st := LogicBindFrom(expression, 0, LogicBinder("", "", values));
    if st.queue != [] then Err(IncorrectVariablesQuantityError) else Ok(st.output)
  }

  /** The number of identifiers from token on that take a value. */
  function LogicSlotsFrom(expression: string, token: nat, variable: string): nat
    requires token <= |expression|
    decreases |expression| - token
  {
    if token == |expression| then 0
    else
      var symbol := expression[token];
      var last := token == |expression| - 1;
      if IsLetter(symbol) && !last then LogicSlotsFrom(expression, token + 1, variable + [symbol])
      else if IsDigit(symbol) && variable != [] && !last then LogicSlotsFrom(expression, token + 1, variable + [symbol])
      else if variable != [] && !HasTruthLetter(if IsLetter(symbol) then variable + [symbol] else variable) then
        1 + LogicSlotsFrom(expression, token + 1, "")
      else LogicSlotsFrom(expression, token + 1, "")
  }

  function Min(a: nat, b: nat): nat { if a <= b then a else b }

  lemma {:induction false} DropTwice(q: seq<bool>, a: nat, b: nat)
    ensures q[Min(|q|, a)..][Min(|q| - Min(|q|, a), b)..] == q[Min(|q|, a + b)..]
  {
  }

  /** The values are used from the front, one per identifier that is no literal, until either runs out. */
  lemma {:induction false} LogicBindFromUsesValues(expression: string, token: nat, st: LogicBinder)
    requires token <= |expression|
    ensures LogicBindFrom(expression, token, st).queue ==
      st.queue[Min(|st.queue|, LogicSlotsFrom(expression, token, st.variable))..]
    decreases |expression| - token
  {
    if token < |expression| {
      var next := LogicBindStep(expression[token], token == |expression| - 1, st);
      var rest := LogicSlotsFrom(expression, token + 1, next.variable);
      var used := LogicSlotsFrom(expression, token, st.variable) - rest;
      assert 0 <= used <= 1;
      assert next.queue == st.queue[Min(|st.queue|, used)..];
      LogicBindFromUsesValues(expression, token + 1, next);
      DropTwice(st.queue, used, rest);
    } else {
      assert st.queue[0..] == st.queue;
    }
  }

  /** Binding fails exactly when there are more values than identifiers to take them. */
  lemma {:induction false} LogicBindQuantity(expression: string, values: seq<bool>)
    ensures LogicBound(expression, values).Err? <==> |values| > LogicSlotsFrom(expression, 0, "")
    ensures LogicBound(expression, values).Err? ==> LogicBound(expression, values) == Err(IncorrectVariablesQuantityError)
  {
    LogicBindFromUsesValues(expression, 0, LogicBinder("", "", values));
  }

  lemma {:induction false} LogicBindAt(expression: string, token: nat, st: LogicBinder)
    requires token < |expression|
    ensures LogicBindFrom(expression, token, st) ==
      LogicBindFrom(expression, token + 1, LogicBindStep(expression[token], token == |expression| - 1, st))
  {
  }

  // ------------------------------------------------------------ the parser

  /** getExpressionResult: no text, then a failed operand check, are errors; then convert and evaluate. */
  function ShortResult(expression: string): (r: Result<bool>)
    ensures expression == [] ==> r == Err(NoExpressionError)
    ensures expression != [] && !LogicOperandsValid(expression) ==> r == Err(IncorrectLogicType)
    ensures r.Ok? ==> (expression != [] && LogicOperandsValid(expression) &&
      Converter.ToReversePolish(LogicPriority, expression).Ok?)
  {
    if expression == [] then Err(NoExpressionError)
    else if !LogicOperandsValid(expression) then Err(IncorrectLogicType)
    else
      var postfix :- Converter.ToReversePolish(LogicPriority, expression);
      Postfix.Evaluate(LogicMachine(), postfix)
  }

  /** The conversion and the boolean evaluation of a text, without the checks in front. */
  function LogicValue(expression: string): Result<bool>
  {
    var postfix :- Converter.ToReversePolish(LogicPriority, expression);
    Postfix.Evaluate(LogicMachine(), postfix)
  }

  class ShortLogicStringExpressionParser {
    const stringExpression: Entities.StringExpression

    constructor(stringExpression: Entities.StringExpression)
      ensures this.stringExpression == stringExpression
    {
      this.stringExpression := stringExpression;
    }

    method GetExpressionResult() returns (r: Result<bool>)
      ensures r == ShortResult(stringExpression.expression)
    {
      var expression := stringExpression.expression;
      if expression == [] {
        return Err(NoExpressionError);
      }
      var valid := ValidateOperandTypeInExpression(expression);
      if !valid {
        return Err(IncorrectLogicType);
      }
      r := Evaluate(expression);
    }

    /** The conversion and expressionInReversePolishNotationToResult. */
    static method Evaluate(expression: string) returns (r: Result<bool>)
      ensures r == LogicValue(expression)
    {
      var postfix := Converter.ExpressionToReversePolishNotation(LogicPriority, expression);
      if postfix.Err? {
        return Err(postfix.error);
      }
      r := Postfix.EvaluatePostfix(LogicMachine(), postfix.value);
    }

    method SetVariablesValue(values: seq<bool>) returns (r: Outcome)
      modifies stringExpression
      ensures var bound := LogicBound(old(stringExpression.expression), values);
        if bound.Ok? then r == Pass && stringExpression.expression == StripWhitespace(bound.value)
        else r == Fail(bound.error) && stringExpression.expression == old(stringExpression.expression)
    {
      var expression := stringExpression.expression;
      var output := "";
      var variable := "";
      var queue := values;
      var token := 0;
      while token < |expression|
        invariant 0 <= token <= |expression|
        invariant stringExpression.expression == expression
        invariant LogicBindFrom(expression, 0, LogicBinder("", "", values)) ==
          LogicBindFrom(expression, token, LogicBinder(output, variable, queue))
      {
        var symbol := expression[token];
        var last := token == |expression| - 1;
        LogicBindAt(expression, token, LogicBinder(output, variable, queue));
        ghost var next := LogicBindStep(symbol, last, LogicBinder(output, variable, queue));
        token := token + 1;
        if IsLetter(symbol) && !last {
          variable := variable + [symbol];
        } else if IsDigit(symbol) && variable != [] && !last {
          variable := variable + [symbol];
        } else if variable != [] {
          if IsLetter(symbol) {
            variable := variable + [symbol];
          }
          if 't' in ToLower(variable) || 'f' in ToLower(variable) {
            output := output + variable;
          } else if queue != [] {
            if IsDigit(symbol) {
              symbol := ' ';
            }
            output := output + (if queue[0] then "T" else "F");
            queue := queue[1..];
            if !last {
              output := output + [symbol];
              variable := "";
              assert next == LogicBinder(output, variable, queue);
              continue;
            }
          }
          if LogicPriority(symbol) != 0 {
            output := output + [symbol];
          } else {
            assert output + "" == output;
          }
          variable := "";
        } else {
          output := output + [symbol];
          variable := "";
        }
        assert next == LogicBinder(output, variable, queue);
      }
      if queue != [] {
        return Fail(IncorrectVariablesQuantityError);
      }
      stringExpression.SetExpression(output);
      return Pass;
    }
  }
}

/** FullLogicStringExpressionParser.java: the verbose words translated to the short form first. */
module FullLogicParser {
  import opened Errors
  import opened Text
  import Entities
  import LogicParsing

  /** The text translated so far and the letters read since the last word was recognised. */
  datatype Translator = Translator(output: string, lexeme: string)

  lemma {:induction false} ContainsLength(s: string, t: string)
    requires Contains(s, t)
    ensures |t| <= |s|
  {
    var i := ContainsWitness(s, t);
  }

  /**
   * The short symbol for a lowered lexeme, by the tests in their order:
   * "true", "false", "and", "or" anywhere in it; empty when none occurs.
   */
  function Word(lower: string): (w: string)
    ensures w in {"", "T", "F", "&", "|"}
    ensures w == "" <==> !Contains(lower, "true") && !Contains(lower, "false") && !Contains(lower, "and") && !Contains(lower, "or")
    ensures w == "T" <==> Contains(lower, "true")
    ensures w == "F" <==> !Contains(lower, "true") && Contains(lower, "false")
    ensures w == "&" <==> !Contains(lower, "true") && !Contains(lower, "false") && Contains(lower, "and")
    ensures w == "|" <==> !Contains(lower, "true") && !Contains(lower, "false") && !Contains(lower, "and") && Contains(lower, "or")
    ensures w != "" ==> |lower| >= 2
  {
    if Contains(lower, "true") then
      ContainsLength(lower, "true");
      "T"
    else if Contains(lower, "false") then
      ContainsLength(lower, "false");
      "F"
    else if Contains(lower, "and") then
      ContainsLength(lower, "and");
      "&"
    else if Contains(lower, "or") then
      ContainsLength(lower, "or");
      "|"
    else ""
  }

  /**
   * One character of convertExpressionWithFullOperatorsAndOperandsToShort: a
   * letter joins the lexeme; a lexeme that now holds "true", "false", "and"
   * or "or" (in any case) becomes T, F, & or |; otherwise an operator or a
   * bracket is copied and a digit ends the lexeme as an identifier. Anything
   * else is dropped.
   */
  function TranslateStep(st: Translator, c: char): (r: Translator)
    ensures |r.output| + |r.lexeme| <= |st.output| + |st.lexeme| + 1
    ensures AllLetters(st.lexeme) ==> AllLetters(r.lexeme)
    ensures NoWhitespace(st.output) && AllLetters(st.lexeme) ==> NoWhitespace(r.output)
    ensures |st.output| <= |r.output| && r.output[..|st.output|] == st.output
    ensures Word(ToLower(r.lexeme)) == ""
    ensures r.lexeme == [] || (r.output == st.output && r.lexeme == if IsLetter(c) then st.lexeme + [c] else st.lexeme)
    ensures var written := r.output[|st.output|..];
      written == [] || written in {"T", "F", "&", "|"} ||
      (written == [c] && LogicParsing.LogicPriority(c) != 0) ||
      (IsDigit(c) && written == st.lexeme + [c])
    ensures Word(ToLower(st.lexeme)) == "" && !IsLetter(c) && LogicParsing.LogicPriority(c) == 0 && !IsDigit(c) ==> r == st
  {
    ShortLexeme("");
    var lexeme := if IsLetter(c) then st.lexeme + [c] else st.lexeme;
    var word := Word(ToLower(lexeme));
    if word != "" then Translator(st.output + word, "")
    else if LogicParsing.LogicPriority(c) != 0 then Translator(st.output + [c], "")
    else if IsDigit(c) then Translator(st.output + lexeme + [c], "")
    else Translator(st.output, lexeme)
  }

  /** The translator after reading every character of s in order. */
  function TranslateOver(st: Translator, s: string): (r: Translator)
    ensures |r.output| + |r.lexeme| <= |st.output| + |st.lexeme| + |s|
    ensures NoWhitespace(st.output) && AllLetters(st.lexeme) ==> NoWhitespace(r.output)
    decreases |s|
  {
    if s == [] then st else TranslateOver(TranslateStep(st, s[0]), s[1..])
  }

  /**
   * Whitespace is dropped without effect: with no word pending, translating
   * a text is translating it with its whitespace stripped.
   */
  lemma {:induction false} TranslateIgnoresWhitespace(st: Translator, s: string)
    requires Word(ToLower(st.lexeme)) == ""
    ensures TranslateOver(st, StripWhitespace(s)) == TranslateOver(st, s)
    decreases |s|
  {
    if s != [] {
      var c := s[0];
      var rest := StripWhitespace(s[1..]);
      var next := TranslateStep(st, c);
      assert TranslateOver(st, s) == TranslateOver(next, s[1..]);
      if IsWhitespace(c) {
        assert StripWhitespace(s) == rest;
        assert !IsLetter(c) && !IsDigit(c) && LogicParsing.LogicPriority(c) == 0;
        assert next == st;
        TranslateIgnoresWhitespace(st, s[1..]);
      } else {
        assert StripWhitespace(s) == [c] + rest;
        assert ([c] + rest)[1..] == rest;
        assert TranslateOver(st, [c] + rest) == TranslateOver(next, rest);
        TranslateIgnoresWhitespace(next, s[1..]);
      }
    }
  }

  /** The fold over a suffix takes one step and goes on with the next suffix. */
  lemma {:induction false} TranslateOverAt(st: Translator, s: string, i: nat)
    requires i < |s|
    ensures TranslateOver(st, s[i..]) == TranslateOver(TranslateStep(st, s[i]), s[i + 1..])
  {
    assert s[i..][1..] == s[i + 1..];
  }

  lemma {:induction false} TranslateOverAppend(st: Translator, a: string, b: string)
    ensures TranslateOver(st, a + b) == TranslateOver(TranslateOver(st, a), b)
    decreases |a|
  {
    if a == [] {
      assert a + b == b;
    } else {
      assert (a + b)[1..] == a[1..] + b;
      TranslateOverAppend(TranslateStep(st, a[0]), a[1..], b);
    }
  }

  /** The short form of a verbose text: never longer, and never holding whitespace. */
  function Translate(expression: string): (r: string)
    ensures |r| <= |expression|
    ensures NoWhitespace(r)
  {
    TranslateOver(Translator("", ""), expression).output
  }

  /** The translation is blind to the whitespace of the text. */
  lemma {:induction false} TranslateStripped(expression: string)
    ensures Translate(StripWhitespace(expression)) == Translate(expression)
  {
    ShortLexeme("");
    TranslateIgnoresWhitespace(Translator("", ""), expression);
  }

  /** A text without letters keeps its operators, brackets and digits, in order, and nothing else. */
  function SymbolsKept(s: string): string
  {
    if s == [] then ""
    else (if LogicParsing.LogicPriority(s[0]) != 0 || IsDigit(s[0]) then [s[0]] else "") + SymbolsKept(s[1..])
  }

  /** With no lexeme pending, a character other than a letter is kept or dropped on its own. */
  lemma {:induction false} NonLetterStep(out: string, s: string)
    requires s != [] && !IsLetter(s[0])
    ensures TranslateOver(Translator(out, ""), s) ==
      TranslateOver(Translator(out + (if LogicParsing.LogicPriority(s[0]) != 0 || IsDigit(s[0]) then [s[0]] else ""), ""), s[1..])
  {
    var c := s[0];
    ShortLexeme("");
    assert out + "" == out;
    assert "" + [c] == [c];
  }

  lemma {:induction false} TranslateNoLetters(out: string, s: string)
    requires forall k :: 0 <= k < |s| ==> !IsLetter(s[k])
    ensures TranslateOver(Translator(out, ""), s) == Translator(out + SymbolsKept(s), "")
    decreases |s|
  {
    if s == [] {
      assert out + "" == out;
    } else {
      var c := s[0];
      var kept := if LogicParsing.LogicPriority(c) != 0 || IsDigit(c) then [c] else "";
      NonLetterStep(out, s);
      assert forall k :: 0 <= k < |s[1..]| ==> s[1..][k] == s[k + 1];
      TranslateNoLetters(out + kept, s[1..]);
      assert SymbolsKept(s) == kept + SymbolsKept(s[1..]);
      AppendAssociates(out, kept, SymbolsKept(s[1..]));
    }
  }

  /** A lexeme shorter than every word holds none of them. */
  lemma {:induction false} ShortLexeme(lexeme: string)
    requires |lexeme| < 2
    ensures !Contains(ToLower(lexeme), "true") && !Contains(ToLower(lexeme), "false")
    ensures !Contains(ToLower(lexeme), "and") && !Contains(ToLower(lexeme), "or")
  {
    if Contains(ToLower(lexeme), "or") { ContainsLength(ToLower(lexeme), "or"); }
    if Contains(ToLower(lexeme), "and") { ContainsLength(ToLower(lexeme), "and"); }
    if Contains(ToLower(lexeme), "true") { ContainsLength(ToLower(lexeme), "true"); }
    if Contains(ToLower(lexeme), "false") { ContainsLength(ToLower(lexeme), "false"); }
  }

  /**
   * The short literals are letters that form no word, so they are dropped:
   * a text already in the short form does not survive a second translation,
   * which is why the parser remembers whether values were bound.
   */
  lemma {:induction false} ShortLiteralsDropped()
    ensures Translate("T&F") == "&"
  {
    LetterStep("", 'T');
    OperatorStep("", "T", '&');
    LetterStep("&", 'F');
    assert "T&F"[1..] == "&F" && "&F"[1..] == "F" && "F"[1..] == "";
    assert TranslateOver(Translator("&", ""), "F") == Translator("&", "F");
    assert TranslateOver(Translator("", "T"), "&F") == Translator("&", "F");
  }

  /** A letter read with no lexeme pending starts a lexeme that is no word yet. */
  lemma {:induction false} LetterStep(out: string, c: char)
    requires IsLetter(c)
    ensures TranslateStep(Translator(out, ""), c) == Translator(out, [c])
  {
    ShortLexeme([c]);
    assert "" + [c] == [c];
  }

  /** An operator after a lexeme too short to be a word is copied, and the lexeme is dropped. */
  lemma {:induction false} OperatorStep(out: string, lexeme: string, c: char)
    requires |lexeme| < 2 && !IsLetter(c) && LogicParsing.LogicPriority(c) != 0
    ensures TranslateStep(Translator(out, lexeme), c) == Translator(out + [c], "")
  {
    ShortLexeme(lexeme);
  }

  /** The body of the loop of convertExpressionWithFullOperatorsAndOperandsToShort: one symbol. */
  method TranslateSymbol(preparedExpression: string, lexeme: string, symbol: char) returns (prepared: string, pending: string)
    ensures Translator(prepared, pending) == TranslateStep(Translator(preparedExpression, lexeme), symbol)
  {
    prepared, pending := preparedExpression, lexeme;
    if IsLetter(symbol) {
      pending := pending + [symbol];
    }
    var word := Word(ToLower(pending));
    if word != "" {
      prepared := prepared + word;
      pending := "";
    } else if LogicParsing.LogicPriority(symbol) != 0 {
      prepared := prepared + [symbol];
      pending := "";
    } else if IsDigit(symbol) {
      pending := pending + [symbol];
      prepared := prepared + pending;
      pending := "";
    }
  }

  method ConvertExpressionWithFullOperatorsAndOperandsToShort(expression: string) returns (preparedExpression: string)
    ensures preparedExpression == Translate(expression)
  {
    preparedExpression := "";
    var lexeme := "";
    var i := 0;
    while i < |expression|
      invariant 0 <= i <= |expression|
      invariant TranslateOver(Translator("", ""), expression) ==
        TranslateOver(Translator(preparedExpression, lexeme), expression[i..])
    {
      TranslateOverAt(Translator(preparedExpression, lexeme), expression, i);
      preparedExpression, lexeme := TranslateSymbol(preparedExpression, lexeme, expression[i]);
      i := i + 1;
    }
    assert expression[i..] == [];
  }

  /** getExpressionResult: the stored text is translated unless values were bound into it; it is not validated. */
  function FullResult(expression: string, settled: bool): (r: Result<bool>)
    ensures expression == [] ==> r == Err(NoExpressionError)
  {
    if expression == [] then Err(NoExpressionError)
    else LogicParsing.LogicValue(if settled then expression else Translate(expression))
  }

  /** Once values are bound, the full parser answers as the short one does on any text the short one accepts. */
  lemma {:induction false} SettledAsShort(expression: string)
    requires LogicParsing.LogicOperandsValid(expression)
    ensures FullResult(expression, true) == LogicParsing.ShortResult(expression)
  {
  }

  /** Before that, it answers for the translation of the text. */
  lemma {:induction false} UnsettledTranslates(expression: string)
    requires Translate(expression) != []
    ensures FullResult(expression, false) == FullResult(Translate(expression), true)
  {
  }

  class FullLogicStringExpressionParser {
    const stringExpression: Entities.StringExpression
    const base: LogicParsing.ShortLogicStringExpressionParser
    var isSettedVariablesValue: bool

    /** The inherited parser works on the same entity. */
    predicate Valid()
      reads this
    {
      base.stringExpression == stringExpression
    }

    constructor(stringExpression: Entities.StringExpression)
      ensures Valid() && this.stringExpression == stringExpression
      ensures !isSettedVariablesValue
    {
      this.stringExpression := stringExpression;
      base := new LogicParsing.ShortLogicStringExpressionParser(stringExpression);
      isSettedVariablesValue := false;
    }

    method GetExpressionResult() returns (r: Result<bool>)
      ensures r == FullResult(stringExpression.expression, isSettedVariablesValue)
    {
      var expression := stringExpression.expression;
      if expression == [] {
        return Err(NoExpressionError);
      }
      var input := expression;
      if !isSettedVariablesValue {
        input := ConvertExpressionWithFullOperatorsAndOperandsToShort(expression);
      }
      r := LogicParsing.ShortLogicStringExpressionParser.Evaluate(input);
    }

    /**
     * The translated text is stored first; the values are then bound into it
     * and the flag raised. When binding fails, the translation stays stored
     * and the flag keeps its value.
     */
    method SetVariablesValue(values: seq<bool>) returns (r: Outcome)
      requires Valid()
      modifies this, stringExpression
      ensures var translated := Translate(old(stringExpression.expression));
        var bound := LogicParsing.LogicBound(translated, values);
        if bound.Ok? then
          r == Pass && stringExpression.expression == StripWhitespace(bound.value) && isSettedVariablesValue
        else
          r == Fail(bound.error) && stringExpression.expression == translated &&
          isSettedVariablesValue == old(isSettedVariablesValue)
    {
      var translated := ConvertExpressionWithFullOperatorsAndOperandsToShort(stringExpression.expression);
      StripWhitespaceKeepsStripped(translated);
      stringExpression.SetExpression(translated);
      r := base.SetVariablesValue(values);
      if r.Fail? {
        return;
      }
      isSettedVariablesValue := true;
    }
  }
}
