// The infix-to-postfix conversion shared by every parser (a shunting-yard
// pass driven by a character priority), the rewrite of unary minus signs that
// runs before it, and the extraction of a function name and its arguments
// from an operand.
//
// A priority function maps each character to 0 (operand character), 1 (an
// opening bracket), -1 (a closing bracket) or a value above 1 (a binary
// operator; a higher value binds tighter).

module Converter {
  import opened Errors
  import opened Text

  // ------------------------------------------------------------- unary minus

  /**
   * One character of the unary rewrite: a leading '-' becomes "0-", a '-'
   * right after an emitted '-' turns that '-' into '+', anything else is
   * copied.
   */
  function UnaryStep(prepared: string, c: char, first: bool): (r: string)
    requires !first ==> prepared != []
    ensures r != []
  {
    if c == '-' && first then prepared + "0-"
    else if c == '-' && prepared[|prepared| - 1] == '-' then prepared[..|prepared| - 1] + "+"
    else prepared + [c]
  }

  /** The rewrite applied to the characters of s from position i on, after `prepared` was built from the rest. */
  function UnaryFrom(s: string, i: nat, prepared: string): string
    requires i <= |s|
    requires i > 0 ==> prepared != []
    decreases |s| - i
  {
    if i == |s| then prepared else UnaryFrom(s, i + 1, UnaryStep(prepared, s[i], i == 0))
  }

  function Unary(s: string): string
  {
    UnaryFrom(s, 0, "")
  }

  /** preparingExpressionWithUnaryOperator: the rewrite, one character at a time. */
  method PreparingExpressionWithUnaryOperator(expression: string) returns (prepared: string)
    ensures prepared == Unary(expression)
  {
    prepared := "";
    var token := 0;
    while token < |expression|
      invariant 0 <= token <= |expression|
      invariant token > 0 ==> prepared != []
      invariant UnaryFrom(expression, token, prepared) == Unary(expression)
    {
      var symbol := expression[token];
      ghost var next := UnaryStep(prepared, symbol, token == 0);
      if symbol == '-' {
        if token == 0 {
          prepared := prepared + "0";
        } else if prepared[|prepared| - 1] == '-' {
          prepared := prepared[..|prepared| - 1] + "+";
          token := token + 1;
          continue;
        }
      }
      prepared := prepared + [symbol];
      assert prepared == next;
      token := token + 1;
    }
  }

  /** Text with no "--" and no leading '-': what the rewrite produces. */
  predicate MinusFree(s: string)
  {
    (s == [] || s[0] != '-') && !Contains(s, "--")
  }

  /** A text without "--" followed by one without, with no '-' on both sides of the seam, has no "--". */
  lemma {:induction false} NoDoubleMinusAppend(a: string, b: string)
    requires !Contains(a, "--") && !Contains(b, "--")
    requires !(a != [] && b != [] && a[|a| - 1] == '-' && b[0] == '-')
    ensures !Contains(a + b, "--")
    decreases |a|
  {
    if |a| == 0 {
      assert a + b == b;
    } else if |a| == 1 {
      assert (a + b)[1..] == b;
      assert !StartsWith(a + b, "--");
    } else {
      assert (a + b)[1..] == a[1..] + b;
      assert (a + b)[..2] == a[..2];
      NoDoubleMinusAppend(a[1..], b);
    }
  }

  lemma {:induction false} NoDoubleMinusPair(c: char, d: char)
    requires !(c == '-' && d == '-')
    ensures !Contains([c, d], "--")
  {
    assert [c, d][..2] == [c, d];
    assert !StartsWith([c, d], "--");
    assert [c, d][1..] == [d];
    assert [d][1..] == [];
    assert !Contains([], "--");
    assert !Contains([d], "--");
  }

  lemma {:induction false} UnaryFromMinusFree(s: string, i: nat, prepared: string)
    requires i <= |s| && (i > 0 ==> prepared != [])
    requires (i == 0 ==> prepared == []) && (prepared == [] || prepared[0] != '-') && !Contains(prepared, "--")
    ensures MinusFree(UnaryFrom(s, i, prepared))
    decreases |s| - i
  {
    if i < |s| {
      var c := s[i];
      var next := UnaryStep(prepared, c, i == 0);
      if c == '-' && i == 0 {
        assert next == "0-";
        NoDoubleMinusPair('0', '-');
      } else if c == '-' && prepared[|prepared| - 1] == '-' {
        var keep := prepared[..|prepared| - 1];
        assert prepared == keep + "-";
        assert !Contains(keep, "--") by {
          if Contains(keep, "--") {
            var j := ContainsWitness(keep, "--");
            assert prepared[j..j + 2] == keep[j..j + 2];
            ContainsAt(prepared, "--", j);
          }
        }
        NoDoubleMinusAppend(keep, "+");
        assert next[0] != '-' by {
          if keep != [] { assert next[0] == prepared[0]; }
        }
      } else {
        assert !Contains([c], "--");
        NoDoubleMinusAppend(prepared, [c]);
        assert prepared == [] ==> i == 0 && c != '-';
      }
      UnaryFromMinusFree(s, i + 1, next);
    }
  }

  /** The rewrite leaves no leading '-' and no "--" behind. */
  lemma {:induction false} UnaryIsMinusFree(s: string)
    ensures MinusFree(Unary(s))
  {
    UnaryFromMinusFree(s, 0, "");
  }

  lemma {:induction false} UnaryFromOfMinusFree(s: string, i: nat)
    requires MinusFree(s) && i <= |s|
    ensures UnaryFrom(s, i, s[..i]) == s
    decreases |s| - i
  {
    if i < |s| {
      if s[i] == '-' && i > 0 && s[i - 1] == '-' {
        assert s[i - 1..i + 1] == "--";
        ContainsAt(s, "--", i - 1);
      }
      assert s[..i + 1] == s[..i] + [s[i]];
      UnaryFromOfMinusFree(s, i + 1);
    } else {
      assert s[..i] == s;
    }
  }

  /** Text the rewrite would produce is left as it is. */
  lemma {:induction false} UnaryOfMinusFree(s: string)
    requires MinusFree(s)
    ensures Unary(s) == s
  {
    UnaryFromOfMinusFree(s, 0);
  }

  lemma {:induction false} UnaryIdempotent(s: string)
    ensures Unary(Unary(s)) == Unary(s)
  {
    UnaryIsMinusFree(s);
    UnaryOfMinusFree(Unary(s));
  }

  /** The text the converter works on: the rewrite runs only on a leading '-' or a "--". */
  function Prepared(expression: string): (r: string)
    requires expression != []
    ensures MinusFree(r)
  {
    if expression[0] == '-' || Contains(expression, "--") then
      UnaryIsMinusFree(expression);
      Unary(expression)
    else expression
  }

  // ------------------------------------------------------------ shunting-yard

  /** The converter's state: the postfix text so far and the operator stack, top last. */
  datatype State = State(output: string, stack: seq<char>)

  /** Pops to the output, from the top, every operator whose priority is at least p. */
  function PopOperators(prio: char -> int, p: int, s: State): (r: State)
    ensures r.stack == [] || prio(r.stack[|r.stack| - 1]) < p
    decreases |s.stack|
  {
    if s.stack != [] && prio(s.stack[|s.stack| - 1]) >= p then
      PopOperators(prio, p, State(s.output + [s.stack[|s.stack| - 1]], s.stack[..|s.stack| - 1]))
    else s
  }

  /** A closing bracket: pops to the output down to the nearest opening bracket, which is discarded. */
  function PopToOpening(prio: char -> int, s: State): (r: Result<State>)
    ensures r.Err? ==> r.error == Runtime(EmptyStack)
    decreases |s.stack|
  {
    if s.stack == [] then Err(Runtime(EmptyStack))
    else if prio(s.stack[|s.stack| - 1]) == 1 then Ok(State(s.output, s.stack[..|s.stack| - 1]))
    else PopToOpening(prio, State(s.output + [s.stack[|s.stack| - 1]], s.stack[..|s.stack| - 1]))
  }

  function Step(prio: char -> int, c: char, s: State): Result<State>
  {
    var p := prio(c);
    if p == 0 then Ok(State(s.output + [c], s.stack))
    else if p == 1 then Ok(State(s.output, s.stack + [c]))
    else if p > 1 then
      var popped := PopOperators(prio, p, State(s.output + " ", s.stack));
      Ok(State(popped.output, popped.stack + [c]))
    else if p == -1 then PopToOpening(prio, s)
    else Ok(s)
  }

  /** The scan over text, left to right, from state s. */
  function Run(prio: char -> int, text: string, s: State): Result<State>
    decreases |text|
  {
    if text == [] then Ok(s)
    else
      match Step(prio, text[0], s)
      case Err(e) => Err(e)
      case Ok(s') => Run(prio, text[1..], s')
  }

  /** The final pops: the stack emptied onto the output, top first. */
  function FlushStack(s: State): string
    decreases |s.stack|
  {
    if s.stack == [] then s.output
    else FlushStack(State(s.output + [s.stack[|s.stack| - 1]], s.stack[..|s.stack| - 1]))
  }

  /** expressionToReversePolishNotation as a function: empty text has no first character to inspect. */
  function ToReversePolish(prio: char -> int, expression: string): (r: Result<string>)
    ensures expression == [] ==> r == Err(Runtime(IndexOutOfBounds))
    ensures r.Err? ==> r.error in {Runtime(IndexOutOfBounds), Runtime(EmptyStack)}
  {
    if expression == [] then Err(Runtime(IndexOutOfBounds))
    else
      match Run(prio, Prepared(expression), State("", []))
      case Err(e) =>
        RunErrors(prio, Prepared(expression), State("", []));
        Err(e)
      case Ok(s) => Ok(FlushStack(s))
  }

  lemma {:induction false} RunErrors(prio: char -> int, text: string, s: State)
    ensures Run(prio, text, s).Err? ==> Run(prio, text, s).error == Runtime(EmptyStack)
    decreases |text|
  {
    if text != [] {
      match Step(prio, text[0], s)
      case Err(_) =>
      case Ok(s') => RunErrors(prio, text[1..], s');
    }
  }

  lemma {:induction false} RunAt(prio: char -> int, text: string, i: nat, s: State)
    requires i < |text|
    ensures Run(prio, text[i..], s) ==
      match Step(prio, text[i], s)
      case Err(e) => Err(e)
      case Ok(t) => Run(prio, text[i + 1..], t)
  {
    assert text[i..][1..] == text[i + 1..];
  }

  /** The scan of a + b is the scan of b from the state the scan of a leaves. */
  lemma {:induction false} RunAppend(prio: char -> int, a: string, b: string, s: State)
    ensures Run(prio, a + b, s) ==
      match Run(prio, a, s)
      case Err(e) => Err(e)
      case Ok(t) => Run(prio, b, t)
    decreases |a|
  {
    if a == [] {
      assert a + b == b;
    } else {
      assert (a + b)[0] == a[0] && (a + b)[1..] == a[1..] + b;
      var step := Step(prio, a[0], s);
      if step.Ok? {
        RunAppend(prio, a[1..], b, step.value);
      }
    }
  }

  /** expressionToReversePolishNotation: the conversion with its explicit stack loops. */
  method ExpressionToReversePolishNotation(prio: char -> int, expression: string) returns (r: Result<string>)
    ensures r == ToReversePolish(prio, expression)
  {
    if expression == [] {
      return Err(Runtime(IndexOutOfBounds));
    }
    var text := expression;
    if text[0] == '-' || Contains(text, "--") {
      text := PreparingExpressionWithUnaryOperator(text);
    }
    assert text == Prepared(expression);
    var output := "";
    var stack: seq<char> := [];
    var i := 0;
    while i < |text|
      invariant 0 <= i <= |text|
      invariant Run(prio, text, State("", [])) == Run(prio, text[i..], State(output, stack))
    {
      var c := text[i];
      var p := prio(c);
      RunAt(prio, text, i, State(output, stack));
      if p == 0 {
        output := output + [c];
      } else if p == 1 {
        stack := stack + [c];
      } else if p > 1 {
        output := output + " ";
        ghost var start := State(output, stack);
        while stack != [] && prio(stack[|stack| - 1]) >= p
          invariant PopOperators(prio, p, start) == PopOperators(prio, p, State(output, stack))
          decreases |stack|
        {
          output := output + [stack[|stack| - 1]];
          stack := stack[..|stack| - 1];
        }
        stack := stack + [c];
      } else if p == -1 {
        ghost var start := State(output, stack);
        while stack != [] && prio(stack[|stack| - 1]) != 1
          invariant PopToOpening(prio, start) == PopToOpening(prio, State(output, stack))
          decreases |stack|
        {
          output := output + [stack[|stack| - 1]];
          stack := stack[..|stack| - 1];
        }
        if stack == [] {
          return Err(Runtime(EmptyStack));
        }
        stack := stack[..|stack| - 1];
      }
      i := i + 1;
    }
    ghost var last := State(output, stack);
    while stack != []
      invariant FlushStack(last) == FlushStack(State(output, stack))
      decreases |stack|
    {
      output := output + [stack[|stack| - 1]];
      stack := stack[..|stack| - 1];
    }
    return Ok(output);
  }

  // ---------------------------------------------------- what the scan keeps

  /** The operand characters of s in order: priority 0, other than the separating space. */
  function Operands(prio: char -> int, s: string): string
    decreases |s|
  {
    if s == [] then []
    else Operands(prio, s[..|s| - 1]) + (if prio(s[|s| - 1]) == 0 && s[|s| - 1] != ' ' then [s[|s| - 1]] else [])
  }

  lemma {:induction false} OperandsAppend(prio: char -> int, a: string, b: string)
    ensures Operands(prio, a + b) == Operands(prio, a) + Operands(prio, b)
    decreases |b|
  {
    if b == [] {
      assert a + b == a;
    } else {
      assert (a + b)[..|a + b| - 1] == a + b[..|b| - 1];
      OperandsAppend(prio, a, b[..|b| - 1]);
    }
  }

  /** Only brackets and operators are ever pushed. */
  predicate OnlyOperators(prio: char -> int, stack: seq<char>)
    decreases |stack|
  {
    stack == [] || (prio(stack[|stack| - 1]) >= 1 && OnlyOperators(prio, stack[..|stack| - 1]))
  }

  lemma {:induction false} PopOperatorsKeepsOperands(prio: char -> int, p: int, s: State)
    requires OnlyOperators(prio, s.stack)
    ensures Operands(prio, PopOperators(prio, p, s).output) == Operands(prio, s.output)
    ensures OnlyOperators(prio, PopOperators(prio, p, s).stack)
    decreases |s.stack|
  {
    if s.stack != [] && prio(s.stack[|s.stack| - 1]) >= p {
      var top := s.stack[|s.stack| - 1];
      assert (s.output + [top])[..|s.output|] == s.output;
      PopOperatorsKeepsOperands(prio, p, State(s.output + [top], s.stack[..|s.stack| - 1]));
    }
  }

  lemma {:induction false} PopToOpeningKeepsOperands(prio: char -> int, s: State)
    requires OnlyOperators(prio, s.stack) && PopToOpening(prio, s).Ok?
    ensures Operands(prio, PopToOpening(prio, s).value.output) == Operands(prio, s.output)
    ensures OnlyOperators(prio, PopToOpening(prio, s).value.stack)
    decreases |s.stack|
  {
    if prio(s.stack[|s.stack| - 1]) != 1 {
      var top := s.stack[|s.stack| - 1];
      assert (s.output + [top])[..|s.output|] == s.output;
      PopToOpeningKeepsOperands(prio, State(s.output + [top], s.stack[..|s.stack| - 1]));
    }
  }

  lemma {:induction false} StepKeepsOperands(prio: char -> int, c: char, s: State)
    requires OnlyOperators(prio, s.stack) && Step(prio, c, s).Ok?
    ensures Operands(prio, Step(prio, c, s).value.output) == Operands(prio, s.output) + Operands(prio, [c])
    ensures OnlyOperators(prio, Step(prio, c, s).value.stack)
  {
    var p := prio(c);
    OperandsOfOne(prio, c);
    if p == 0 {
      OperandsAppend(prio, s.output, [c]);
    } else if p == 1 {
      PushKeepsOnlyOperators(prio, s.stack, c);
    } else if p > 1 {
      var popped := PopOperators(prio, p, State(s.output + " ", s.stack));
      OperandsOfOne(prio, ' ');
      OperandsAppend(prio, s.output, " ");
      PopOperatorsKeepsOperands(prio, p, State(s.output + " ", s.stack));
      PushKeepsOnlyOperators(prio, popped.stack, c);
    } else if p == -1 {
      PopToOpeningKeepsOperands(prio, s);
    }
  }

  lemma {:induction false} OperandsOfOne(prio: char -> int, c: char)
    ensures Operands(prio, [c]) == if prio(c) == 0 && c != ' ' then [c] else []
  {
    assert [c][..0] == [];
  }

  lemma {:induction false} PushKeepsOnlyOperators(prio: char -> int, stack: seq<char>, c: char)
    requires OnlyOperators(prio, stack) && prio(c) >= 1
    ensures OnlyOperators(prio, stack + [c])
  {
    assert (stack + [c])[..|stack|] == stack;
  }

  lemma {:induction false} RunKeepsOnlyOperators(prio: char -> int, text: string, s: State)
    requires OnlyOperators(prio, s.stack) && Run(prio, text, s).Ok?
    ensures OnlyOperators(prio, Run(prio, text, s).value.stack)
    decreases |text|
  {
    if text != [] {
      StepKeepsOperands(prio, text[0], s);
      RunKeepsOnlyOperators(prio, text[1..], Step(prio, text[0], s).value);
    }
  }

  lemma {:induction false} RunCons(prio: char -> int, text: string, s: State)
    requires text != [] && Step(prio, text[0], s).Ok?
    ensures Run(prio, text, s) == Run(prio, text[1..], Step(prio, text[0], s).value)
  {
  }

  lemma {:induction false} OperandsCons(prio: char -> int, text: string)
    requires text != []
    ensures Operands(prio, text) == Operands(prio, [text[0]]) + Operands(prio, text[1..])
  {
    assert text == [text[0]] + text[1..];
    OperandsAppend(prio, [text[0]], text[1..]);
  }

  lemma {:induction false} RunKeepsOperands(prio: char -> int, text: string, s: State)
    requires OnlyOperators(prio, s.stack) && Run(prio, text, s).Ok?
    ensures Operands(prio, Run(prio, text, s).value.output) == Operands(prio, s.output) + Operands(prio, text)
    decreases |text|
  {
    if text != [] {
      var c, rest := text[0], text[1..];
      var s' := Step(prio, c, s).value;
      RunCons(prio, text, s);
      StepKeepsOperands(prio, c, s);
      RunKeepsOperands(prio, rest, s');
      OperandsCons(prio, text);
    }
  }

  lemma {:induction false} FlushStackKeepsOperands(prio: char -> int, s: State)
    requires OnlyOperators(prio, s.stack)
    ensures Operands(prio, FlushStack(s)) == Operands(prio, s.output)
    decreases |s.stack|
  {
    if s.stack != [] {
      var top := s.stack[|s.stack| - 1];
      assert (s.output + [top])[..|s.output|] == s.output;
      FlushStackKeepsOperands(prio, State(s.output + [top], s.stack[..|s.stack| - 1]));
    }
  }

  /** Every operand character of the converted text reaches the output, in the order of the text. */
  lemma {:induction false} ToReversePolishKeepsOperands(prio: char -> int, expression: string)
    requires ToReversePolish(prio, expression).Ok?
    ensures Operands(prio, ToReversePolish(prio, expression).value) == Operands(prio, Prepared(expression))
  {
    var s := Run(prio, Prepared(expression), State("", [])).value;
    RunKeepsOperands(prio, Prepared(expression), State("", []));
    RunKeepsOnlyOperators(prio, Prepared(expression), State("", []));
    FlushStackKeepsOperands(prio, s);
  }

  // --------------------------------------------------- what the scan counts

  /** The occurrences of x in the output and on the stack together. */
  function Held(s: State, x: char): nat
  {
    CountChar(s.output, x) + CountChar(s.stack, x)
  }

  lemma {:induction false} MoveTop(s: State, x: char)
    requires s.stack != []
    ensures Held(State(s.output + [s.stack[|s.stack| - 1]], s.stack[..|s.stack| - 1]), x) == Held(s, x)
  {
    var top := s.stack[|s.stack| - 1];
    CountCharAppend(s.output, [top], x);
    assert s.stack == s.stack[..|s.stack| - 1] + [top];
    CountCharAppend(s.stack[..|s.stack| - 1], [top], x);
  }

  lemma {:induction false} PopOperatorsKeepsHeld(prio: char -> int, p: int, s: State, x: char)
    ensures Held(PopOperators(prio, p, s), x) == Held(s, x)
    decreases |s.stack|
  {
    if s.stack != [] && prio(s.stack[|s.stack| - 1]) >= p {
      MoveTop(s, x);
      PopOperatorsKeepsHeld(prio, p, State(s.output + [s.stack[|s.stack| - 1]], s.stack[..|s.stack| - 1]), x);
    }
  }

  lemma {:induction false} PopToOpeningKeepsHeld(prio: char -> int, s: State, x: char)
    requires prio(x) != 1 && PopToOpening(prio, s).Ok?
    ensures Held(PopToOpening(prio, s).value, x) == Held(s, x)
    decreases |s.stack|
  {
    var top := s.stack[|s.stack| - 1];
    if prio(top) == 1 {
      assert s.stack == s.stack[..|s.stack| - 1] + [top];
      CountCharAppend(s.stack[..|s.stack| - 1], [top], x);
    } else {
      MoveTop(s, x);
      PopToOpeningKeepsHeld(prio, State(s.output + [top], s.stack[..|s.stack| - 1]), x);
    }
  }

  lemma {:induction false} StepKeepsHeld(prio: char -> int, c: char, s: State, x: char)
    requires prio(x) > 1 && x != ' ' && Step(prio, c, s).Ok?
    ensures Held(Step(prio, c, s).value, x) == Held(s, x) + CountChar([c], x)
  {
    var p := prio(c);
    if p == 0 {
      CountCharAppend(s.output, [c], x);
    } else if p == 1 {
      CountCharAppend(s.stack, [c], x);
    } else if p > 1 {
      CountCharAppend(s.output, " ", x);
      var popped := PopOperators(prio, p, State(s.output + " ", s.stack));
      PopOperatorsKeepsHeld(prio, p, State(s.output + " ", s.stack), x);
      CountCharAppend(popped.stack, [c], x);
    } else if p == -1 {
      PopToOpeningKeepsHeld(prio, s, x);
    }
  }

  lemma {:induction false} RunKeepsHeld(prio: char -> int, text: string, s: State, x: char)
    requires prio(x) > 1 && x != ' ' && Run(prio, text, s).Ok?
    ensures Held(Run(prio, text, s).value, x) == Held(s, x) + CountChar(text, x)
    decreases |text|
  {
    if text != [] {
      var c, rest := text[0], text[1..];
      RunCons(prio, text, s);
      StepKeepsHeld(prio, c, s, x);
      RunKeepsHeld(prio, rest, Step(prio, c, s).value, x);
      assert text == [c] + rest;
      CountCharAppend([c], rest, x);
    }
  }

  lemma {:induction false} FlushStackKeepsHeld(s: State, x: char)
    ensures CountChar(FlushStack(s), x) == Held(s, x)
    decreases |s.stack|
  {
    if s.stack != [] {
      MoveTop(s, x);
      FlushStackKeepsHeld(State(s.output + [s.stack[|s.stack| - 1]], s.stack[..|s.stack| - 1]), x);
    }
  }

  /** Every binary operator of the converted text appears in the output exactly as often. */
  lemma {:induction false} ToReversePolishKeepsOperators(prio: char -> int, expression: string, x: char)
    requires prio(x) > 1 && x != ' ' && ToReversePolish(prio, expression).Ok?
    ensures CountChar(ToReversePolish(prio, expression).value, x) == CountChar(Prepared(expression), x)
  {
    var s := Run(prio, Prepared(expression), State("", [])).value;
    RunKeepsHeld(prio, Prepared(expression), State("", []), x);
    FlushStackKeepsHeld(s, x);
  }

  // ------------------------------------------------ when the scan fails

  /** The opening brackets on the stack. */
  function Opens(prio: char -> int, stack: seq<char>): nat
    decreases |stack|
  {
    if stack == [] then 0
    else Opens(prio, stack[..|stack| - 1]) + (if prio(stack[|stack| - 1]) == 1 then 1 else 0)
  }

  /** Every closing bracket of text finds an opening one, given `open` already open. */
  predicate Balanced(prio: char -> int, text: string, open: nat)
    decreases |text|
  {
    text == [] ||
    (if prio(text[0]) == -1 then open > 0 && Balanced(prio, text[1..], open - 1)
     else Balanced(prio, text[1..], if prio(text[0]) == 1 then open + 1 else open))
  }

  lemma {:induction false} PopOperatorsKeepsOpens(prio: char -> int, p: int, s: State)
    requires p > 1
    ensures Opens(prio, PopOperators(prio, p, s).stack) == Opens(prio, s.stack)
    decreases |s.stack|
  {
    if s.stack != [] && prio(s.stack[|s.stack| - 1]) >= p {
      PopOperatorsKeepsOpens(prio, p, State(s.output + [s.stack[|s.stack| - 1]], s.stack[..|s.stack| - 1]));
    }
  }

  lemma {:induction false} PopToOpeningOpens(prio: char -> int, s: State)
    ensures PopToOpening(prio, s).Ok? <==> Opens(prio, s.stack) > 0
    ensures PopToOpening(prio, s).Ok? ==> Opens(prio, PopToOpening(prio, s).value.stack) == Opens(prio, s.stack) - 1
    decreases |s.stack|
  {
    if s.stack != [] && prio(s.stack[|s.stack| - 1]) != 1 {
      PopToOpeningOpens(prio, State(s.output + [s.stack[|s.stack| - 1]], s.stack[..|s.stack| - 1]));
    }
  }

  lemma {:induction false} StepOpens(prio: char -> int, c: char, s: State)
    ensures Step(prio, c, s).Ok? <==> (prio(c) == -1 ==> Opens(prio, s.stack) > 0)
    ensures Step(prio, c, s).Ok? ==>
      Opens(prio, Step(prio, c, s).value.stack) ==
        if prio(c) == 1 then Opens(prio, s.stack) + 1
        else if prio(c) == -1 then Opens(prio, s.stack) - 1
        else Opens(prio, s.stack)
  {
    var p := prio(c);
    if p == 1 {
      assert (s.stack + [c])[..|s.stack|] == s.stack;
    } else if p > 1 {
      var popped := PopOperators(prio, p, State(s.output + " ", s.stack));
      PopOperatorsKeepsOpens(prio, p, State(s.output + " ", s.stack));
      assert (popped.stack + [c])[..|popped.stack|] == popped.stack;
    } else if p == -1 {
      PopToOpeningOpens(prio, s);
    }
  }

  lemma {:induction false} RunFailsIffUnbalanced(prio: char -> int, text: string, s: State)
    ensures Run(prio, text, s).Ok? <==> Balanced(prio, text, Opens(prio, s.stack))
    decreases |text|
  {
    if text != [] {
      StepOpens(prio, text[0], s);
      if Step(prio, text[0], s).Ok? {
        RunCons(prio, text, s);
        RunFailsIffUnbalanced(prio, text[1..], Step(prio, text[0], s).value);
      }
    }
  }

  /**
   * The conversion fails exactly on empty text and on text with a closing
   * bracket that no earlier opening bracket matches.
   */
  lemma {:induction false} ToReversePolishFailsIffUnbalanced(prio: char -> int, expression: string)
    ensures ToReversePolish(prio, expression).Err? <==>
      expression == [] || !Balanced(prio, Prepared(expression), 0)
  {
    if expression != [] {
      RunFailsIffUnbalanced(prio, Prepared(expression), State("", []));
    }
  }

  // ---------------------------------------------- the order on the stack

  /**
   * Above each opening bracket the stack holds operators of strictly
   * increasing priority, so two operators of equal priority are never stacked
   * together: the earlier one is output before the later one is pushed.
   */
  predicate Ordered(prio: char -> int, stack: seq<char>)
    decreases |stack|
  {
    |stack| <= 1 ||
    ((prio(stack[|stack| - 1]) == 1 || prio(stack[|stack| - 2]) < prio(stack[|stack| - 1]))
     && Ordered(prio, stack[..|stack| - 1]))
  }

  lemma {:induction false} OrderedPrefix(prio: char -> int, stack: seq<char>, n: nat)
    requires Ordered(prio, stack) && n <= |stack|
    ensures Ordered(prio, stack[..n])
    decreases |stack|
  {
    if n < |stack| {
      assert stack[..|stack| - 1][..n] == stack[..n];
      OrderedPrefix(prio, stack[..|stack| - 1], n);
    } else {
      assert stack[..n] == stack;
    }
  }

  lemma {:induction false} PopOperatorsIsPrefix(prio: char -> int, p: int, s: State)
    ensures |PopOperators(prio, p, s).stack| <= |s.stack|
    ensures PopOperators(prio, p, s).stack == s.stack[..|PopOperators(prio, p, s).stack|]
    decreases |s.stack|
  {
    if s.stack != [] && prio(s.stack[|s.stack| - 1]) >= p {
      var t := State(s.output + [s.stack[|s.stack| - 1]], s.stack[..|s.stack| - 1]);
      PopOperatorsIsPrefix(prio, p, t);
      var n := |PopOperators(prio, p, t).stack|;
      assert s.stack[..|s.stack| - 1][..n] == s.stack[..n];
    }
  }

  lemma {:induction false} PopToOpeningIsPrefix(prio: char -> int, s: State)
    requires PopToOpening(prio, s).Ok?
    ensures |PopToOpening(prio, s).value.stack| < |s.stack|
    ensures PopToOpening(prio, s).value.stack == s.stack[..|PopToOpening(prio, s).value.stack|]
    decreases |s.stack|
  {
    if prio(s.stack[|s.stack| - 1]) != 1 {
      var t := State(s.output + [s.stack[|s.stack| - 1]], s.stack[..|s.stack| - 1]);
      PopToOpeningIsPrefix(prio, t);
      var n := |PopToOpening(prio, t).value.stack|;
      assert s.stack[..|s.stack| - 1][..n] == s.stack[..n];
    }
  }

  lemma {:induction false} StepKeepsOrdered(prio: char -> int, c: char, s: State)
    requires Ordered(prio, s.stack) && Step(prio, c, s).Ok?
    ensures Ordered(prio, Step(prio, c, s).value.stack)
  {
    var p := prio(c);
    if p == 1 {
      assert (s.stack + [c])[..|s.stack|] == s.stack;
    } else if p > 1 {
      var popped := PopOperators(prio, p, State(s.output + " ", s.stack));
      PopOperatorsIsPrefix(prio, p, State(s.output + " ", s.stack));
      OrderedPrefix(prio, s.stack, |popped.stack|);
      assert (popped.stack + [c])[..|popped.stack|] == popped.stack;
    } else if p == -1 {
      PopToOpeningIsPrefix(prio, s);
      OrderedPrefix(prio, s.stack, |PopToOpening(prio, s).value.stack|);
    }
  }

  /** The scan keeps the operator stack ordered by priority. */
  lemma {:induction false} RunKeepsOrdered(prio: char -> int, text: string, s: State)
    requires Ordered(prio, s.stack) && Run(prio, text, s).Ok?
    ensures Ordered(prio, Run(prio, text, s).value.stack)
    decreases |text|
  {
    if text != [] {
      RunCons(prio, text, s);
      StepKeepsOrdered(prio, text[0], s);
      RunKeepsOrdered(prio, text[1..], Step(prio, text[0], s).value);
    }
  }

  // ------------------------------------------------ a text of one operand

  /** Operand characters are copied through unchanged and leave the stack alone. */
  lemma {:induction false} RunOperandChars(prio: char -> int, text: string, s: State)
    requires forall k :: 0 <= k < |text| ==> prio(text[k]) == 0
    ensures Run(prio, text, s) == Ok(State(s.output + text, s.stack))
    decreases |text|
  {
    if text != [] {
      assert forall k :: 0 <= k < |text[1..]| ==> text[1..][k] == text[k + 1];
      RunOperandChars(prio, text[1..], State(s.output + [text[0]], s.stack));
      assert s.output + [text[0]] + text[1..] == s.output + text;
    } else {
      assert s.output + text == s.output;
    }
  }

  lemma {:induction false} NoMinusNoDoubleMinus(s: string)
    requires forall k :: 0 <= k < |s| ==> s[k] != '-'
    ensures !Contains(s, "--")
    decreases |s|
  {
    if s != [] {
      if |s| >= 2 {
        assert s[..2][0] == s[0];
      }
      assert forall k :: 0 <= k < |s[1..]| ==> s[1..][k] == s[k + 1];
      NoMinusNoDoubleMinus(s[1..]);
    }
  }

  /** prio reads '(' and ')' as the brackets and op as an operator. */
  predicate Bracketing(prio: char -> int, op: char)
  {
    prio('(') == 1 && prio(')') == -1 && prio(op) > 1
  }

  /** A bracketed operation whose operands scan to their postfix texts scans to both texts and then the operator. */
  lemma {:induction false} RunOfBracketed(prio: char -> int, op: char, pl: string, pr: string, a: string, b: string, out: string, stack: seq<char>)
    requires Bracketing(prio, op)
    requires Run(prio, pl, State(out, stack + ['('])) ==
      Ok(State(out + a, stack + ['(']))
    requires Run(prio, pr, State(out + a + " ", stack + ['('] + [op])) ==
      Ok(State(out + a + " " + b, stack + ['('] + [op]))
    ensures Run(prio, "(" + pl + [op] + pr + ")", State(out, stack)) ==
      Ok(State(out + (a + " " + b + [op]), stack))
  {
    BracketSteps(prio, op, out, stack, a, b);
    RunChain(prio, "(", pl, [op], pr, ")", State(out, stack), State(out, stack + ['(']),
      State(out + a, stack + ['(']), State(out + a + " ", stack + ['('] + [op]),
      State(out + a + " " + b, stack + ['('] + [op]),
      State(out + a + " " + b + [op], stack));
    ConcatRegroup(out, a, b, op);
  }

  /** Appending the pieces of a postfix operation one by one appends the whole. */
  lemma {:induction false} ConcatRegroup(out: string, a: string, b: string, op: char)
    ensures out + a + " " + b + [op] == out + (a + " " + b + [op])
  {
  }

  /** Five scans that each pick up where the previous one stopped make one scan of the joined text. */
  lemma {:induction false} RunChain(prio: char -> int, x1: string, x2: string, x3: string, x4: string, x5: string,
                 s0: State, s1: State, s2: State, s3: State,
                 s4: State, s5: State)
    requires Run(prio, x1, s0) == Ok(s1) && Run(prio, x2, s1) == Ok(s2)
    requires Run(prio, x3, s2) == Ok(s3) && Run(prio, x4, s3) == Ok(s4)
    requires Run(prio, x5, s4) == Ok(s5)
    ensures Run(prio, x1 + x2 + x3 + x4 + x5, s0) == Ok(s5)
  {
    RunAppend(prio, x1, x2, s0);
    RunAppend(prio, x1 + x2, x3, s0);
    RunAppend(prio, x1 + x2 + x3, x4, s0);
    RunAppend(prio, x1 + x2 + x3 + x4, x5, s0);
  }

  /** The opening bracket is pushed, the operator lands on it, and the closing bracket pops the operator into the output. */
  lemma {:induction false} BracketSteps(prio: char -> int, op: char, out: string, stack: seq<char>, a: string, b: string)
    requires Bracketing(prio, op)
    ensures Run(prio, "(", State(out, stack)) ==
      Ok(State(out, stack + ['(']))
    ensures Run(prio, [op], State(out + a, stack + ['('])) ==
      Ok(State(out + a + " ", stack + ['('] + [op]))
    ensures Run(prio, ")", State(out + a + " " + b, stack + ['('] + [op])) ==
      Ok(State(out + a + " " + b + [op], stack))
  {
    var s4 := State(out + a + " " + b, stack + ['('] + [op]);
    var s5 := State(out + a + " " + b + [op], stack);
    assert Step(prio, '(', State(out, stack)) == Ok(State(out, stack + ['(']));
    assert Step(prio, op, State(out + a, stack + ['('])) ==
      Ok(State(out + a + " ", stack + ['('] + [op]));
    assert Step(prio, ')', s4) == Ok(s5) by {
      var o := out + a + " " + b;
      assert (stack + ['('] + [op])[..|stack| + 1] == stack + ['('];
      assert (stack + ['('])[..|stack|] == stack;
      assert PopToOpening(prio, State(o + [op], stack + ['('])) == Ok(s5);
      assert PopToOpening(prio, s4) == PopToOpening(prio, State(o + [op], stack + ['(']));
    }
  }

  /** A text that is a single operand, without a minus sign, converts to itself. */
  lemma {:induction false} SingleOperandConverts(prio: char -> int, operand: string)
    requires operand != []
    requires forall k :: 0 <= k < |operand| ==> prio(operand[k]) == 0 && operand[k] != '-'
    ensures ToReversePolish(prio, operand) == Ok(operand)
  {
    NoMinusNoDoubleMinus(operand);
    assert Prepared(operand) == operand;
    RunOperandChars(prio, operand, State("", []));
    assert "" + operand == operand;
  }

  // ------------------------------------------ function name and arguments

  /** The longest prefix of the operand made of letters: the name of the function it calls. */
  function FunctionName(operand: string): (name: string)
    ensures StartsWith(operand, name) && AllLetters(name)
    ensures |name| < |operand| ==> !IsLetter(operand[|name|])
    decreases |operand|
  {
    if operand != [] && IsLetter(operand[0]) then
      var rest := FunctionName(operand[1..]);
      assert operand[1..][..|rest|] == operand[1..|rest| + 1];
      [operand[0]] + rest
    else ""
  }

  predicate IsArgumentChar(c: char) { IsDigit(c) || c == ',' }

  /** The longest run of digits and commas in the operand starting at i. */
  function ArgumentRun(operand: string, i: nat): (r: string)
    requires i <= |operand|
    ensures i + |r| <= |operand| && operand[i..i + |r|] == r
    ensures forall k :: 0 <= k < |r| ==> IsArgumentChar(r[k])
    ensures i + |r| < |operand| ==> !IsArgumentChar(operand[i + |r|])
    decreases |operand| - i
  {
    if i < |operand| && IsArgumentChar(operand[i]) then [operand[i]] + ArgumentRun(operand, i + 1)
    else ""
  }

  /** The arguments of the call: the run of digits and commas right after the name. */
  function FunctionArguments(operand: string): (r: string)
    ensures |FunctionName(operand)| + |r| <= |operand|
    ensures operand == FunctionName(operand) + r + operand[|FunctionName(operand)| + |r|..]
  {
    var n := |FunctionName(operand)|;
    var r := ArgumentRun(operand, n);
    assert operand == operand[..n] + operand[n..n + |r|] + operand[n + |r|..];
    r
  }

  /** getFunctionNameFromOperand: letters are collected until the first other character. */
  method FunctionNameFromOperand(operand: string) returns (functionName: string)
    ensures functionName == FunctionName(operand)
  {
    functionName := "";
    var position := 0;
    while position < |operand| && IsLetter(operand[position])
      invariant 0 <= position <= |operand|
      invariant functionName == operand[..position] && AllLetters(functionName)
    {
      functionName := functionName + [operand[position]];
      position := position + 1;
    }
    FunctionNameUnique(operand, functionName);
  }

  /** Only one prefix of letters stops at a non-letter or at the end. */
  lemma {:induction false} FunctionNameUnique(operand: string, t: string)
    requires StartsWith(operand, t) && AllLetters(t)
    requires |t| < |operand| ==> !IsLetter(operand[|t|])
    ensures t == FunctionName(operand)
  {
    var n := FunctionName(operand);
    LetterPrefixNotLonger(operand, n, t);
    LetterPrefixNotLonger(operand, t, n);
    assert t == operand[..|t|] == n;
  }

  /** A prefix of letters that ends at a non-letter or at the end is no longer than any other prefix of letters. */
  lemma {:induction false} LetterPrefixNotLonger(operand: string, t: string, u: string)
    requires StartsWith(operand, t) && StartsWith(operand, u) && AllLetters(u)
    requires |t| < |operand| ==> !IsLetter(operand[|t|])
    ensures |u| <= |t|
  {
    assert forall k :: 0 <= k < |u| ==> u[k] == operand[k];
    if |t| < |u| {
      assert false;
    }
  }

  /** getFunctionArgumentsFromOperand: digits and commas are collected from the end of the name on. */
  method FunctionArgumentsFromOperand(operand: string) returns (functionArguments: string)
    ensures functionArguments == FunctionArguments(operand)
  {
    functionArguments := "";
    var name := FunctionNameFromOperand(operand);
    var position := |name|;
    while position < |operand| && IsArgumentChar(operand[position])
      invariant |name| <= position <= |operand|
      invariant functionArguments == operand[|name|..position]
      invariant forall k :: 0 <= k < |functionArguments| ==> IsArgumentChar(functionArguments[k])
    {
      functionArguments := functionArguments + [operand[position]];
      position := position + 1;
    }
    ArgumentRunUnique(operand, |name|, functionArguments);
  }

  lemma {:induction false} ArgumentRunUnique(operand: string, i: nat, t: string)
    requires i + |t| <= |operand| && operand[i..i + |t|] == t
    requires forall k :: 0 <= k < |t| ==> IsArgumentChar(t[k])
    requires i + |t| < |operand| ==> !IsArgumentChar(operand[i + |t|])
    ensures t == ArgumentRun(operand, i)
  {
    var r := ArgumentRun(operand, i);
    ArgumentRunNotLonger(operand, i, r, t);
    ArgumentRunNotLonger(operand, i, t, r);
    assert t == operand[i..i + |t|] == r;
  }

  /** A run of argument characters from i that ends at another character or at the end is no shorter than any other such run. */
  lemma {:induction false} ArgumentRunNotLonger(operand: string, i: nat, t: string, u: string)
    requires i + |t| <= |operand| && operand[i..i + |t|] == t
    requires i + |t| < |operand| ==> !IsArgumentChar(operand[i + |t|])
    requires i + |u| <= |operand| && operand[i..i + |u|] == u
    requires forall k :: 0 <= k < |u| ==> IsArgumentChar(u[k])
    ensures |u| <= |t|
  {
    assert forall k :: 0 <= k < |u| ==> u[k] == operand[i + k];
    if |t| < |u| {
      assert false;
    }
  }
}
