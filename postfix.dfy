// The postfix evaluation shared by the numeric, decimal and logic parsers:
// a scan over the converter's output with an operand stack. A maximal run of
// priority-0 characters other than the space is one operand; it is resolved
// to a value as soon as the run ends (at a space, a bracket or an operator,
// or at the end of the text) and pushed. An operator pops the right operand a,
// then the left operand b, and pushes the value of b op a. Brackets are
// skipped. The result is the top of the stack at the end.

module Postfix {
  import opened Errors

  /** What the scan needs to know about one operand type. */
  datatype Machine<!T> = Machine(
    prio: char -> int,              // the parser's character priority
    resolve: string -> Result<T>,   // the value of an operand's text
    inspect: T -> Outcome,          // run on the right operand as soon as it is popped
    apply: (char, T, T) -> Result<T>) // the operator applied to b and a, in that order

  /** The operand stack, top last, and the characters of the operand being read. */
  datatype Scan<T> = Scan(stack: seq<T>, operand: string)

  /** The end of an operand: its value is pushed. */
  function Flush<T>(m: Machine<T>, s: Scan<T>): (r: Result<Scan<T>>)
    ensures r.Ok? ==> r.value.operand == []
    ensures s.operand == [] ==> r == Ok(s)
    ensures s.operand != [] ==> (r.Ok? <==> m.resolve(s.operand).Ok?)
    ensures r.Ok? && s.operand != [] ==> r.value.stack == s.stack + [m.resolve(s.operand).value]
    ensures r.Err? ==> r == Err(m.resolve(s.operand).error)
  {
    if s.operand == [] then Ok(s)
    else
      match m.resolve(s.operand)
      case Err(e) => Err(e)
      case Ok(v) => Ok(Scan(s.stack + [v], ""))
  }

  /** An operator: pops a, inspects it, pops b and pushes b op a. */
  function ApplyOperator<T>(m: Machine<T>, c: char, stack: seq<T>): (r: Result<seq<T>>)
    ensures r.Ok? ==> |stack| >= 2 && |r.value| == |stack| - 1 && r.value[..|stack| - 2] == stack[..|stack| - 2]
    ensures r.Ok? ==> m.apply(c, stack[|stack| - 2], stack[|stack| - 1]) == Ok(r.value[|stack| - 2])
    ensures |stack| < 2 && (stack == [] || m.inspect(stack[0]).Pass?) ==> r == Err(Runtime(EmptyStack))
  {
    if stack == [] then Err(Runtime(EmptyStack))
    else
      var a := stack[|stack| - 1];
      match m.inspect(a)
      case Fail(e) => Err(e)
      case Pass =>
        if |stack| < 2 then Err(Runtime(EmptyStack))
        else
          match m.apply(c, stack[|stack| - 2], a)
          case Err(e) => Err(e)
          case Ok(v) => Ok(stack[..|stack| - 2] + [v])
  }

  /**
   * A character that is not part of an operand, once the operand before it is
   * pushed: an operator is applied, anything else is skipped.
   */
  function Terminate<T>(m: Machine<T>, c: char, s: Scan<T>): Result<Scan<T>>
  {
    if m.prio(c) > 1 then
      match ApplyOperator(m, c, s.stack)
      case Err(e) => Err(e)
      case Ok(stack) => Ok(Scan(stack, ""))
    else Ok(s)
  }

  /**
   * One character: a space between tokens is skipped, a priority-0 character
   * extends the operand, anything else (a space included) ends the operand.
   */
  function Step<T>(m: Machine<T>, c: char, s: Scan<T>): Result<Scan<T>>
  {
    if c == ' ' && s.operand == [] then Ok(s)
    else if c != ' ' && m.prio(c) == 0 then Ok(Scan(s.stack, s.operand + [c]))
    else
      match Flush(m, s)
      case Err(e) => Err(e)
      case Ok(t) => Terminate(m, c, t)
  }

  function Run<T>(m: Machine<T>, text: string, s: Scan<T>): Result<Scan<T>>
    decreases |text|
  {
    if text == [] then Ok(s)
    else
      match Step(m, text[0], s)
      case Err(e) => Err(e)
      case Ok(t) => Run(m, text[1..], t)
  }

  /** The scan of the whole text, including the end of a final operand. */
  function Scanned<T>(m: Machine<T>, text: string, s: Scan<T>): Result<Scan<T>>
  {
    match Run(m, text, s)
    case Err(e) => Err(e)
    case Ok(t) => Flush(m, t)
  }

  /** The value of a postfix text: the top of the stack once it is scanned. */
  function Evaluate<T>(m: Machine<T>, text: string): Result<T>
  {
    match Scanned(m, text, Scan([], ""))
    case Err(e) => Err(e)
    case Ok(s) => if s.stack == [] then Err(Runtime(EmptyStack)) else Ok(s.stack[|s.stack| - 1])
  }

  /** The scan at a character that ends the operand: a space after one, or any character of non-zero priority. */
  lemma {:induction false} ScannedAtEnd<T>(m: Machine<T>, text: string, i: nat, s: Scan<T>)
    requires i < |text| && (text[i] == ' ' ==> s.operand != []) && (text[i] != ' ' ==> m.prio(text[i]) != 0)
    ensures Scanned(m, text[i..], s) ==
      match Flush(m, s)
      case Err(e) => Err(e)
      case Ok(t) =>
        match Terminate(m, text[i], t)
        case Err(e) => Err(e)
        case Ok(u) => Scanned(m, text[i + 1..], u)
  {
    ScannedAt(m, text, i, s);
  }

  lemma {:induction false} ScannedAt<T>(m: Machine<T>, text: string, i: nat, s: Scan<T>)
    requires i < |text|
    ensures Scanned(m, text[i..], s) ==
      match Step(m, text[i], s)
      case Err(e) => Err(e)
      case Ok(t) => Scanned(m, text[i + 1..], t)
  {
    assert text[i..][1..] == text[i + 1..];
  }

  /** A space with no operand pending is skipped. */
  lemma {:induction false} ScannedSpace<T>(m: Machine<T>, rest: string, stack: seq<T>)
    ensures Scanned(m, " " + rest, Scan(stack, "")) == Scanned(m, rest, Scan(stack, ""))
  {
    ScannedAt(m, " " + rest, 0, Scan(stack, ""));
    assert (" " + rest)[1..] == rest;
  }

  /** Scanning a, a space, b and an operator: the operator acts on what scanning b leaves. */
  lemma {:induction false} ScannedThenOperator<T>(m: Machine<T>, a: string, b: string, op: char, s0: Scan<T>, s1: Scan<T>)
    requires op != ' ' && m.prio(op) > 1 && m.prio(' ') <= 1
    requires Scanned(m, a, s0) == Ok(s1) && s1.operand == []
    ensures Scanned(m, a + " " + b + [op], s0) ==
      match Scanned(m, b, s1)
      case Err(e) => Err(e)
      case Ok(t) => Scanned(m, [op], t)
  {
    assert a + " " + b + [op] == a + (" " + (b + [op]));
    ScannedAppend(m, a, " " + (b + [op]), s0);
    ScannedSpace(m, b + [op], s1.stack);
    ScannedAppend(m, b, [op], s1);
  }

  /** A character that ends an operand and does the same whether an operand is pending or not. */
  predicate Ends<T>(m: Machine<T>, c: char)
  {
    if c == ' ' then m.prio(c) <= 1 else m.prio(c) != 0
  }

  lemma {:induction false} RunAppend<T>(m: Machine<T>, a: string, b: string, s: Scan<T>)
    ensures Run(m, a + b, s) ==
      match Run(m, a, s)
      case Err(e) => Err(e)
      case Ok(t) => Run(m, b, t)
    decreases |a|
  {
    if a == [] {
      assert a + b == b;
    } else {
      assert (a + b)[0] == a[0] && (a + b)[1..] == a[1..] + b;
      var step := Step(m, a[0], s);
      if step.Ok? {
        RunAppend(m, a[1..], b, step.value);
      }
    }
  }

  /** Before a character that ends an operand, the pending operand can be pushed first. */
  lemma {:induction false} RunFlushFirst<T>(m: Machine<T>, text: string, s: Scan<T>)
    requires text != [] && Ends(m, text[0])
    ensures Run(m, text, s) ==
      match Flush(m, s)
      case Err(e) => Err(e)
      case Ok(t) => Run(m, text, t)
  {
    var flushed := Flush(m, s);
    if flushed.Ok? {
      assert Step(m, text[0], flushed.value) == Terminate(m, text[0], flushed.value);
    }
  }

  /**
   * Scanning is compositional: a text that starts where an operand may end is
   * scanned from the state the text before it leaves.
   */
  lemma {:induction false} ScannedAppend<T>(m: Machine<T>, a: string, b: string, s: Scan<T>)
    requires b == [] || Ends(m, b[0])
    ensures Scanned(m, a + b, s) ==
      match Scanned(m, a, s)
      case Err(e) => Err(e)
      case Ok(t) => Scanned(m, b, t)
  {
    RunAppend(m, a, b, s);
    var run := Run(m, a, s);
    if run.Ok? && b != [] {
      RunFlushFirst(m, b, run.value);
    }
  }

  /** A single operand is resolved and pushed. */
  lemma {:induction false} ScannedOperand<T>(m: Machine<T>, operand: string, stack: seq<T>, pending: string)
    requires forall k :: 0 <= k < |operand| ==> operand[k] != ' ' && m.prio(operand[k]) == 0
    ensures Scanned(m, operand, Scan(stack, pending)) == Flush(m, Scan(stack, pending + operand))
    decreases |operand|
  {
    if operand == [] {
      assert pending + operand == pending;
    } else {
      assert (pending + [operand[0]]) + operand[1..] == pending + operand;
      ScannedOperand(m, operand[1..], stack, pending + [operand[0]]);
    }
  }

  lemma {:induction false} EvaluateOperand<T>(m: Machine<T>, operand: string)
    requires operand != []
    requires forall k :: 0 <= k < |operand| ==> operand[k] != ' ' && m.prio(operand[k]) == 0
    ensures Evaluate(m, operand) == m.resolve(operand)
  {
    ScannedOperand(m, operand, [], "");
    assert "" + operand == operand;
  }

  /** An operator character applies itself to the top of the stack. */
  lemma {:induction false} ScannedOperator<T>(m: Machine<T>, c: char, stack: seq<T>)
    requires c != ' ' && m.prio(c) > 1
    ensures Scanned(m, [c], Scan(stack, "")) ==
      match ApplyOperator(m, c, stack)
      case Err(e) => Err(e)
      case Ok(st) => Ok(Scan(st, ""))
  {
    ScannedAt(m, [c], 0, Scan(stack, ""));
    assert [c][1..] == [];
  }

  /**
   * A space just before an operator and one just after it do the same: the
   * pending operand is pushed and the operator applied, in either order.
   */
  lemma {:induction false} SpaceAroundOperator<T>(m: Machine<T>, op: char, s: Scan<T>)
    requires op != ' ' && m.prio(op) > 1 && m.prio(' ') <= 1
    ensures Run(m, " " + [op], s) ==
      match Flush(m, s)
      case Err(e) => Err(e)
      case Ok(t) => Terminate(m, op, t)
    ensures Run(m, [op] + " ", s) == Run(m, " " + [op], s)
  {
    assert (" " + [op])[0] == ' ' && (" " + [op])[1..] == [op];
    assert ([op] + " ")[0] == op && ([op] + " ")[1..] == " ";
    assert [op][1..] == [] && " "[1..] == [];
    var flushed := Flush(m, s);
    if flushed.Ok? {
      var t := flushed.value;
      assert Step(m, ' ', s) == flushed;
      assert Step(m, op, t) == Terminate(m, op, t);
      assert Run(m, " " + [op], s) == Run(m, [op], t);
      assert Run(m, [op], t) == Terminate(m, op, t);
    }
  }

  /** The inner loop: the characters of one operand, up to the character that ends it. */
  method ReadOperand<T>(m: Machine<T>, text: string, start: nat, ghost stack: seq<T>)
    returns (operand: string, i: nat, ghost atEnd: bool)
    requires start < |text| && text[start] != ' ' && m.prio(text[start]) == 0
    ensures start <= i < |text| && operand != []
    ensures atEnd ==> i == |text| - 1 && text[i] != ' ' && m.prio(text[i]) == 0
    ensures atEnd ==> Scanned(m, text[start..], Scan(stack, "")) == Flush(m, Scan(stack, operand))
    ensures !atEnd ==> text[i] == ' ' || m.prio(text[i]) != 0
    ensures !atEnd ==> Scanned(m, text[start..], Scan(stack, "")) == Scanned(m, text[i..], Scan(stack, operand))
  {
    operand := "";
    i := start;
    atEnd := false;
    while text[i] != ' ' && m.prio(text[i]) == 0
      invariant start <= i < |text| && (i > start ==> operand != [])
      invariant Scanned(m, text[start..], Scan(stack, "")) == Scanned(m, text[i..], Scan(stack, operand))
      decreases |text| - i
    {
      ScannedAt(m, text, i, Scan(stack, operand));
      operand := operand + [text[i]];
      i := i + 1;
      if i == |text| {
        assert text[i..] == [];
        i := i - 1;
        atEnd := true;
        break;
      }
    }
  }

  /** The two pops, the inspection of a and the push of b op a. */
  method ApplyTop<T>(m: Machine<T>, c: char, stack: seq<T>) returns (r: Result<seq<T>>)
    ensures r == ApplyOperator(m, c, stack)
  {
    var operands := stack;
    if operands == [] {
      return Err(Runtime(EmptyStack));
    }
    var a := operands[|operands| - 1];
    operands := operands[..|operands| - 1];
    var check := m.inspect(a);
    if check.Fail? {
      return Err(check.error);
    }
    if operands == [] {
      return Err(Runtime(EmptyStack));
    }
    var b := operands[|operands| - 1];
    operands := operands[..|operands| - 1];
    assert operands == stack[..|stack| - 2];
    var value := m.apply(c, b, a);
    if value.Err? {
      return Err(value.error);
    }
    return Ok(operands + [value.value]);
  }

  /**
   * expressionInReversePolishNotationToResult: spaces are skipped, an operand
   * is read and pushed, and the character that ends it is handled in the same
   * step.
   */
  method EvaluatePostfix<T>(m: Machine<T>, text: string) returns (r: Result<T>)
    ensures r == Evaluate(m, text)
  {
    var stack: seq<T> := [];
    var i := 0;
    while i < |text|
      invariant 0 <= i <= |text|
      invariant Scanned(m, text, Scan([], "")) == Scanned(m, text[i..], Scan(stack, ""))
    {
      if text[i] == ' ' {
        ScannedAt(m, text, i, Scan(stack, ""));
        i := i + 1;
        continue;
      }
      ghost var atEnd := false;
      if m.prio(text[i]) == 0 {
        var operand;
        operand, i, atEnd := ReadOperand(m, text, i, stack);
        if !atEnd {
          ScannedAtEnd(m, text, i, Scan(stack, operand));
        }
        match m.resolve(operand) {
          case Err(e) =>
            return Err(e);
          case Ok(v) =>
            stack := stack + [v];
        }
      } else {
        ScannedAtEnd(m, text, i, Scan(stack, ""));
      }
      if !atEnd {
        assert Scanned(m, text, Scan([], "")) ==
          match Terminate(m, text[i], Scan(stack, ""))
          case Err(e) => Err(e)
          case Ok(t) => Scanned(m, text[i + 1..], t);
      }
      if m.prio(text[i]) > 1 {
        var next := ApplyTop(m, text[i], stack);
        if next.Err? {
          return Err(next.error);
        }
        stack := next.value;
      }
      i := i + 1;
    }
    if stack == [] {
      return Err(Runtime(EmptyStack));
    }
    return Ok(stack[|stack| - 1]);
  }
}
