// Unbracketed text through the shunting-yard conversion and the postfix
// evaluation: an operator waits on the stack until an operator of no higher
// priority arrives, so '*' and '/' bind tighter than '+' and '-', and
// operators of one priority are applied from the left. The value of two or
// three operands joined by operators is the value of the term grouped that
// way, the same term the recursive-descent evaluator reads.

module MathTexts {
  import opened Errors
  import opened Text
  import Converter
  import Postfix
  import MathParsing
  import opened Terms
  import opened ArithTexts

  /** The text of two operands joined by one operator. */
  function PairText(x: Term, op: char, y: Term): string
  {
    Print(x) + [op] + Print(y)
  }

  /** The text of three operands joined by two operators. */
  function ChainText(x: Term, o1: char, y: Term, o2: char, z: Term): string
  {
    Print(x) + [o1] + Print(y) + [o2] + Print(z)
  }

  // ------------------------------------------------------------ preparation

  /** The text starts with an operand and has no "--", so the unary rewrite leaves it as it is. */
  lemma {:induction false} PairPrepared(x: Term, op: char, y: Term)
    requires IsOperator(op)
    ensures PairText(x, op, y) != [] && Converter.Prepared(PairText(x, op, y)) == PairText(x, op, y)
    ensures !Contains(PairText(x, op, y), "--")
  {
    var a := Print(x) + [op];
    PrintStart(x);
    PrintStart(y);
    PrintEnd(x);
    PrintNoDoubleMinus(x);
    PrintNoDoubleMinus(y);
    OneCharNoDoubleMinus(op);
    Converter.NoDoubleMinusAppend(Print(x), [op]);
    Converter.NoDoubleMinusAppend(a, Print(y));
    assert PairText(x, op, y) == a + Print(y);
    assert PairText(x, op, y)[0] == Print(x)[0];
  }

  /** PairPrepared for three operands. */
  lemma {:induction false} ChainPrepared(x: Term, o1: char, y: Term, o2: char, z: Term)
    requires IsOperator(o1) && IsOperator(o2)
    ensures ChainText(x, o1, y, o2, z) != [] && Converter.Prepared(ChainText(x, o1, y, o2, z)) == ChainText(x, o1, y, o2, z)
  {
    var p := PairText(x, o1, y);
    PairPrepared(x, o1, y);
    PrintEnd(y);
    PrintStart(z);
    PrintNoDoubleMinus(z);
    OneCharNoDoubleMinus(o2);
    assert p[|p| - 1] == Print(y)[|Print(y)| - 1];
    Converter.NoDoubleMinusAppend(p, [o2]);
    Converter.NoDoubleMinusAppend(p + [o2], Print(z));
    assert ChainText(x, o1, y, o2, z) == p + [o2] + Print(z);
    assert ChainText(x, o1, y, o2, z)[0] == p[0];
  }

  // ------------------------------------------------------------ conversion

  /** An operator with nothing below it on the stack: a space is written and the operator is pushed. */
  lemma {:induction false} FirstOperator(op: char, out: string)
    requires IsOperator(op)
    ensures Converter.Run(MathParsing.MathPriority, [op], Converter.State(out, [])) ==
      Ok(Converter.State(out + " ", [op]))
  {
    var prio := MathParsing.MathPriority;
    assert prio(op) > 1;
    assert Converter.PopOperators(prio, prio(op), Converter.State(out + " ", [])) == Converter.State(out + " ", []);
    assert Converter.Step(prio, op, Converter.State(out, [])) == Ok(Converter.State(out + " ", [] + [op]));
    assert [] + [op] == [op];
    assert [op][1..] == [];
  }

  /**
   * A second operator: the first one is popped to the output when its
   * priority is at least the second one's, otherwise both stay stacked.
   */
  lemma {:induction false} SecondOperator(o1: char, o2: char, out: string)
    requires IsOperator(o1) && IsOperator(o2)
    ensures Converter.Run(MathParsing.MathPriority, [o2], Converter.State(out, [o1])) ==
      if IsAdditive(o1) && IsMultiplicative(o2) then Ok(Converter.State(out + " ", [o1, o2]))
      else Ok(Converter.State(out + " " + [o1], [o2]))
  {
    var prio := MathParsing.MathPriority;
    assert [o2][1..] == [];
    var popped := Converter.PopOperators(prio, prio(o2), Converter.State(out + " ", [o1]));
    if IsAdditive(o1) && IsMultiplicative(o2) {
      assert popped == Converter.State(out + " ", [o1]);
      assert [o1] + [o2] == [o1, o2];
    } else {
      assert prio(o1) >= prio(o2);
      assert [o1][..0] == [] && [o1][0] == o1;
      assert Converter.PopOperators(prio, prio(o2), Converter.State(out + " " + [o1], [])) == Converter.State(out + " " + [o1], []);
      assert popped == Converter.State(out + " " + [o1], []);
      assert [] + [o2] == [o2];
    }
  }

  /** The scan over two operands, before the stack is emptied: the operator is still stacked. */
  lemma {:induction false} RunOfPair(x: Term, op: char, y: Term)
    requires WellFormed(x) && WellFormed(y) && IsOperator(op)
    ensures Converter.Run(MathParsing.MathPriority, PairText(x, op, y), Converter.State("", [])) ==
      Ok(Converter.State(Post(x) + " " + Post(y), [op]))
  {
    var prio := MathParsing.MathPriority;
    var px := "" + Post(x);
    var s0 := Converter.State("", []);
    var s1 := Converter.State(px, []);
    var s2 := Converter.State(px + " ", [op]);
    var s3 := Converter.State(px + " " + Post(y), [op]);
    RunOfPrint(x, "", []);
    FirstOperator(op, px);
    RunOfPrint(y, px + " ", [op]);
    Converter.RunChain(prio, Print(x), [op], Print(y), [], [], s0, s1, s2, s3, s3, s3);
    assert Print(x) + [op] + Print(y) + [] + [] == PairText(x, op, y);
    assert px == Post(x);
  }

  /** The converter's output for two operands: the postfix text of the operation. */
  lemma {:induction false} ConvertPair(x: Term, op: char, y: Term)
    requires WellFormed(x) && WellFormed(y) && IsOperator(op)
    ensures Converter.ToReversePolish(MathParsing.MathPriority, PairText(x, op, y)) == Ok(Post(Bin(op, x, y)))
  {
    PairPrepared(x, op, y);
    RunOfPair(x, op, y);
    var out := Post(x) + " " + Post(y);
    assert Converter.FlushStack(Converter.State(out, [op])) == out + [op] by {
      assert [op][..0] == [];
    }
  }

  /**
   * The converter's output for three operands: the postfix text of the
   * grouped term when the second operator binds tighter, and otherwise the
   * first operation's postfix text with no space after its operator.
   */
  function ChainPostfix(x: Term, o1: char, y: Term, o2: char, z: Term): string
  {
    if IsAdditive(o1) && IsMultiplicative(o2) then Post(x) + " " + Post(y) + " " + Post(z) + [o2] + [o1]
    else Post(x) + " " + Post(y) + " " + [o1] + Post(z) + [o2]
  }

  /** The operator stack once the scan over three operands is done. */
  function ChainStack(o1: char, o2: char): seq<char>
  {
    if IsAdditive(o1) && IsMultiplicative(o2) then [o1, o2] else [o2]
  }

  /** The output once the scan over three operands is done, before the stack is emptied. */
  function ChainOutput(x: Term, o1: char, y: Term, o2: char, z: Term): string
  {
    if IsAdditive(o1) && IsMultiplicative(o2) then Post(x) + " " + Post(y) + " " + Post(z)
    else Post(x) + " " + Post(y) + " " + [o1] + Post(z)
  }

  /** The scan over three operands, before the stack is emptied. */
  lemma {:induction false} RunOfChain(x: Term, o1: char, y: Term, o2: char, z: Term)
    requires WellFormed(x) && WellFormed(y) && WellFormed(z) && IsOperator(o1) && IsOperator(o2)
    ensures Converter.Run(MathParsing.MathPriority, ChainText(x, o1, y, o2, z), Converter.State("", [])) ==
      Ok(Converter.State(ChainOutput(x, o1, y, o2, z), ChainStack(o1, o2)))
  {
    var prio := MathParsing.MathPriority;
    var px := "" + Post(x);
    var pxy := px + " " + Post(y);
    var s0 := Converter.State("", []);
    var s1 := Converter.State(px, []);
    var s2 := Converter.State(px + " ", [o1]);
    var s3 := Converter.State(pxy, [o1]);
    RunOfPrint(x, "", []);
    FirstOperator(o1, px);
    RunOfPrint(y, px + " ", [o1]);
    SecondOperator(o1, o2, pxy);
    var o4 := if IsAdditive(o1) && IsMultiplicative(o2) then pxy + " " else pxy + " " + [o1];
    var s4 := Converter.State(o4, ChainStack(o1, o2));
    RunOfPrint(z, o4, ChainStack(o1, o2));
    var s5 := Converter.State(o4 + Post(z), ChainStack(o1, o2));
    Converter.RunChain(prio, Print(x), [o1], Print(y), [o2], Print(z), s0, s1, s2, s3, s4, s5);
    assert o4 + Post(z) == ChainOutput(x, o1, y, o2, z) by {
      assert px == Post(x);
    }
  }

  /** The converter's output for three operands. */
  lemma {:induction false} ConvertChain(x: Term, o1: char, y: Term, o2: char, z: Term)
    requires WellFormed(x) && WellFormed(y) && WellFormed(z) && IsOperator(o1) && IsOperator(o2)
    ensures Converter.ToReversePolish(MathParsing.MathPriority, ChainText(x, o1, y, o2, z)) ==
      Ok(ChainPostfix(x, o1, y, o2, z))
  {
    ChainPrepared(x, o1, y, o2, z);
    RunOfChain(x, o1, y, o2, z);
    var out := ChainOutput(x, o1, y, o2, z);
    if IsAdditive(o1) && IsMultiplicative(o2) {
      assert Converter.FlushStack(Converter.State(out, [o1, o2])) == out + [o2] + [o1] by {
        assert [o1, o2][..1] == [o1] && [o1][..0] == [];
        assert Converter.FlushStack(Converter.State(out + [o2] + [o1], [])) == out + [o2] + [o1];
        assert Converter.FlushStack(Converter.State(out + [o2], [o1])) == out + [o2] + [o1];
      }
    } else {
      assert Converter.FlushStack(Converter.State(out, [o2])) == out + [o2] by {
        assert [o2][..0] == [];
      }
    }
  }

  // ------------------------------------------------------------ evaluation

  /** Text whose last character is an operator leaves no operand pending, so what follows is scanned from the state it leaves. */
  lemma {:induction false} ScannedAfterOperator(lib: MathParsing.MathLib, fns: MathParsing.ClientFunctions, a: string, b: string,
                                                s: Postfix.Scan<real>)
    requires a != [] && IsOperator(a[|a| - 1])
    ensures Postfix.Scanned(MathParsing.MathMachine(lib, fns), a + b, s) ==
      match Postfix.Scanned(MathParsing.MathMachine(lib, fns), a, s)
      case Err(e) => Err(e)
      case Ok(u) => Postfix.Scanned(MathParsing.MathMachine(lib, fns), b, u)
  {
    var m := MathParsing.MathMachine(lib, fns);
    var op := a[|a| - 1];
    var front := a[..|a| - 1];
    assert a == front + [op];
    Postfix.RunAppend(m, front, [op], s);
    Postfix.RunAppend(m, a, b, s);
    var r := Postfix.Run(m, front, s);
    if r.Ok? {
      assert [op][1..] == [];
      var run := Postfix.Run(m, a, s);
      assert run.Ok? ==> run.value.operand == [];
    }
  }

  /** The postfix text of an operand followed by a space pushes the operand's value. */
  lemma {:induction false} ScannedThenSpace(lib: MathParsing.MathLib, fns: MathParsing.ClientFunctions, t: Term, stack: seq<real>)
    requires WellFormed(t)
    ensures Postfix.Scanned(MathParsing.MathMachine(lib, fns), Post(t) + " ", Postfix.Scan(stack, "")) == Pushed(stack, Eval(t))
  {
    var m := MathParsing.MathMachine(lib, fns);
    ScannedOfPost(lib, fns, t, stack);
    Postfix.ScannedAppend(m, Post(t), " ", Postfix.Scan(stack, ""));
    if Eval(t).Ok? {
      Postfix.ScannedSpace(m, [], stack + [Eval(t).value]);
      assert " " + [] == " ";
    }
  }

  /** The first operation's postfix text, with a space before its operator, pushes its value. */
  lemma {:induction false} ScannedFirstOperation(lib: MathParsing.MathLib, fns: MathParsing.ClientFunctions,
                                                 x: Term, o1: char, y: Term)
    requires WellFormed(x) && WellFormed(y) && IsOperator(o1)
    ensures WellFormed(Bin(o1, x, y))
    ensures Postfix.Scanned(MathParsing.MathMachine(lib, fns), Post(x) + " " + (Post(y) + " ") + [o1], Postfix.Scan([], "")) ==
      Pushed([], Eval(Bin(o1, x, y)))
  {
    ScannedOfPost(lib, fns, x, []);
    if Eval(x).Ok? {
      ScannedThenSpace(lib, fns, y, [] + [Eval(x).value]);
    }
    ScannedBinary(lib, fns, Post(x), Post(y) + " ", o1, [], Eval(x), Eval(y));
  }

  /** The last operand and the operator after it, over one pushed value: the operator's value replaces it. */
  lemma {:induction false} ScannedLastOperation(lib: MathParsing.MathLib, fns: MathParsing.ClientFunctions, v: real, o2: char, z: Term)
    requires WellFormed(z) && IsOperator(o2)
    ensures Postfix.Scanned(MathParsing.MathMachine(lib, fns), Post(z) + [o2], Postfix.Scan([v], "")) ==
      Pushed([], Combine(o2, Ok(v), Eval(z)))
  {
    var m := MathParsing.MathMachine(lib, fns);
    ScannedOfPost(lib, fns, z, [v]);
    Postfix.ScannedAppend(m, Post(z), [o2], Postfix.Scan([v], ""));
    if Eval(z).Ok? {
      ScannedApplied(lib, fns, o2, [], v, Eval(z).value);
      assert [] + [v] + [Eval(z).value] == [v] + [Eval(z).value];
    }
  }

  /** The converter's output for a chain whose first operator was popped: the first operation's value, then the second. */
  lemma {:induction false} ScannedPopped(lib: MathParsing.MathLib, fns: MathParsing.ClientFunctions,
                                         x: Term, o1: char, y: Term, o2: char, z: Term)
    requires WellFormed(x) && WellFormed(y) && WellFormed(z) && IsOperator(o1) && IsOperator(o2)
    ensures Postfix.Scanned(MathParsing.MathMachine(lib, fns), Post(x) + " " + Post(y) + " " + [o1] + Post(z) + [o2],
                            Postfix.Scan([], "")) == Pushed([], Eval(Bin(o2, Bin(o1, x, y), z)))
  {
    var a := Post(x) + " " + (Post(y) + " ") + [o1];
    var b := Post(z) + [o2];
    var first := Eval(Bin(o1, x, y));
    ScannedFirstOperation(lib, fns, x, o1, y);
    ScannedAfterOperator(lib, fns, a, b, Postfix.Scan([], ""));
    if first.Ok? {
      assert [] + [first.value] == [first.value];
      ScannedLastOperation(lib, fns, first.value, o2, z);
    }
    Regrouped(Post(x), Post(y), o1, Post(z), o2);
  }

  /** The popped chain's postfix text, cut after its first operator. */
  lemma {:induction false} Regrouped(px: string, py: string, o1: char, pz: string, o2: char)
    ensures px + " " + (py + " ") + [o1] + (pz + [o2]) == px + " " + py + " " + [o1] + pz + [o2]
  {
  }

  /** expressionInReversePolishNotationToResult of a postfix text that pushes a value or stops at an error. */
  lemma {:induction false} EvaluatePushed(lib: MathParsing.MathLib, fns: MathParsing.ClientFunctions, text: string, v: Result<real>)
    requires Postfix.Scanned(MathParsing.MathMachine(lib, fns), text, Postfix.Scan([], "")) == Pushed([], v)
    ensures Postfix.Evaluate(MathParsing.MathMachine(lib, fns), text) == v
  {
    if v.Ok? {
      assert [] + [v.value] == [v.value];
    }
  }

  /** Two operands and one operator: the conversion and the evaluation give the operation's value or its error. */
  lemma {:induction false} PairValue(lib: MathParsing.MathLib, fns: MathParsing.ClientFunctions, x: Term, op: char, y: Term)
    requires WellFormed(x) && WellFormed(y) && IsOperator(op)
    ensures WellFormed(Bin(op, x, y))
    ensures MathParsing.ExpressionValue(lib, fns, Print(x) + [op] + Print(y)) == Eval(Bin(op, x, y))
  {
    ConvertPair(x, op, y);
    ScannedOfPost(lib, fns, Bin(op, x, y), []);
    EvaluatePushed(lib, fns, Post(Bin(op, x, y)), Eval(Bin(op, x, y)));
  }

  /** ChainValue when the second operator binds tighter: the converter writes the grouped term's postfix text. */
  lemma {:induction false} ChainTighter(lib: MathParsing.MathLib, fns: MathParsing.ClientFunctions,
                                        x: Term, o1: char, y: Term, o2: char, z: Term)
    requires WellFormed(x) && WellFormed(y) && WellFormed(z) && IsAdditive(o1) && IsMultiplicative(o2)
    ensures WellFormed(Bin(o1, x, Bin(o2, y, z)))
    ensures MathParsing.ExpressionValue(lib, fns, ChainText(x, o1, y, o2, z)) == Eval(Bin(o1, x, Bin(o2, y, z)))
  {
    var g := Bin(o1, x, Bin(o2, y, z));
    ConvertChain(x, o1, y, o2, z);
    assert Post(g) == Post(x) + " " + (Post(y) + " " + Post(z) + [o2]) + [o1];
    TighterRegrouped(Post(x), Post(y), o1, Post(z), o2);
    ScannedOfPost(lib, fns, g, []);
    EvaluatePushed(lib, fns, Post(g), Eval(g));
  }

  /** The grouped term's postfix text, with the inner operation's brackets dropped. */
  lemma {:induction false} TighterRegrouped(px: string, py: string, o1: char, pz: string, o2: char)
    ensures px + " " + (py + " " + pz + [o2]) + [o1] == px + " " + py + " " + pz + [o2] + [o1]
  {
  }

  /** ChainValue when the first operator binds at least as tightly: it is applied before the second operand is read. */
  lemma {:induction false} ChainPopped(lib: MathParsing.MathLib, fns: MathParsing.ClientFunctions,
                                       x: Term, o1: char, y: Term, o2: char, z: Term)
    requires WellFormed(x) && WellFormed(y) && WellFormed(z) && IsOperator(o1) && IsOperator(o2)
    requires !(IsAdditive(o1) && IsMultiplicative(o2))
    ensures WellFormed(Bin(o2, Bin(o1, x, y), z))
    ensures MathParsing.ExpressionValue(lib, fns, ChainText(x, o1, y, o2, z)) == Eval(Bin(o2, Bin(o1, x, y), z))
  {
    var q := ChainPostfix(x, o1, y, o2, z);
    ConvertChain(x, o1, y, o2, z);
    ScannedPopped(lib, fns, x, o1, y, o2, z);
    EvaluatePushed(lib, fns, q, Eval(Bin(o2, Bin(o1, x, y), z)));
  }

  /**
   * Three operands and two operators: '*' and '/' bind tighter than '+' and
   * '-', and operators of one priority group from the left.
   */
  lemma {:induction false} ChainValue(lib: MathParsing.MathLib, fns: MathParsing.ClientFunctions,
                                      x: Term, o1: char, y: Term, o2: char, z: Term)
    requires WellFormed(x) && WellFormed(y) && WellFormed(z) && IsOperator(o1) && IsOperator(o2)
    ensures WellFormed(Grouped(x, o1, y, o2, z))
    ensures MathParsing.ExpressionValue(lib, fns, Print(x) + [o1] + Print(y) + [o2] + Print(z)) == Eval(Grouped(x, o1, y, o2, z))
  {
    if IsAdditive(o1) && IsMultiplicative(o2) {
      ChainTighter(lib, fns, x, o1, y, o2, z);
    } else {
      ChainPopped(lib, fns, x, o1, y, o2, z);
    }
  }
}
