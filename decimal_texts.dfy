// Texts of decimal numbers joined by operators, as the BigDecimal parser
// evaluates them: the operators group by getTokenPriority ('*' and '/' before
// '+' and '-', otherwise left to right), each operation is the exact decimal
// one, and the text an operation leaves on the stack is read back by the next
// one without loss, because new BigDecimal(toString()) gives back the value.

module DecimalTexts {
  import opened Errors
  import opened Text
  import opened Numbers
  import Converter
  import Postfix
  import MathParsing
  import opened DecimalMathParser

  /** An operand as a bound value is written: digits and points, at least one character. */
  predicate DecimalOperand(a: string)
  {
    a != [] && DecimalCharacters(a)
  }

  predicate IsOperator(c: char)
  {
    c == '+' || c == '-' || c == '*' || c == '/'
  }

  /** The characters of an operand are all of priority 0, neither spaces nor minus signs, and it does not start with a letter. */
  lemma {:induction false} OperandChars(a: string)
    requires DecimalOperand(a)
    ensures forall k :: 0 <= k < |a| ==> a[k] != ' ' && a[k] != '-' && MathParsing.MathPriority(a[k]) == 0
    ensures !IsLetter(a[0]) && a[|a| - 1] != '-'
  {
  }

  // ------------------------------------------------------------ conversion

  /** Appending an operator and an operand to a text without "--" that does not end in '-' keeps both facts. */
  lemma {:induction false} NoDoubleMinusJoined(s: string, op: char, b: string)
    requires s != [] && s[|s| - 1] != '-' && !Contains(s, "--")
    requires DecimalOperand(b)
    ensures s + [op] + b != [] && (s + [op] + b)[|s + [op] + b| - 1] != '-' && !Contains(s + [op] + b, "--")
  {
    OperandChars(b);
    assert [op][1..] == [];
    Converter.NoDoubleMinusAppend(s, [op]);
    Converter.NoMinusNoDoubleMinus(b);
    Converter.NoDoubleMinusAppend(s + [op], b);
  }

  lemma {:induction false} PreparedPair(a: string, op: char, b: string)
    requires DecimalOperand(a) && DecimalOperand(b)
    ensures Converter.Prepared(a + [op] + b) == a + [op] + b
    ensures !Contains(a + [op] + b, "--") && (a + [op] + b)[|a + [op] + b| - 1] != '-'
  {
    OperandChars(a);
    Converter.NoMinusNoDoubleMinus(a);
    NoDoubleMinusJoined(a, op, b);
  }

  lemma {:induction false} PreparedChain(a: string, o1: char, b: string, o2: char, c: string)
    requires DecimalOperand(a) && DecimalOperand(b) && DecimalOperand(c)
    ensures Converter.Prepared(a + [o1] + b + [o2] + c) == a + [o1] + b + [o2] + c
  {
    PreparedPair(a, o1, b);
    NoDoubleMinusJoined(a + [o1] + b, o2, c);
  }

  /** Three scans in a row are one scan of the joined text. */
  lemma {:induction false} RunThree(x: string, y: string, z: string, s0: Converter.State, s1: Converter.State, s2: Converter.State, s3: Converter.State)
    requires Converter.Run(MathParsing.MathPriority, x, s0) == Ok(s1)
    requires Converter.Run(MathParsing.MathPriority, y, s1) == Ok(s2)
    requires Converter.Run(MathParsing.MathPriority, z, s2) == Ok(s3)
    ensures Converter.Run(MathParsing.MathPriority, x + y + z, s0) == Ok(s3)
  {
    Converter.RunAppend(MathParsing.MathPriority, x, y, s0);
    Converter.RunAppend(MathParsing.MathPriority, x + y, z, s0);
  }

  /** An operator over a stack whose top has a lower priority is pushed after a space. */
  lemma {:induction false} ConvertPush(op: char, out: string, stack: seq<char>)
    requires IsOperator(op)
    requires stack == [] || MathParsing.MathPriority(stack[|stack| - 1]) < MathParsing.MathPriority(op)
    ensures Converter.Run(MathParsing.MathPriority, [op], Converter.State(out, stack)) ==
      Ok(Converter.State(out + " ", stack + [op]))
  {
    assert [op][1..] == [];
  }

  /** An operator over a single operator of at least its priority pops it after the space. */
  lemma {:induction false} ConvertPopOne(op: char, out: string, top: char)
    requires IsOperator(op) && MathParsing.MathPriority(top) >= MathParsing.MathPriority(op)
    ensures Converter.Run(MathParsing.MathPriority, [op], Converter.State(out, [top])) ==
      Ok(Converter.State(out + " " + [top], [op]))
  {
    assert [op][1..] == [];
    assert [top][..0] == [];
    assert Converter.PopOperators(MathParsing.MathPriority, MathParsing.MathPriority(op), Converter.State(out + " ", [top])) ==
      Converter.State(out + " " + [top], []);
    assert [] + [op] == [op];
  }

  /** An operand's characters are copied to the output. */
  lemma {:induction false} ConvertOperand(a: string, out: string, stack: seq<char>)
    requires DecimalOperand(a)
    ensures Converter.Run(MathParsing.MathPriority, a, Converter.State(out, stack)) == Ok(Converter.State(out + a, stack))
  {
    OperandChars(a);
    Converter.RunOperandChars(MathParsing.MathPriority, a, Converter.State(out, stack));
  }

  /** The scan of a op b, up to the final pop. */
  lemma {:induction false} RunPair(a: string, op: char, b: string)
    requires DecimalOperand(a) && DecimalOperand(b) && IsOperator(op)
    ensures Converter.Run(MathParsing.MathPriority, a + [op] + b, Converter.State("", [])) ==
      Ok(Converter.State(a + " " + b, [op]))
  {
    ConvertOperand(a, "", []);
    assert "" + a == a;
    ConvertPush(op, a, []);
    assert [] + [op] == [op];
    ConvertOperand(b, a + " ", [op]);
    RunThree(a, [op], b, Converter.State("", []), Converter.State(a, []), Converter.State(a + " ", [op]),
      Converter.State(a + " " + b, [op]));
  }

  lemma {:induction false} FlushPending(out: string, below: char, top: char)
    ensures Converter.FlushStack(Converter.State(out, [top])) == out + [top]
    ensures Converter.FlushStack(Converter.State(out, [below, top])) == out + [top] + [below]
  {
    assert [top][..0] == [];
    assert [below, top][..1] == [below];
    assert [below][..0] == [];
    assert Converter.FlushStack(Converter.State(out, [below, top])) ==
      Converter.FlushStack(Converter.State(out + [top], [below]));
  }

  /** a op b converts to both operands and then the operator. */
  lemma {:induction false} PairConverts(a: string, op: char, b: string)
    requires DecimalOperand(a) && DecimalOperand(b) && IsOperator(op)
    ensures Converter.ToReversePolish(MathParsing.MathPriority, a + [op] + b) == Ok(a + " " + b + [op])
  {
    PreparedPair(a, op, b);
    RunPair(a, op, b);
    FlushPending(a + " " + b, op, op);
  }

  /** a o1 b o2 c with o1 of at least o2's priority: o1 is written as soon as o2 is read. */
  lemma {:induction false} LeftChainConverts(a: string, o1: char, b: string, o2: char, c: string)
    requires DecimalOperand(a) && DecimalOperand(b) && DecimalOperand(c) && IsOperator(o1) && IsOperator(o2)
    requires MathParsing.MathPriority(o1) >= MathParsing.MathPriority(o2)
    ensures Converter.ToReversePolish(MathParsing.MathPriority, a + [o1] + b + [o2] + c) ==
      Ok(a + " " + b + " " + [o1] + c + [o2])
  {
    var out := a + " " + b;
    var out' := out + " " + [o1];
    PreparedChain(a, o1, b, o2, c);
    RunPair(a, o1, b);
    ConvertPopOne(o2, out, o1);
    ConvertOperand(c, out', [o2]);
    RunThree(a + [o1] + b, [o2], c, Converter.State("", []), Converter.State(out, [o1]),
      Converter.State(out', [o2]), Converter.State(out' + c, [o2]));
    FlushPending(out' + c, o2, o2);
  }

  /** a o1 b o2 c with o2 of higher priority: o2 waits on top of o1 and both are written at the end. */
  lemma {:induction false} RightChainConverts(a: string, o1: char, b: string, o2: char, c: string)
    requires DecimalOperand(a) && DecimalOperand(b) && DecimalOperand(c) && IsOperator(o1) && IsOperator(o2)
    requires MathParsing.MathPriority(o1) < MathParsing.MathPriority(o2)
    ensures Converter.ToReversePolish(MathParsing.MathPriority, a + [o1] + b + [o2] + c) ==
      Ok(a + " " + b + " " + c + [o2] + [o1])
  {
    var out := a + " " + b;
    PreparedChain(a, o1, b, o2, c);
    RunPair(a, o1, b);
    ConvertPush(o2, out, [o1]);
    assert [o1] + [o2] == [o1, o2];
    ConvertOperand(c, out + " ", [o1, o2]);
    RunThree(a + [o1] + b, [o2], c, Converter.State("", []), Converter.State(out, [o1]),
      Converter.State(out + " ", [o1, o2]), Converter.State(out + " " + c, [o1, o2]));
    FlushPending(out + " " + c, o1, o2);
  }

  // ------------------------------------------------------------ evaluation

  /** A text the scan reads as one operand whose value is v. */
  ghost predicate PlainOperand<T>(m: Postfix.Machine<T>, a: string, v: T)
  {
    a != [] && (forall k :: 0 <= k < |a| ==> a[k] != ' ' && m.prio(a[k]) == 0) && m.resolve(a) == Ok(v)
  }

  /** A machine whose operators are the four arithmetic signs and which skips spaces between tokens. */
  ghost predicate ArithmeticMachine<T>(m: Postfix.Machine<T>)
  {
    m.prio(' ') <= 1 && forall c :: IsOperator(c) ==> m.prio(c) > 1
  }

  lemma {:induction false} PushOperand<T>(m: Postfix.Machine<T>, a: string, v: T, stack: seq<T>)
    requires PlainOperand(m, a, v)
    ensures Postfix.Scanned(m, a, Postfix.Scan(stack, "")) == Ok(Postfix.Scan(stack + [v], ""))
  {
    Postfix.ScannedOperand(m, a, stack, "");
    assert "" + a == a;
  }

  /** A space after a scan that ends with no operand pending is skipped. */
  lemma {:induction false} SpaceJoin<T>(m: Postfix.Machine<T>, x: string, y: string, s0: Postfix.Scan<T>, s1: Postfix.Scan<T>)
    requires m.prio(' ') <= 1
    requires Postfix.Scanned(m, x, s0) == Ok(s1) && s1.operand == []
    ensures Postfix.Scanned(m, x + " " + y, s0) == Postfix.Scanned(m, y, s1)
  {
    assert x + " " + y == x + (" " + y);
    Postfix.ScannedAppend(m, x, " " + y, s0);
    Postfix.ScannedSpace(m, y, s1.stack);
  }

  /** Two operands separated by a space are pushed in turn. */
  lemma {:induction false} PushTwo<T>(m: Postfix.Machine<T>, a: string, va: T, b: string, vb: T, stack: seq<T>)
    requires m.prio(' ') <= 1 && PlainOperand(m, a, va) && PlainOperand(m, b, vb)
    ensures Postfix.Scanned(m, a + " " + b, Postfix.Scan(stack, "")) == Ok(Postfix.Scan(stack + [va, vb], ""))
  {
    PushOperand(m, a, va, stack);
    SpaceJoin(m, a, b, Postfix.Scan(stack, ""), Postfix.Scan(stack + [va], ""));
    PushOperand(m, b, vb, stack + [va]);
    assert stack + [va] + [vb] == stack + [va, vb];
  }

  /** An operator, then what follows it, from a scan with no operand pending. */
  lemma {:induction false} OperatorThen<T>(m: Postfix.Machine<T>, op: char, y: string, stack: seq<T>)
    requires op != ' ' && m.prio(op) > 1
    ensures Postfix.Scanned(m, [op] + y, Postfix.Scan(stack, "")) ==
      match Postfix.ApplyOperator(m, op, stack)
      case Err(e) => Err(e)
      case Ok(st) => Postfix.Scanned(m, y, Postfix.Scan(st, ""))
  {
    Postfix.ScannedAt(m, [op] + y, 0, Postfix.Scan(stack, ""));
    assert ([op] + y)[0..] == [op] + y && ([op] + y)[1..] == y;
  }

  /** The value of a scan that leaves a single value. */
  function Top<T>(r: Result<seq<T>>): Result<T>
  {
    match r
    case Err(e) => Err(e)
    case Ok(st) => if st == [] then Err(Runtime(EmptyStack)) else Ok(st[|st| - 1])
  }

  lemma {:induction false} EvaluateOfStack<T>(m: Postfix.Machine<T>, text: string, r: Result<seq<T>>)
    requires Postfix.Scanned(m, text, Postfix.Scan([], "")) ==
      (match r case Err(e) => Err(e) case Ok(st) => Ok(Postfix.Scan(st, "")))
    ensures Postfix.Evaluate(m, text) == Top(r)
  {
  }

  /** The postfix text a b op: the operator on the two values. */
  lemma {:induction false} PairScan<T>(m: Postfix.Machine<T>, a: string, va: T, b: string, vb: T, op: char)
    requires ArithmeticMachine(m) && IsOperator(op) && PlainOperand(m, a, va) && PlainOperand(m, b, vb)
    ensures Postfix.Evaluate(m, a + " " + b + [op]) == Top(Postfix.ApplyOperator(m, op, [va, vb]))
  {
    PushTwo(m, a, va, b, vb, []);
    assert [] + [va, vb] == [va, vb];
    Postfix.ScannedAppend(m, a + " " + b, [op], Postfix.Scan([], ""));
    Postfix.ScannedOperator(m, op, [va, vb]);
    EvaluateOfStack(m, a + " " + b + [op], Postfix.ApplyOperator(m, op, [va, vb]));
  }

  /** The second operator of a left chain: c is pushed onto what the first left, then o2 applies. */
  function ThenApply<T>(m: Postfix.Machine<T>, r: Result<seq<T>>, vc: T, o2: char): Result<seq<T>>
  {
    match r
    case Err(e) => Err(e)
    case Ok(st) => Postfix.ApplyOperator(m, o2, st + [vc])
  }

  /** The postfix text a b o1 c o2 (with the space the converter writes before o1). */
  lemma {:induction false} LeftScan<T>(m: Postfix.Machine<T>, a: string, va: T, b: string, vb: T, c: string, vc: T, o1: char, o2: char)
    requires ArithmeticMachine(m) && IsOperator(o1) && IsOperator(o2)
    requires PlainOperand(m, a, va) && PlainOperand(m, b, vb) && PlainOperand(m, c, vc)
    ensures Postfix.Evaluate(m, a + " " + b + " " + [o1] + c + [o2]) ==
      Top(ThenApply(m, Postfix.ApplyOperator(m, o1, [va, vb]), vc, o2))
  {
    var text := a + " " + b + " " + [o1] + c + [o2];
    var first := Postfix.ApplyOperator(m, o1, [va, vb]);
    assert text == (a + " " + b) + " " + ([o1] + c + [o2]);
    PushTwo(m, a, va, b, vb, []);
    assert [] + [va, vb] == [va, vb];
    SpaceJoin(m, a + " " + b, [o1] + c + [o2], Postfix.Scan([], ""), Postfix.Scan([va, vb], ""));
    assert [o1] + c + [o2] == [o1] + (c + [o2]);
    OperatorThen(m, o1, c + [o2], [va, vb]);
    if first.Ok? {
      PushOperand(m, c, vc, first.value);
      Postfix.ScannedAppend(m, c, [o2], Postfix.Scan(first.value, ""));
      Postfix.ScannedOperator(m, o2, first.value + [vc]);
    }
    EvaluateOfStack(m, text, ThenApply(m, first, vc, o2));
  }

  /** The postfix text a b c o2 o1 (o2 waited on top of o1). */
  lemma {:induction false} RightScan<T>(m: Postfix.Machine<T>, a: string, va: T, b: string, vb: T, c: string, vc: T, o1: char, o2: char)
    requires ArithmeticMachine(m) && IsOperator(o1) && IsOperator(o2)
    requires PlainOperand(m, a, va) && PlainOperand(m, b, vb) && PlainOperand(m, c, vc)
    ensures Postfix.Evaluate(m, a + " " + b + " " + c + [o2] + [o1]) ==
      Top(match Postfix.ApplyOperator(m, o2, [va, vb, vc])
          case Err(e) => Err(e)
          case Ok(st) => Postfix.ApplyOperator(m, o1, st))
  {
    var text := a + " " + b + " " + c + [o2] + [o1];
    var inner := Postfix.ApplyOperator(m, o2, [va, vb, vc]);
    assert text == (a + " " + (b + " " + c)) + ([o2] + [o1]);
    PushOperand(m, a, va, []);
    assert [] + [va] == [va];
    SpaceJoin(m, a, b + " " + c, Postfix.Scan([], ""), Postfix.Scan([va], ""));
    PushTwo(m, b, vb, c, vc, [va]);
    assert [va] + [vb, vc] == [va, vb, vc];
    Postfix.ScannedAppend(m, a + " " + (b + " " + c), [o2] + [o1], Postfix.Scan([], ""));
    assert ([o2] + [o1])[0] == o2;
    Postfix.ScannedAppend(m, [o2], [o1], Postfix.Scan([va, vb, vc], ""));
    Postfix.ScannedOperator(m, o2, [va, vb, vc]);
    if inner.Ok? {
      Postfix.ScannedOperator(m, o1, inner.value);
    }
    EvaluateOfStack(m, text, match inner case Err(e) => Err(e) case Ok(st) => Postfix.ApplyOperator(m, o1, st));
  }

  /** The decimal evaluator reads an operand of digits and points as itself. */
  lemma {:induction false} DecimalPlain(lib: MathParsing.MathLib, fns: MathParsing.ClientFunctions, a: string)
    requires DecimalOperand(a)
    ensures PlainOperand(DecimalMachine(lib, fns), a, a) && ArithmeticMachine(DecimalMachine(lib, fns))
  {
    OperandChars(a);
  }

  /** An operator on the top two texts: the new top is what DecimalApply gives, or its error. */
  lemma {:induction false} ApplyTwo(lib: MathParsing.MathLib, fns: MathParsing.ClientFunctions, op: char, pre: seq<string>, x: string, y: string)
    requires IsOperator(op)
    ensures Postfix.ApplyOperator(DecimalMachine(lib, fns), op, pre + [x, y]) ==
      match DecimalApply(op, x, y)
      case Err(e) => Err(e)
      case Ok(v) => Ok(pre + [v])
  {
    var stack := pre + [x, y];
    assert stack[|stack| - 1] == y && stack[|stack| - 2] == x && stack[..|stack| - 2] == pre;
  }

  /** getExpressionResult on a op b: the operator applied to the two operand texts, error cases included. */
  lemma {:induction false} PairResult(lib: MathParsing.MathLib, fns: MathParsing.ClientFunctions, a: string, op: char, b: string)
    requires DecimalOperand(a) && DecimalOperand(b) && IsOperator(op)
    ensures DecimalResult(lib, fns, a + [op] + b) == DecimalApply(op, a, b)
    ensures ParseBigDecimal(a).Ok? && ParseBigDecimal(b).Ok? ==>
      DecimalResult(lib, fns, a + [op] + b) ==
        match DecimalOperation(op, ParseBigDecimal(a).value, ParseBigDecimal(b).value)
        case Err(e) => Err(e)
        case Ok(q) => Ok(DecimalToString(q))
  {
    var m := DecimalMachine(lib, fns);
    PairConverts(a, op, b);
    DecimalPlain(lib, fns, a);
    DecimalPlain(lib, fns, b);
    PairScan(m, a, a, b, b, op);
    ApplyTwo(lib, fns, op, [], a, b);
    assert [] + [a, b] == [a, b];
  }

  /** getExpressionResult on a o1 b o2 c with o1 of at least o2's priority: (a o1 b) o2 c. */
  lemma {:induction false} LeftChainResult(lib: MathParsing.MathLib, fns: MathParsing.ClientFunctions,
                                           a: string, o1: char, b: string, o2: char, c: string)
    requires DecimalOperand(a) && DecimalOperand(b) && DecimalOperand(c) && IsOperator(o1) && IsOperator(o2)
    requires MathParsing.MathPriority(o1) >= MathParsing.MathPriority(o2)
    ensures DecimalResult(lib, fns, a + [o1] + b + [o2] + c) ==
      match DecimalApply(o1, a, b)
      case Err(e) => Err(e)
      case Ok(v) => DecimalApply(o2, v, c)
  {
    var m := DecimalMachine(lib, fns);
    LeftChainConverts(a, o1, b, o2, c);
    DecimalPlain(lib, fns, a);
    DecimalPlain(lib, fns, b);
    DecimalPlain(lib, fns, c);
    LeftScan(m, a, a, b, b, c, c, o1, o2);
    LeftApplied(lib, fns, a, o1, b, o2, c);
  }

  /** The two operator steps of a left chain on the decimal stack. */
  lemma {:induction false} LeftApplied(lib: MathParsing.MathLib, fns: MathParsing.ClientFunctions,
                                       a: string, o1: char, b: string, o2: char, c: string)
    requires IsOperator(o1) && IsOperator(o2)
    ensures var m := DecimalMachine(lib, fns);
      Top(ThenApply(m, Postfix.ApplyOperator(m, o1, [a, b]), c, o2)) ==
      match DecimalApply(o1, a, b)
      case Err(e) => Err(e)
      case Ok(v) => DecimalApply(o2, v, c)
  {
    ApplyTwo(lib, fns, o1, [], a, b);
    assert [] + [a, b] == [a, b];
    var first := DecimalApply(o1, a, b);
    if first.Ok? {
      ApplyTwo(lib, fns, o2, [], first.value, c);
      assert [] + [first.value] + [c] == [] + [first.value, c];
    }
  }

  /** getExpressionResult on a o1 b o2 c with o2 of higher priority: a o1 (b o2 c). */
  lemma {:induction false} RightChainResult(lib: MathParsing.MathLib, fns: MathParsing.ClientFunctions,
                                            a: string, o1: char, b: string, o2: char, c: string)
    requires DecimalOperand(a) && DecimalOperand(b) && DecimalOperand(c) && IsOperator(o1) && IsOperator(o2)
    requires MathParsing.MathPriority(o1) < MathParsing.MathPriority(o2)
    ensures DecimalResult(lib, fns, a + [o1] + b + [o2] + c) ==
      match DecimalApply(o2, b, c)
      case Err(e) => Err(e)
      case Ok(v) => DecimalApply(o1, a, v)
  {
    var m := DecimalMachine(lib, fns);
    RightChainConverts(a, o1, b, o2, c);
    DecimalPlain(lib, fns, a);
    DecimalPlain(lib, fns, b);
    DecimalPlain(lib, fns, c);
    RightScan(m, a, a, b, b, c, c, o1, o2);
    RightApplied(lib, fns, a, o1, b, o2, c);
  }

  /** The two operator steps of a right chain on the decimal stack. */
  lemma {:induction false} RightApplied(lib: MathParsing.MathLib, fns: MathParsing.ClientFunctions,
                                        a: string, o1: char, b: string, o2: char, c: string)
    requires IsOperator(o1) && IsOperator(o2)
    ensures var m := DecimalMachine(lib, fns);
      Top(match Postfix.ApplyOperator(m, o2, [a, b, c])
          case Err(e) => Err(e)
          case Ok(st) => Postfix.ApplyOperator(m, o1, st)) ==
      match DecimalApply(o2, b, c)
      case Err(e) => Err(e)
      case Ok(v) => DecimalApply(o1, a, v)
  {
    ApplyTwo(lib, fns, o2, [a], b, c);
    assert [a] + [b, c] == [a, b, c];
    var inner := DecimalApply(o2, b, c);
    if inner.Ok? {
      ApplyTwo(lib, fns, o1, [], a, inner.value);
      assert [a] + [inner.value] == [] + [a, inner.value];
    }
  }

  // ------------------------------------------------------------ exactness

  /** An operation on a text that toString wrote works on the exact value that text came from. */
  lemma {:induction false} ApplyToWritten(op: char, q: Decimal, c: string)
    requires ParseBigDecimal(c).Ok?
    ensures DecimalApply(op, DecimalToString(q), c) ==
      match DecimalOperation(op, q, ParseBigDecimal(c).value)
      case Err(e) => Err(e)
      case Ok(w) => Ok(DecimalToString(w))
  {
    DecimalToStringParses(q);
  }

  lemma {:induction false} ApplyOnWritten(op: char, a: string, q: Decimal)
    requires ParseBigDecimal(a).Ok?
    ensures DecimalApply(op, a, DecimalToString(q)) ==
      match DecimalOperation(op, ParseBigDecimal(a).value, q)
      case Err(e) => Err(e)
      case Ok(w) => Ok(DecimalToString(w))
  {
    DecimalToStringParses(q);
  }

  /**
   * With every operand a literal, (a o1 b) o2 c is computed exactly: the
   * intermediate text loses nothing, so only the final result is written.
   */
  lemma {:induction false} LeftChainExact(lib: MathParsing.MathLib, fns: MathParsing.ClientFunctions,
                                          a: string, o1: char, b: string, o2: char, c: string)
    requires DecimalOperand(a) && DecimalOperand(b) && DecimalOperand(c) && IsOperator(o1) && IsOperator(o2)
    requires MathParsing.MathPriority(o1) >= MathParsing.MathPriority(o2)
    requires ParseBigDecimal(a).Ok? && ParseBigDecimal(b).Ok? && ParseBigDecimal(c).Ok?
    ensures DecimalResult(lib, fns, a + [o1] + b + [o2] + c) ==
      match DecimalOperation(o1, ParseBigDecimal(a).value, ParseBigDecimal(b).value)
      case Err(e) => Err(e)
      case Ok(q) =>
        match DecimalOperation(o2, q, ParseBigDecimal(c).value)
        case Err(e) => Err(e)
        case Ok(w) => Ok(DecimalToString(w))
  {
    LeftChainResult(lib, fns, a, o1, b, o2, c);
    var first := DecimalOperation(o1, ParseBigDecimal(a).value, ParseBigDecimal(b).value);
    if first.Ok? {
      ApplyToWritten(o2, first.value, c);
    }
  }

  /** With every operand a literal, a o1 (b o2 c) is computed exactly. */
  lemma {:induction false} RightChainExact(lib: MathParsing.MathLib, fns: MathParsing.ClientFunctions,
                                           a: string, o1: char, b: string, o2: char, c: string)
    requires DecimalOperand(a) && DecimalOperand(b) && DecimalOperand(c) && IsOperator(o1) && IsOperator(o2)
    requires MathParsing.MathPriority(o1) < MathParsing.MathPriority(o2)
    requires ParseBigDecimal(a).Ok? && ParseBigDecimal(b).Ok? && ParseBigDecimal(c).Ok?
    ensures DecimalResult(lib, fns, a + [o1] + b + [o2] + c) ==
      match DecimalOperation(o2, ParseBigDecimal(b).value, ParseBigDecimal(c).value)
      case Err(e) => Err(e)
      case Ok(q) =>
        match DecimalOperation(o1, ParseBigDecimal(a).value, q)
        case Err(e) => Err(e)
        case Ok(w) => Ok(DecimalToString(w))
  {
    RightChainResult(lib, fns, a, o1, b, o2, c);
    var inner := DecimalOperation(o2, ParseBigDecimal(b).value, ParseBigDecimal(c).value);
    if inner.Ok? {
      ApplyOnWritten(o1, a, inner.value);
    }
  }

  /** "0" reads as zero. */
  lemma {:induction false} ZeroParses()
    ensures ParseBigDecimal("0") == Ok(Decimal(0, 0))
  {
    assert DecimalToString(Decimal(0, 0)) == "0";
    DecimalToStringParses(Decimal(0, 0));
  }

  /** A literal divided by "0" is refused as a division by zero (the test divisionByZeroError, for any dividend). */
  lemma {:induction false} DivisionByZeroText(lib: MathParsing.MathLib, fns: MathParsing.ClientFunctions, a: string)
    requires DecimalOperand(a) && ParseBigDecimal(a).Ok?
    ensures DecimalResult(lib, fns, a + "/0") == Err(DivisionByZeroError)
  {
    assert a + "/0" == a + ['/'] + "0";
    ZeroParses();
    PairResult(lib, fns, a, '/', "0");
  }
}
