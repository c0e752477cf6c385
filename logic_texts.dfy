// Texts without a bracket around the whole operation: the logic parsers group
// them by the priorities of getTokenPriority ('&' before '|', and otherwise
// left to right). Then the texts of ShortLogicStringExpressionParserTest and
// FullLogicStringExpressionParserTest with the answers those tests expect.

module LogicTexts {
  import opened Errors
  import opened Text
  import Converter
  import Postfix
  import LogicParsing
  import FullLogicParser
  import opened LogicTerms

  // ------------------------------------------------------------ conversion

  /** An operator with nothing of its priority or above on top of the stack is pushed after a space. */
  lemma {:induction false} ConvertPush(op: char, out: string, stack: seq<char>)
    requires LogicParsing.LogicPriority(op) > 1
    requires stack == [] || LogicParsing.LogicPriority(stack[|stack| - 1]) < LogicParsing.LogicPriority(op)
    ensures Converter.Run(LogicParsing.LogicPriority, [op], Converter.State(out, stack)) ==
      Ok(Converter.State(out + " ", stack + [op]))
  {
    assert [op][1..] == [];
  }

  /** An operator of at least the same priority on top of an empty stack is popped after the space. */
  lemma {:induction false} ConvertPopOne(op: char, out: string, top: char)
    requires LogicParsing.LogicPriority(top) >= LogicParsing.LogicPriority(op) > 1
    ensures Converter.Run(LogicParsing.LogicPriority, [op], Converter.State(out, [top])) ==
      Ok(Converter.State(out + " " + [top], [op]))
  {
    assert [op][1..] == [];
    assert [top][..0] == [];
    assert Converter.PopOperators(LogicParsing.LogicPriority, LogicParsing.LogicPriority(op), Converter.State(out + " ", [top])) ==
      Converter.State(out + " " + [top], []);
    assert [] + [op] == [op];
    assert Converter.Step(LogicParsing.LogicPriority, op, Converter.State(out, [top])) ==
      Ok(Converter.State(out + " " + [top], [op]));
  }

  /** The final pops of one and of two operators. */
  lemma {:induction false} FlushPending(out: string, below: char, top: char)
    ensures Converter.FlushStack(Converter.State(out, [top])) == out + [top]
    ensures Converter.FlushStack(Converter.State(out, [below, top])) == out + [top] + [below]
  {
    assert [top][..0] == [];
    assert [below, top][..1] == [below];
    assert [below][..0] == [];
    assert Converter.FlushStack(Converter.State(out, [below, top])) ==
      Converter.FlushStack(Converter.State(out + [top], [below]));
  }

  /** Neither joined text holds a minus sign, so the unary rewrite leaves it alone. */
  lemma {:induction false} JoinedNoMinus(a: string, op: char, b: string)
    requires forall k :: 0 <= k < |a| ==> a[k] != '-'
    requires forall k :: 0 <= k < |b| ==> b[k] != '-'
    requires op != '-'
    ensures forall k :: 0 <= k < |a + [op] + b| ==> (a + [op] + b)[k] != '-'
  {
  }

  lemma {:induction false} PreparedJoined(a: string, op: char, b: string)
    requires forall k :: 0 <= k < |a| ==> a[k] != '-'
    requires forall k :: 0 <= k < |b| ==> b[k] != '-'
    requires op != '-'
    ensures Converter.Prepared(a + [op] + b) == a + [op] + b
  {
    JoinedNoMinus(a, op, b);
    Converter.NoMinusNoDoubleMinus(a + [op] + b);
  }

  /** The scan of x c y, up to the final pop. */
  lemma {:induction false} RunPair(x: BTerm, c: bool, y: BTerm)
    ensures Converter.Run(LogicParsing.LogicPriority, Print(x) + [Symbol(c)] + Print(y), Converter.State("", [])) ==
      Ok(Converter.State(Post(x) + " " + Post(y), [Symbol(c)]))
  {
    var op := Symbol(c);
    var px := Post(x);
    var s0 := Converter.State("", []);
    RunOfPrint(x, "", []);
    assert "" + px == px;
    ConvertPush(op, px, []);
    assert [] + [op] == [op];
    RunOfPrint(y, px + " ", [op]);
    Converter.RunAppend(LogicParsing.LogicPriority, Print(x), [op], s0);
    Converter.RunAppend(LogicParsing.LogicPriority, Print(x) + [op], Print(y), s0);
  }

  /** x c y without brackets converts as the bracketed operation does. */
  lemma {:induction false} PairConverts(x: BTerm, c: bool, y: BTerm)
    ensures Converter.ToReversePolish(LogicParsing.LogicPriority, Print(x) + [Symbol(c)] + Print(y)) ==
      Ok(Post(Op(c, x, y)))
  {
    var op := Symbol(c);
    PrintNoMinus(x);
    PrintNoMinus(y);
    PreparedJoined(Print(x), op, Print(y));
    RunPair(x, c, y);
    FlushPending(Post(x) + " " + Post(y), op, op);
  }

  /** The scan of x c1 y c2 z, up to the final pop, when c1 has at least c2's priority. */
  lemma {:induction false} RunLeftChain(x: BTerm, c1: bool, y: BTerm, c2: bool, z: BTerm)
    requires c1 || !c2
    ensures Converter.Run(LogicParsing.LogicPriority, Print(x) + [Symbol(c1)] + Print(y) + [Symbol(c2)] + Print(z),
      Converter.State("", [])) ==
      Ok(Converter.State(Post(x) + " " + Post(y) + " " + [Symbol(c1)] + Post(z), [Symbol(c2)]))
  {
    var o1, o2 := Symbol(c1), Symbol(c2);
    var out3 := Post(x) + " " + Post(y);
    var out4 := out3 + " " + [o1];
    RunPair(x, c1, y);
    ConvertPopOne(o2, out3, o1);
    RunOfPrint(z, out4, [o2]);
    RunThree(Print(x) + [o1] + Print(y), [o2], Print(z), Converter.State("", []), Converter.State(out3, [o1]),
      Converter.State(out4, [o2]), Converter.State(out4 + Post(z), [o2]));
  }

  /** The scan of x | y & z, up to the final pops: '&' waits on top of '|'. */
  lemma {:induction false} RunRightChain(x: BTerm, y: BTerm, z: BTerm)
    ensures Converter.Run(LogicParsing.LogicPriority, Print(x) + [Symbol(false)] + Print(y) + [Symbol(true)] + Print(z),
      Converter.State("", [])) ==
      Ok(Converter.State(Post(x) + " " + Post(y) + " " + Post(z), [Symbol(false), Symbol(true)]))
  {
    var o1, o2 := Symbol(false), Symbol(true);
    var pair := Print(x) + [o1] + Print(y);
    var out := Post(x) + " " + Post(y);
    var s0 := Converter.State("", []);
    RunPair(x, false, y);
    PushOver(out);
    RunOfPrint(z, out + " ", [o1, o2]);
    RunThree(pair, [o2], Print(z), s0, Converter.State(out, [o1]), Converter.State(out + " ", [o1, o2]),
      Converter.State(out + " " + Post(z), [o1, o2]));
  }

  /** '&' is pushed over '|'. */
  lemma {:induction false} PushOver(out: string)
    ensures Converter.Run(LogicParsing.LogicPriority, [Symbol(true)], Converter.State(out, [Symbol(false)])) ==
      Ok(Converter.State(out + " ", [Symbol(false), Symbol(true)]))
  {
    ConvertPush(Symbol(true), out, [Symbol(false)]);
    assert [Symbol(false)] + [Symbol(true)] == [Symbol(false), Symbol(true)];
  }

  /** Three scans in a row are one scan of the joined text. */
  lemma {:induction false} RunThree(a: string, b: string, c: string, s0: Converter.State, s1: Converter.State, s2: Converter.State, s3: Converter.State)
    requires Converter.Run(LogicParsing.LogicPriority, a, s0) == Ok(s1)
    requires Converter.Run(LogicParsing.LogicPriority, b, s1) == Ok(s2)
    requires Converter.Run(LogicParsing.LogicPriority, c, s2) == Ok(s3)
    ensures Converter.Run(LogicParsing.LogicPriority, a + b + c, s0) == Ok(s3)
  {
    Converter.RunAppend(LogicParsing.LogicPriority, a, b, s0);
    Converter.RunAppend(LogicParsing.LogicPriority, a + b, c, s0);
  }

  /** The postfix text of x c1 y c2 z when c1 has at least c2's priority: c1 is popped after the space before z. */
  lemma {:induction false} LeftChainConverts(x: BTerm, c1: bool, y: BTerm, c2: bool, z: BTerm)
    requires c1 || !c2
    ensures Converter.ToReversePolish(LogicParsing.LogicPriority, Print(x) + [Symbol(c1)] + Print(y) + [Symbol(c2)] + Print(z)) ==
      Ok(Post(x) + " " + Post(y) + " " + [Symbol(c1)] + Post(z) + [Symbol(c2)])
  {
    PrintNoMinus(x);
    PrintNoMinus(y);
    PrintNoMinus(z);
    JoinedNoMinus(Print(x), Symbol(c1), Print(y));
    PreparedJoined(Print(x) + [Symbol(c1)] + Print(y), Symbol(c2), Print(z));
    RunLeftChain(x, c1, y, c2, z);
    FlushPending(Post(x) + " " + Post(y) + " " + [Symbol(c1)] + Post(z), Symbol(c2), Symbol(c2));
  }

  /** The postfix text of x | y & z is that of x | (y & z). */
  lemma {:induction false} RightChainConverts(x: BTerm, y: BTerm, z: BTerm)
    ensures Converter.ToReversePolish(LogicParsing.LogicPriority, Print(x) + "|" + Print(y) + "&" + Print(z)) ==
      Ok(Post(Op(false, x, Op(true, y, z))))
  {
    PrintNoMinus(x);
    PrintNoMinus(y);
    PrintNoMinus(z);
    JoinedNoMinus(Print(x), '|', Print(y));
    PreparedJoined(Print(x) + "|" + Print(y), '&', Print(z));
    RunRightChain(x, y, z);
    FlushPending(Post(x) + " " + Post(y) + " " + Post(z), '|', '&');
    RegroupRight(Post(x), Post(y), Post(z));
  }

  lemma {:induction false} RegroupRight(a: string, b: string, c: string)
    ensures a + " " + b + " " + c + "&" + "|" == a + " " + (b + " " + c + "&") + "|"
  {
  }

  // ------------------------------------------------------------ evaluation

  /** Moving the space before an operator to just after it does not change the scan. */
  lemma {:induction false} SpaceMoved(a: string, op: char, b: string)
    requires LogicParsing.LogicPriority(op) > 1
    ensures Postfix.Scanned(LogicParsing.LogicMachine(), a + " " + [op] + b, Postfix.Scan([], "")) ==
      Postfix.Scanned(LogicParsing.LogicMachine(), a + [op] + " " + b, Postfix.Scan([], ""))
  {
    var m := LogicParsing.LogicMachine();
    var s := Postfix.Scan([], "");
    assert a + " " + [op] + b == a + (" " + [op]) + b;
    assert a + [op] + " " + b == a + ([op] + " ") + b;
    Postfix.RunAppend(m, a + (" " + [op]), b, s);
    Postfix.RunAppend(m, a + ([op] + " "), b, s);
    Postfix.RunAppend(m, a, " " + [op], s);
    Postfix.RunAppend(m, a, [op] + " ", s);
    var run := Postfix.Run(m, a, s);
    if run.Ok? {
      Postfix.SpaceAroundOperator(m, op, run.value);
    }
  }

  lemma {:induction false} RegroupLeft(a: string, b: string, o1: char, c: string, o2: char)
    ensures a + " " + b + " " + [o1] + c + [o2] == (a + " " + b) + " " + [o1] + (c + [o2])
    ensures a + " " + b + [o1] + " " + c + [o2] == (a + " " + b) + [o1] + " " + (c + [o2])
  {
  }

  /** The postfix text of x c1 y c2 z, c1 having at least c2's priority, is scanned as (x c1 y) c2 z. */
  lemma {:induction false} LeftChainScanned(x: BTerm, c1: bool, y: BTerm, c2: bool, z: BTerm)
    ensures Postfix.Scanned(LogicParsing.LogicMachine(), Post(x) + " " + Post(y) + " " + [Symbol(c1)] + Post(z) + [Symbol(c2)],
      Postfix.Scan([], "")) == Ok(Postfix.Scan([Value(Op(c2, Op(c1, x, y), z))], ""))
  {
    var a := Post(x) + " " + Post(y);
    var b := Post(z) + [Symbol(c2)];
    RegroupLeft(Post(x), Post(y), Symbol(c1), Post(z), Symbol(c2));
    SpaceMoved(a, Symbol(c1), b);
    ScannedOfPost(Op(c2, Op(c1, x, y), z), []);
    assert [] + [Value(Op(c2, Op(c1, x, y), z))] == [Value(Op(c2, Op(c1, x, y), z))];
  }

  /** How x c1 y c2 z is grouped without brackets: '&' before '|', and otherwise from the left. */
  function Grouped(x: BTerm, c1: bool, y: BTerm, c2: bool, z: BTerm): BTerm
  {
    if c1 || !c2 then Op(c2, Op(c1, x, y), z) else Op(c1, x, Op(c2, y, z))
  }

  /** An operation without its brackets keeps its value. */
  lemma {:induction false} PairValue(x: BTerm, c: bool, y: BTerm)
    ensures LogicParsing.LogicValue(Print(x) + [Symbol(c)] + Print(y)) == Ok(Value(Op(c, x, y)))
  {
    PairConverts(x, c, y);
    ScannedOfPost(Op(c, x, y), []);
    assert [] + [Value(Op(c, x, y))] == [Value(Op(c, x, y))];
  }

  /** Two operations without brackets: the value of their grouping by priority. */
  lemma {:induction false} ChainValue(x: BTerm, c1: bool, y: BTerm, c2: bool, z: BTerm)
    ensures LogicParsing.LogicValue(Print(x) + [Symbol(c1)] + Print(y) + [Symbol(c2)] + Print(z)) ==
      Ok(Value(Grouped(x, c1, y, c2, z)))
  {
    if c1 || !c2 {
      LeftChainConverts(x, c1, y, c2, z);
      LeftChainScanned(x, c1, y, c2, z);
    } else {
      RightChainConverts(x, y, z);
      ScannedOfPost(Op(false, x, Op(true, y, z)), []);
      assert [] + [Value(Op(false, x, Op(true, y, z)))] == [Value(Op(false, x, Op(true, y, z)))];
    }
  }

  // ------------------------------------------------------------ validation

  /** A position in the text before the operator. */
  lemma {:induction false} JoinLeft(pre: string, a: string, op: char, b: string, k: nat)
    requires k < |a|
    ensures (a + [op] + b)[k] == a[k]
    ensures pre + (a + [op] + b)[..k] == pre + a[..k]
  {
    assert (a + [op] + b)[..k] == a[..k];
  }

  /** The operator's position. */
  lemma {:induction false} JoinAt(pre: string, a: string, op: char, b: string)
    ensures (a + [op] + b)[|a|] == op
    ensures pre + (a + [op] + b)[..|a|] == pre + a
  {
    assert (a + [op] + b)[..|a|] == a;
  }

  /** A position in the text after the operator. */
  lemma {:induction false} JoinRight(pre: string, a: string, op: char, b: string, k: nat)
    requires |a| < k < |a| + 1 + |b|
    ensures (a + [op] + b)[k] == b[k - |a| - 1]
    ensures pre + (a + [op] + b)[..k] == (pre + a + [op]) + b[..k - |a| - 1]
  {
    assert (a + [op] + b)[..k] == a + [op] + b[..k - |a| - 1];
  }

  lemma {:induction false} CheckInJoin(pre: string, a: string, op: char, b: string, k: nat)
    requires ChecksAfter(pre, a)
    requires LogicParsing.HasTruthLetter(LogicParsing.LogicCollected(pre + a))
    requires ChecksAfter(pre + a + [op], b)
    requires k < |a| + 1 + |b| && LogicParsing.LogicPriority((a + [op] + b)[k]) > 1
    ensures LogicParsing.HasTruthLetter(LogicParsing.LogicCollected(pre + (a + [op] + b)[..k]))
  {
    if k < |a| {
      JoinLeft(pre, a, op, b, k);
      CheckAt(pre, a, k);
    } else if k == |a| {
      JoinAt(pre, a, op, b);
    } else {
      JoinRight(pre, a, op, b, k);
      CheckAt(pre + a + [op], b, k - |a| - 1);
    }
  }

  /** The checks over a + op + b: those of a, op's after a, and those of b. */
  lemma {:induction false} ChecksOfJoin(pre: string, a: string, op: char, b: string)
    requires ChecksAfter(pre, a)
    requires LogicParsing.HasTruthLetter(LogicParsing.LogicCollected(pre + a))
    requires ChecksAfter(pre + a + [op], b)
    ensures ChecksAfter(pre, a + [op] + b)
  {
    var p := a + [op] + b;
    forall k | 0 <= k < |p| && LogicParsing.LogicPriority(p[k]) > 1
      ensures LogicParsing.HasTruthLetter(LogicParsing.LogicCollected(pre + p[..k]))
    {
      CheckInJoin(pre, a, op, b, k);
    }
  }

  /** Two printed terms joined by an operator, read after pre, pass every check. */
  lemma {:induction false} ChecksOfPair(pre: string, x: BTerm, op: char, y: BTerm)
    ensures ChecksAfter(pre, Print(x) + [op] + Print(y))
  {
    ChecksOfPrint(pre, x);
    CollectedAfterPrint(pre, x);
    ChecksOfPrint(pre + Print(x) + [op], y);
    ChecksOfJoin(pre, Print(x), op, Print(y));
  }

  lemma {:induction false} ValidOfChecks(s: string)
    requires ChecksAfter("", s)
    ensures LogicParsing.LogicOperandsValid(s)
  {
    forall k | 0 <= k < |s| && LogicParsing.LogicPriority(s[k]) > 1
      ensures LogicParsing.HasTruthLetter(LogicParsing.LogicCollected(s[..k]))
    {
      assert "" + s[..k] == s[..k];
    }
  }

  /** The short parser answers an operation without its brackets with the operation's value. */
  lemma {:induction false} PairShortResult(x: BTerm, c: bool, y: BTerm)
    ensures LogicParsing.ShortResult(Print(x) + [Symbol(c)] + Print(y)) == Ok(Value(Op(c, x, y)))
  {
    ChecksOfPair("", x, Symbol(c), y);
    ValidOfChecks(Print(x) + [Symbol(c)] + Print(y));
    PairValue(x, c, y);
  }

  lemma {:induction false} RegroupChain(a: string, o1: char, b: string, o2: char, c: string)
    ensures a + [o1] + b + [o2] + c == a + [o1] + (b + [o2] + c)
  {
  }

  /** The short parser answers two operations without brackets with the value of their grouping by priority. */
  lemma {:induction false} ChainShortResult(x: BTerm, c1: bool, y: BTerm, c2: bool, z: BTerm)
    ensures LogicParsing.ShortResult(Print(x) + [Symbol(c1)] + Print(y) + [Symbol(c2)] + Print(z)) ==
      Ok(Value(Grouped(x, c1, y, c2, z)))
  {
    var o1, o2 := Symbol(c1), Symbol(c2);
    var rest := Print(y) + [o2] + Print(z);
    ChecksOfPrint("", x);
    CollectedAfterPrint("", x);
    ChecksOfPair("" + Print(x) + [o1], y, o2, z);
    ChecksOfJoin("", Print(x), o1, rest);
    RegroupChain(Print(x), o1, Print(y), o2, Print(z));
    ValidOfChecks(Print(x) + [o1] + Print(y) + [o2] + Print(z));
    ChainValue(x, c1, y, c2, z);
  }

  // ------------------------------------------------------------ the short parser's test texts

  /** "T&T&f" is false. */
  lemma {:induction false} ShortParserConjunctions(text: string)
    requires text == "T&T&f"
    ensures LogicParsing.ShortResult(text) == Ok(false)
  {
    var upperTrue := Lit(true, true);
    assert text == Print(upperTrue) + [Symbol(true)] + Print(upperTrue) + [Symbol(true)] + Print(Lit(false, false));
    ChainShortResult(upperTrue, true, upperTrue, true, Lit(false, false));
  }

  /** "t|f|f" is true. */
  lemma {:induction false} ShortParserDisjunctions(text: string)
    requires text == "t|f|f"
    ensures LogicParsing.ShortResult(text) == Ok(true)
  {
    var lowerFalse := Lit(false, false);
    assert text == Print(Lit(true, false)) + [Symbol(false)] + Print(lowerFalse) + [Symbol(false)] + Print(lowerFalse);
    ChainShortResult(Lit(true, false), false, lowerFalse, false, lowerFalse);
  }

  /** "T&(t|f)" is true. */
  lemma {:induction false} ShortParserBrackets(text: string)
    requires text == "T&(t|f)"
    ensures LogicParsing.ShortResult(text) == Ok(true)
  {
    var inner := Op(false, Lit(true, false), Lit(false, false));
    assert Print(inner) == "(t|f)";
    assert text == Print(Lit(true, true)) + [Symbol(true)] + Print(inner);
    PairShortResult(Lit(true, true), true, inner);
  }

  /** "v | l", stored as "v|l": the operand before '|' holds neither 't' nor 'f'. */
  lemma {:induction false} ShortParserUntypedText()
    ensures LogicParsing.ShortResult(StripWhitespace("v | l")) == Err(IncorrectLogicType)
  {
    var s := "v|l";
    assert StripWhitespace("v | l") == "v" + StripWhitespace(" | l");
    assert StripWhitespace(" | l") == "|l" by {
      assert StripWhitespace(" | l") == StripWhitespace("| l");
      assert StripWhitespace("| l") == "|" + StripWhitespace(" l");
      assert StripWhitespace(" l") == StripWhitespace("l");
      assert StripWhitespace("l") == "l" + StripWhitespace("");
    }
    assert s[..1] == "v";
    assert LogicParsing.LogicCollected("v") == LogicParsing.LogicCollect(LogicParsing.LogicCollected(""), 'v');
    assert ToLower("v") == "v";
    assert !LogicParsing.HasTruthLetter(LogicParsing.LogicCollected(s[..1]));
    assert LogicParsing.LogicPriority(s[1]) > 1;
  }

  lemma {:induction false} TruthLetters()
    ensures LogicParsing.HasTruthLetter("T") && LogicParsing.HasTruthLetter("f")
    ensures !LogicParsing.HasTruthLetter("x") && !LogicParsing.HasTruthLetter("x1") && !LogicParsing.HasTruthLetter("x2")
  {
    assert ToLower("T") == "t" && ToLower("f") == "f" && ToLower("x") == "x";
    assert ToLower("x1") == "x1" && ToLower("x2") == "x2";
  }

  /** setVariablesValue(true) on "T&f|x1": the identifier x1 becomes T and the literals stay. */
  lemma {:induction false} ShortParserBinding()
    ensures LogicParsing.LogicBound("T&f|x1", [true]) == Ok("T&f|T")
  {
    var e := "T&f|x1";
    var q := [true];
    TruthLetters();
    var b0 := LogicParsing.LogicBinder("", "", q);
    var b1 := LogicParsing.LogicBinder("", "T", q);
    var b2 := LogicParsing.LogicBinder("T&", "", q);
    var b3 := LogicParsing.LogicBinder("T&", "f", q);
    var b4 := LogicParsing.LogicBinder("T&f|", "", q);
    var b5 := LogicParsing.LogicBinder("T&f|", "x", q);
    var b6 := LogicParsing.LogicBinder("T&f|T", "", []);
    assert LogicParsing.LogicBindStep(e[0], false, b0) == b1;
    assert LogicParsing.LogicBindStep(e[1], false, b1) == b2;
    assert LogicParsing.LogicBindStep(e[2], false, b2) == b3;
    assert LogicParsing.LogicBindStep(e[3], false, b3) == b4;
    assert LogicParsing.LogicBindStep(e[4], false, b4) == b5;
    assert LogicParsing.LogicBindStep(e[5], true, b5) == b6;
    LogicParsing.LogicBindAt(e, 0, b0);
    LogicParsing.LogicBindAt(e, 1, b1);
    LogicParsing.LogicBindAt(e, 2, b2);
    LogicParsing.LogicBindAt(e, 3, b3);
    LogicParsing.LogicBindAt(e, 4, b4);
    LogicParsing.LogicBindAt(e, 5, b5);
  }

  /** After that binding the stored text "T&f|T" is true. */
  lemma {:induction false} ShortParserBoundText(text: string)
    requires text == "T&f|T"
    ensures StripWhitespace(text) == text
    ensures LogicParsing.ShortResult(text) == Ok(true)
  {
    Text.StripWhitespaceKeepsStripped(text);
    var upperTrue := Lit(true, true);
    assert text == Print(upperTrue) + [Symbol(true)] + Print(Lit(false, false)) + [Symbol(false)] + Print(upperTrue);
    ChainShortResult(upperTrue, true, Lit(false, false), false, upperTrue);
  }

  // ------------------------------------------------------------ the full parser's test texts

  /** An identifier of one letter and one digit is copied. */
  lemma {:induction false} IdentifierTranslates(out: string, a: string)
    requires |a| == 2 && IsLetter(a[0]) && IsDigit(a[1])
    ensures FullLogicParser.TranslateOver(FullLogicParser.Translator(out, ""), a) == FullLogicParser.Translator(out + a, "")
  {
    assert a == [a[0]] + [a[1]];
    LetterDigitTranslates(out, a[0], a[1]);
  }

  /** A letter and a digit: the letter waits, then both are written. */
  lemma {:induction false} LetterDigitTranslates(out: string, l: char, d: char)
    requires IsLetter(l) && IsDigit(d)
    ensures FullLogicParser.TranslateOver(FullLogicParser.Translator(out, ""), [l] + [d]) == FullLogicParser.Translator(out + ([l] + [d]), "")
  {
    LetterPending(out, l);
    OneStep(FullLogicParser.Translator(out, [l]), d);
    DigitAfterLetter(out, l, d);
    FullLogicParser.TranslateOverAppend(FullLogicParser.Translator(out, ""), [l], [d]);
  }

  /** A single letter makes no word and waits in the lexeme. */
  lemma {:induction false} LetterPending(out: string, l: char)
    requires IsLetter(l)
    ensures FullLogicParser.TranslateOver(FullLogicParser.Translator(out, ""), [l]) == FullLogicParser.Translator(out, [l])
  {
    FullLogicParser.ShortLexeme([l]);
    assert "" + [l] == [l];
    Pending(out, "", l);
  }

  /** A digit after a pending letter writes both. */
  lemma {:induction false} DigitAfterLetter(out: string, l: char, d: char)
    requires IsLetter(l) && IsDigit(d)
    ensures FullLogicParser.TranslateStep(FullLogicParser.Translator(out, [l]), d) == FullLogicParser.Translator(out + [l] + [d], "")
  {
    FullLogicParser.ShortLexeme([l]);
  }

  /** Three translations that each pick up where the previous one stopped make one translation of the joined text. */
  lemma {:induction false} TranslateThree(x1: string, x2: string, x3: string, s0: FullLogicParser.Translator, s1: FullLogicParser.Translator,
                       s2: FullLogicParser.Translator, s3: FullLogicParser.Translator)
    requires FullLogicParser.TranslateOver(s0, x1) == s1 && FullLogicParser.TranslateOver(s1, x2) == s2
    requires FullLogicParser.TranslateOver(s2, x3) == s3
    ensures FullLogicParser.TranslateOver(s0, x1 + x2 + x3) == s3
  {
    FullLogicParser.TranslateOverAppend(s0, x1, x2);
    FullLogicParser.TranslateOverAppend(s0, x1 + x2, x3);
  }

  /** The stored text is the stripped one; its translation is that of the text as written, and not empty. */
  lemma {:induction false} StoredTranslates(text: string, short: string)
    requires FullLogicParser.Translate(text) == short && short != []
    ensures FullLogicParser.Translate(StripWhitespace(text)) == short
    ensures FullLogicParser.FullResult(StripWhitespace(text), false) == LogicParsing.LogicValue(short)
  {
    FullLogicParser.TranslateStripped(text);
  }

  /** x c y spelled out without brackets translates to the short x c y, in upper case. */
  lemma {:induction false} VerbosePairTranslates(x: BTerm, c: bool, y: BTerm)
    ensures FullLogicParser.Translate(Verbose(x) + Separator(c) + Verbose(y)) == Print(Upper(x)) + [Symbol(c)] + Print(Upper(y))
  {
    var px := Print(Upper(x));
    var py := Print(Upper(y));
    VerboseTranslates("", x);
    assert "" + px == px;
    SeparatorTranslates(px, c);
    VerboseTranslates(px + [Symbol(c)], y);
    TranslateThree(Verbose(x), Separator(c), Verbose(y), FullLogicParser.Translator("", ""),
      FullLogicParser.Translator(px, ""), FullLogicParser.Translator(px + [Symbol(c)], ""),
      FullLogicParser.Translator(px + [Symbol(c)] + py, ""));
  }

  /** x c1 y c2 z spelled out without brackets translates to the short x c1 y c2 z, in upper case. */
  lemma {:induction false} VerboseChainTranslates(x: BTerm, c1: bool, y: BTerm, c2: bool, z: BTerm)
    ensures FullLogicParser.Translate(Verbose(x) + Separator(c1) + Verbose(y) + Separator(c2) + Verbose(z)) ==
      Print(Upper(x)) + [Symbol(c1)] + Print(Upper(y)) + [Symbol(c2)] + Print(Upper(z))
  {
    var o1 := Print(Upper(x));
    var o2 := o1 + [Symbol(c1)];
    var o3 := o2 + Print(Upper(y));
    var o4 := o3 + [Symbol(c2)];
    VerboseTranslates("", x);
    assert "" + o1 == o1;
    SeparatorTranslates(o1, c1);
    VerboseTranslates(o2, y);
    SeparatorTranslates(o3, c2);
    VerboseTranslates(o4, z);
    TranslateChain(Verbose(x), Separator(c1), Verbose(y), Separator(c2), Verbose(z),
      FullLogicParser.Translator("", ""), FullLogicParser.Translator(o1, ""), FullLogicParser.Translator(o2, ""),
      FullLogicParser.Translator(o3, ""), FullLogicParser.Translator(o4, ""), FullLogicParser.Translator(o4 + Print(Upper(z)), ""));
  }

  /** The full parser gives x c y spelled out without brackets the operation's value. */
  lemma {:induction false} FullResultOfVerbosePair(x: BTerm, c: bool, y: BTerm)
    ensures FullLogicParser.FullResult(StripWhitespace(Verbose(x) + Separator(c) + Verbose(y)), false) == Ok(Value(Op(c, x, y)))
  {
    VerbosePairTranslates(x, c, y);
    StoredTranslates(Verbose(x) + Separator(c) + Verbose(y), Print(Upper(x)) + [Symbol(c)] + Print(Upper(y)));
    PairValue(Upper(x), c, Upper(y));
  }

  /** The full parser gives x c1 y c2 z spelled out without brackets the value of its grouping by priority. */
  lemma {:induction false} FullResultOfVerboseChain(x: BTerm, c1: bool, y: BTerm, c2: bool, z: BTerm)
    ensures FullLogicParser.FullResult(StripWhitespace(Verbose(x) + Separator(c1) + Verbose(y) + Separator(c2) + Verbose(z)), false) ==
      Ok(Value(Grouped(x, c1, y, c2, z)))
  {
    var text := Verbose(x) + Separator(c1) + Verbose(y) + Separator(c2) + Verbose(z);
    VerboseChainTranslates(x, c1, y, c2, z);
    StoredTranslates(text, Print(Upper(x)) + [Symbol(c1)] + Print(Upper(y)) + [Symbol(c2)] + Print(Upper(z)));
    ChainValue(Upper(x), c1, Upper(y), c2, Upper(z));
  }

  /** The spelled pieces of the test texts. */
  lemma {:induction false} VerbosePieces()
    ensures Verbose(Lit(true, true)) == "True" && Verbose(Lit(true, false)) == "true" && Verbose(Lit(false, false)) == "false"
    ensures Separator(true) == " and " && Separator(false) == " or "
    ensures Verbose(Op(false, Lit(true, false), Lit(false, false))) == "(true or false)"
  {
  }

  /** "True and false" spelled from its pieces. */
  lemma {:induction false} ConjunctionText(text: string)
    requires text == "True and false"
    ensures text == Verbose(Lit(true, true)) + Separator(true) + Verbose(Lit(false, false))
  {
    assert text == "True" + " and " + "false";
    VerbosePieces();
  }

  /** "True and false" is false. */
  lemma {:induction false} FullParserConjunction(text: string)
    requires text == "True and false"
    ensures FullLogicParser.FullResult(StripWhitespace(text), false) == Ok(false)
  {
    ConjunctionText(text);
    FullResultOfVerbosePair(Lit(true, true), true, Lit(false, false));
  }

  /** "true or false or false" spelled from its pieces. */
  lemma {:induction false} DisjunctionsText(text: string)
    requires text == "true or false or false"
    ensures text == Verbose(Lit(true, false)) + Separator(false) + Verbose(Lit(false, false)) + Separator(false) + Verbose(Lit(false, false))
  {
    assert text == "true" + " or " + "false" + " or " + "false";
    VerbosePieces();
  }

  /** "true or false or false" is true. */
  lemma {:induction false} FullParserDisjunctions(text: string)
    requires text == "true or false or false"
    ensures FullLogicParser.FullResult(StripWhitespace(text), false) == Ok(true)
  {
    DisjunctionsText(text);
    FullResultOfVerboseChain(Lit(true, false), false, Lit(false, false), false, Lit(false, false));
  }

  /** "True and (true or false)" spelled from its pieces. */
  lemma {:induction false} BracketsText(text: string)
    requires text == "True and (true or false)"
    ensures text == Verbose(Lit(true, true)) + Separator(true) + Verbose(Op(false, Lit(true, false), Lit(false, false)))
  {
    assert text == "True" + " and " + "(true or false)";
    VerbosePieces();
  }

  /** "True and (true or false)" is true. */
  lemma {:induction false} FullParserBrackets(text: string)
    requires text == "True and (true or false)"
    ensures FullLogicParser.FullResult(StripWhitespace(text), false) == Ok(true)
  {
    BracketsText(text);
    FullResultOfVerbosePair(Lit(true, true), true, Op(false, Lit(true, false), Lit(false, false)));
  }

  /** Two identifiers of a letter and a digit, then a term, joined by spelled operators: the identifiers are copied. */
  lemma {:induction false} IdentifiersTranslate(a: string, c1: bool, b: string, c2: bool, z: BTerm)
    requires |a| == 2 && IsLetter(a[0]) && IsDigit(a[1])
    requires |b| == 2 && IsLetter(b[0]) && IsDigit(b[1])
    ensures FullLogicParser.Translate(a + Separator(c1) + b + Separator(c2) + Verbose(z)) ==
      a + [Symbol(c1)] + b + [Symbol(c2)] + Print(Upper(z))
  {
    var o2 := a + [Symbol(c1)];
    var o3 := o2 + b;
    var o4 := o3 + [Symbol(c2)];
    IdentifierTranslates("", a);
    assert "" + a == a;
    SeparatorTranslates(a, c1);
    IdentifierTranslates(o2, b);
    SeparatorTranslates(o3, c2);
    VerboseTranslates(o4, z);
    TranslateChain(a, Separator(c1), b, Separator(c2), Verbose(z),
      FullLogicParser.Translator("", ""), FullLogicParser.Translator(a, ""), FullLogicParser.Translator(o2, ""),
      FullLogicParser.Translator(o3, ""), FullLogicParser.Translator(o4, ""), FullLogicParser.Translator(o4 + Print(Upper(z)), ""));
  }

  /** "x1 and x2 or true" spelled from its pieces. */
  lemma {:induction false} TranslationText(text: string)
    requires text == "x1 and x2 or true"
    ensures text == "x1" + Separator(true) + "x2" + Separator(false) + Verbose(Lit(true, false))
  {
    assert text == "x1" + " and " + "x2" + " or " + "true";
    VerbosePieces();
  }

  /** "x1 and x2 or true" translates to "x1&x2|T". */
  lemma {:induction false} FullParserTranslation(text: string)
    requires text == "x1 and x2 or true"
    ensures FullLogicParser.Translate(StripWhitespace(text)) == "x1&x2|T"
  {
    TranslationText(text);
    IdentifiersTranslate("x1", true, "x2", false, Lit(true, false));
    assert "x1" + [Symbol(true)] + "x2" + [Symbol(false)] + Print(Upper(Lit(true, false))) == "x1&x2|T";
    StoredTranslates(text, "x1&x2|T");
  }

  /** setVariablesValue(false, true) on "x1&x2|T": x1 becomes F, x2 becomes T. */
  lemma {:induction false} FullParserBinding()
    ensures LogicParsing.LogicBound("x1&x2|T", [false, true]) == Ok("F&T|T")
  {
    var e := "x1&x2|T";
    var q := [false, true];
    TruthLetters();
    var b0 := LogicParsing.LogicBinder("", "", q);
    var b1 := LogicParsing.LogicBinder("", "x", q);
    var b2 := LogicParsing.LogicBinder("", "x1", q);
    var b3 := LogicParsing.LogicBinder("F&", "", [true]);
    var b4 := LogicParsing.LogicBinder("F&", "x", [true]);
    var b5 := LogicParsing.LogicBinder("F&", "x2", [true]);
    var b6 := LogicParsing.LogicBinder("F&T|", "", []);
    var b7 := LogicParsing.LogicBinder("F&T|T", "", []);
    assert LogicParsing.LogicBindStep(e[0], false, b0) == b1;
    assert LogicParsing.LogicBindStep(e[1], false, b1) == b2;
    assert LogicParsing.LogicBindStep(e[2], false, b2) == b3;
    assert LogicParsing.LogicBindStep(e[3], false, b3) == b4;
    assert LogicParsing.LogicBindStep(e[4], false, b4) == b5;
    assert LogicParsing.LogicBindStep(e[5], false, b5) == b6;
    assert LogicParsing.LogicBindStep(e[6], true, b6) == b7;
    LogicParsing.LogicBindAt(e, 0, b0);
    LogicParsing.LogicBindAt(e, 1, b1);
    LogicParsing.LogicBindAt(e, 2, b2);
    LogicParsing.LogicBindAt(e, 3, b3);
    LogicParsing.LogicBindAt(e, 4, b4);
    LogicParsing.LogicBindAt(e, 5, b5);
    LogicParsing.LogicBindAt(e, 6, b6);
  }

  /** After that binding the stored text "F&T|T" is true; the full parser no longer translates it. */
  lemma {:induction false} FullParserBoundText(text: string)
    requires text == "F&T|T"
    ensures StripWhitespace(text) == text
    ensures FullLogicParser.FullResult(text, true) == Ok(true)
  {
    Text.StripWhitespaceKeepsStripped(text);
    var upperTrue := Lit(true, true);
    assert text == Print(Lit(false, true)) + [Symbol(true)] + Print(upperTrue) + [Symbol(false)] + Print(upperTrue);
    ChainValue(Lit(false, true), true, upperTrue, false, upperTrue);
  }
}
