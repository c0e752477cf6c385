// Boolean terms with a bracket around every operation, written in the short
// form (T, t, F, f, &, |) and in the verbose form (true, false, and, or):
// the short parser accepts every printed term and gives it its value, and
// the full parser gives a verbose term the same value.

module LogicTerms {
  import opened Errors
  import opened Text
  import Converter
  import Postfix
  import LogicParsing
  import FullLogicParser

  /** A truth literal, written upper or lower case, or a conjunction or disjunction of two terms. */
  datatype BTerm = Lit(value: bool, upper: bool) | Op(conjunction: bool, left: BTerm, right: BTerm)

  function Value(t: BTerm): bool
  {
    match t
    case Lit(v, _) => v
    case Op(c, l, r) => if c then Value(l) && Value(r) else Value(l) || Value(r)
  }

  /** The short letter of a literal. */
  function Letter(value: bool, upper: bool): char
  {
    if value then (if upper then 'T' else 't') else (if upper then 'F' else 'f')
  }

  /** The short operator of an operation. */
  function Symbol(conjunction: bool): char
  {
    if conjunction then '&' else '|'
  }

  /** The short form, a bracket around every operation. */
  function Print(t: BTerm): (s: string)
    ensures |s| >= 1
  {
    match t
    case Lit(v, u) => [Letter(v, u)]
    case Op(c, l, r) => "(" + Print(l) + [Symbol(c)] + Print(r) + ")"
  }

  /** The postfix text the converter writes for a printed term: a space before each right operand. */
  function Post(t: BTerm): string
  {
    match t
    case Lit(v, u) => [Letter(v, u)]
    case Op(c, l, r) => Post(l) + " " + Post(r) + [Symbol(c)]
  }

  // ------------------------------------------------------------ conversion

  /** No printed term holds a minus sign, so the unary rewrite leaves it alone. */
  lemma {:induction false} PrintNoMinus(t: BTerm)
    ensures forall k :: 0 <= k < |Print(t)| ==> Print(t)[k] != '-'
    decreases t
  {
    match t
    case Lit(v, u) =>
    case Op(c, l, r) =>
      PrintNoMinus(l);
      PrintNoMinus(r);
  }

  /** The shunting-yard scan over a printed term writes its postfix text and leaves the stack as it was. */
  lemma {:induction false} RunOfPrint(t: BTerm, out: string, stack: seq<char>)
    ensures Converter.Run(LogicParsing.LogicPriority, Print(t), Converter.State(out, stack)) ==
      Ok(Converter.State(out + Post(t), stack))
    decreases t
  {
    match t
    case Lit(v, u) =>
      Converter.RunOperandChars(LogicParsing.LogicPriority, [Letter(v, u)], Converter.State(out, stack));
    case Op(c, l, r) =>
      var op := Symbol(c);
      RunOfPrint(l, out, stack + ['(']);
      RunOfPrint(r, out + Post(l) + " ", stack + ['('] + [op]);
      Converter.RunOfBracketed(LogicParsing.LogicPriority, op, Print(l), Print(r), Post(l), Post(r), out, stack);
  }

  /** expressionToReversePolishNotation of a printed term is its postfix text. */
  lemma {:induction false} ToReversePolishOfPrint(t: BTerm)
    ensures Converter.ToReversePolish(LogicParsing.LogicPriority, Print(t)) == Ok(Post(t))
  {
    PrintNoMinus(t);
    Converter.NoMinusNoDoubleMinus(Print(t));
    assert Converter.Prepared(Print(t)) == Print(t);
    RunOfPrint(t, "", []);
    assert "" + Post(t) == Post(t);
  }

  // ------------------------------------------------------------ evaluation

  /** A literal's letter resolves to the literal's value. */
  lemma {:induction false} ResolveLetter(value: bool, upper: bool)
    ensures LogicParsing.LogicResolve([Letter(value, upper)]) == Ok(value)
  {
    var lower := ToLower([Letter(value, upper)]);
    assert lower == [if value then 't' else 'f'];
    Lacks(lower, "true", 1);
    Lacks(lower, "false", 1);
  }

  /** Two postfix operands, a space between them, then an operator: the operation's value replaces them. */
  lemma {:induction false} ScannedOperation(a: string, b: string, c: bool, stack: seq<bool>, x: bool, y: bool)
    requires Postfix.Scanned(LogicParsing.LogicMachine(), a, Postfix.Scan(stack, "")) == Ok(Postfix.Scan(stack + [x], ""))
    requires Postfix.Scanned(LogicParsing.LogicMachine(), b, Postfix.Scan(stack + [x], "")) ==
      Ok(Postfix.Scan(stack + [x] + [y], ""))
    ensures Postfix.Scanned(LogicParsing.LogicMachine(), a + " " + b + [Symbol(c)], Postfix.Scan(stack, "")) ==
      Ok(Postfix.Scan(stack + [if c then x && y else x || y], ""))
  {
    var m := LogicParsing.LogicMachine();
    var op := Symbol(c);
    Postfix.ScannedThenOperator(m, a, b, op, Postfix.Scan(stack, ""), Postfix.Scan(stack + [x], ""));
    var st := stack + [x] + [y];
    Postfix.ScannedOperator(m, op, st);
    assert st[..|st| - 2] == stack;
  }

  /** The postfix scan of a term's text pushes the term's value. */
  lemma {:induction false} ScannedOfPost(t: BTerm, stack: seq<bool>)
    ensures Postfix.Scanned(LogicParsing.LogicMachine(), Post(t), Postfix.Scan(stack, "")) ==
      Ok(Postfix.Scan(stack + [Value(t)], ""))
    decreases t
  {
    match t
    case Lit(v, u) =>
      Postfix.ScannedOperand(LogicParsing.LogicMachine(), [Letter(v, u)], stack, "");
      assert "" + [Letter(v, u)] == [Letter(v, u)];
      ResolveLetter(v, u);
    case Op(c, l, r) =>
      ScannedOfPost(l, stack);
      ScannedOfPost(r, stack + [Value(l)]);
      ScannedOperation(Post(l), Post(r), c, stack, Value(l), Value(r));
  }

  /** The conversion and the postfix evaluation give a printed term its value. */
  lemma {:induction false} LogicValueOfPrint(t: BTerm)
    ensures LogicParsing.LogicValue(Print(t)) == Ok(Value(t))
  {
    ToReversePolishOfPrint(t);
    ScannedOfPost(t, []);
    assert [] + [Value(t)] == [Value(t)];
  }

  // ------------------------------------------------------------ validation

  /** Every '&' and '|' of p, read after pre, finds a truth letter in the operand collected before it. */
  predicate ChecksAfter(pre: string, p: string)
  {
    forall k :: 0 <= k < |p| && LogicParsing.LogicPriority(p[k]) > 1 ==>
      LogicParsing.HasTruthLetter(LogicParsing.LogicCollected(pre + p[..k]))
  }

  lemma {:induction false} CollectedSnoc(s: string, c: char)
    ensures LogicParsing.LogicCollected(s + [c]) == LogicParsing.LogicCollect(LogicParsing.LogicCollected(s), c)
  {
    assert (s + [c])[..|s|] == s;
  }

  /** After a printed term, whatever came before it, the collected operand holds a truth letter. */
  lemma {:induction false} CollectedAfterPrint(pre: string, t: BTerm)
    ensures LogicParsing.HasTruthLetter(LogicParsing.LogicCollected(pre + Print(t)))
    decreases t
  {
    match t
    case Lit(v, u) =>
      CollectedSnoc(pre, Letter(v, u));
      LogicParsing.HasTruthLetterAppend(LogicParsing.LogicCollected(pre), Letter(v, u));
    case Op(c, l, r) =>
      var inner := pre + "(" + Print(l) + [Symbol(c)];
      CollectedAfterPrint(inner, r);
      assert pre + Print(t) == (inner + Print(r)) + [')'];
      CollectedSnoc(inner + Print(r), ')');
  }

  /** One operator's check, taken from the checks of the text around it. */
  lemma {:induction false} CheckAt(pre: string, p: string, j: nat)
    requires ChecksAfter(pre, p) && j < |p| && LogicParsing.LogicPriority(p[j]) > 1
    ensures LogicParsing.HasTruthLetter(LogicParsing.LogicCollected(pre + p[..j]))
  {
  }

  /** The checks inside a bracketed operation: those of each operand, and the operator's after the left one. */
  lemma {:induction false} ChecksOfOperation(pre: string, pl: string, op: char, pr: string)
    requires ChecksAfter(pre + "(", pl)
    requires LogicParsing.HasTruthLetter(LogicParsing.LogicCollected(pre + "(" + pl))
    requires ChecksAfter(pre + "(" + pl + [op], pr)
    ensures ChecksAfter(pre, "(" + pl + [op] + pr + ")")
  {
    var p := "(" + pl + [op] + pr + ")";
    forall k | 0 <= k < |p| && LogicParsing.LogicPriority(p[k]) > 1
      ensures LogicParsing.HasTruthLetter(LogicParsing.LogicCollected(pre + p[..k]))
    {
      CheckInOperation(pre, pl, op, pr, k);
    }
  }

  lemma {:induction false} CheckInOperation(pre: string, pl: string, op: char, pr: string, k: nat)
    requires ChecksAfter(pre + "(", pl)
    requires LogicParsing.HasTruthLetter(LogicParsing.LogicCollected(pre + "(" + pl))
    requires ChecksAfter(pre + "(" + pl + [op], pr)
    requires k < |pl| + |pr| + 3
    requires LogicParsing.LogicPriority(("(" + pl + [op] + pr + ")")[k]) > 1
    ensures LogicParsing.HasTruthLetter(LogicParsing.LogicCollected(pre + ("(" + pl + [op] + pr + ")")[..k]))
  {
    var p := "(" + pl + [op] + pr + ")";
    OperationEnds(pl, op, pr);
    if k <= |pl| {
      InLeft(pre, pl, op, pr, k);
      CheckAt(pre + "(", pl, k - 1);
    } else if k == |pl| + 1 {
      AtOperator(pre, pl, op, pr);
    } else {
      InRight(pre, pl, op, pr, k);
      CheckAt(pre + "(" + pl + [op], pr, k - |pl| - 2);
    }
  }

  lemma {:induction false} OperationEnds(pl: string, op: char, pr: string)
    ensures ("(" + pl + [op] + pr + ")")[0] == '('
    ensures ("(" + pl + [op] + pr + ")")[|pl| + |pr| + 2] == ')'
  {
  }

  /** A position inside the left operand. */
  lemma {:induction false} InLeft(pre: string, pl: string, op: char, pr: string, k: nat)
    requires 1 <= k <= |pl|
    ensures ("(" + pl + [op] + pr + ")")[k] == pl[k - 1]
    ensures pre + ("(" + pl + [op] + pr + ")")[..k] == (pre + "(") + pl[..k - 1]
  {
    var p := "(" + pl + [op] + pr + ")";
    assert p[..k] == "(" + pl[..k - 1];
  }

  /** The operator's position. */
  lemma {:induction false} AtOperator(pre: string, pl: string, op: char, pr: string)
    ensures ("(" + pl + [op] + pr + ")")[|pl| + 1] == op
    ensures pre + ("(" + pl + [op] + pr + ")")[..|pl| + 1] == pre + "(" + pl
  {
    var p := "(" + pl + [op] + pr + ")";
    assert p[..|pl| + 1] == "(" + pl;
  }

  /** A position inside the right operand. */
  lemma {:induction false} InRight(pre: string, pl: string, op: char, pr: string, k: nat)
    requires |pl| + 2 <= k < |pl| + 2 + |pr|
    ensures ("(" + pl + [op] + pr + ")")[k] == pr[k - |pl| - 2]
    ensures pre + ("(" + pl + [op] + pr + ")")[..k] == (pre + "(" + pl + [op]) + pr[..k - |pl| - 2]
  {
    var p := "(" + pl + [op] + pr + ")";
    assert p[..k] == "(" + pl + [op] + pr[..k - |pl| - 2];
  }

  lemma {:induction false} ChecksOfPrint(pre: string, t: BTerm)
    ensures ChecksAfter(pre, Print(t))
    decreases t
  {
    match t
    case Lit(v, u) =>
    case Op(c, l, r) =>
      ChecksOfPrint(pre + "(", l);
      CollectedAfterPrint(pre + "(", l);
      ChecksOfPrint(pre + "(" + Print(l) + [Symbol(c)], r);
      ChecksOfOperation(pre, Print(l), Symbol(c), Print(r));
  }

  /** validateOperandTypeInExpression accepts every printed term. */
  lemma {:induction false} ValidOfPrint(t: BTerm)
    ensures LogicParsing.LogicOperandsValid(Print(t))
  {
    ChecksOfPrint("", t);
    forall k | 0 <= k < |Print(t)| && LogicParsing.LogicPriority(Print(t)[k]) > 1
      ensures LogicParsing.HasTruthLetter(LogicParsing.LogicCollected(Print(t)[..k]))
    {
      assert "" + Print(t)[..k] == Print(t)[..k];
    }
  }

  /** The short parser answers every printed term with its value. */
  lemma {:induction false} ShortResultOfPrint(t: BTerm)
    ensures LogicParsing.ShortResult(Print(t)) == Ok(Value(t))
  {
    ValidOfPrint(t);
    LogicValueOfPrint(t);
  }

  // ------------------------------------------------------------ the verbose form

  /** A literal spelled out, capitalised when the literal is upper case. */
  function Spelled(value: bool, upper: bool): string
  {
    if value then (if upper then "True" else "true") else (if upper then "False" else "false")
  }

  /** The word of an operation. */
  function Connective(conjunction: bool): string
  {
    if conjunction then "and" else "or"
  }

  /** The word of an operation between spaces. */
  function Separator(conjunction: bool): string
  {
    " " + Connective(conjunction) + " "
  }

  /** The verbose form: the words, with " and " or " or " between the bracketed operands. */
  function Verbose(t: BTerm): string
  {
    match t
    case Lit(v, u) => Spelled(v, u)
    case Op(c, l, r) => "(" + Verbose(l) + Separator(c) + Verbose(r) + ")"
  }

  /** The same term with every literal upper case, as the translation writes it. */
  function Upper(t: BTerm): (u: BTerm)
    ensures Value(u) == Value(t)
  {
    match t
    case Lit(v, _) => Lit(v, true)
    case Op(c, l, r) => Op(c, Upper(l), Upper(r))
  }

  lemma {:induction false} OneStep(st: FullLogicParser.Translator, c: char)
    ensures FullLogicParser.TranslateOver(st, [c]) == FullLogicParser.TranslateStep(st, c)
  {
    assert [c][1..] == [];
  }

  /** A letter that makes no word with the lexeme joins it. */
  lemma {:induction false} Pending(out: string, lexeme: string, c: char)
    requires IsLetter(c) && FullLogicParser.Word(ToLower(lexeme + [c])) == ""
    ensures FullLogicParser.TranslateOver(FullLogicParser.Translator(out, lexeme), [c]) ==
      FullLogicParser.Translator(out, lexeme + [c])
  {
    OneStep(FullLogicParser.Translator(out, lexeme), c);
  }

  /** A letter that completes a word writes the word's symbol and empties the lexeme. */
  lemma {:induction false} Completed(out: string, lexeme: string, c: char)
    requires IsLetter(c) && FullLogicParser.Word(ToLower(lexeme + [c])) != ""
    ensures FullLogicParser.TranslateOver(FullLogicParser.Translator(out, lexeme), [c]) ==
      FullLogicParser.Translator(out + FullLogicParser.Word(ToLower(lexeme + [c])), "")
  {
    OneStep(FullLogicParser.Translator(out, lexeme), c);
  }

  lemma {:induction false} LowerPrefix(w: string, j: nat)
    requires j < |w|
    ensures w[..j + 1] == w[..j] + [w[j]]
    ensures ToLower(w[..j + 1]) == ToLower(w)[..j + 1]
  {
  }

  /** The letters of a word before its last one are held in the lexeme, none of their prefixes being a word. */
  lemma {:induction false} ReadPending(out: string, w: string, lower: string, j: nat)
    requires AllLetters(w) && ToLower(w) == lower && j < |w|
    requires forall i :: 0 < i < |lower| ==> FullLogicParser.Word(lower[..i]) == ""
    ensures FullLogicParser.TranslateOver(FullLogicParser.Translator(out, ""), w[..j]) ==
      FullLogicParser.Translator(out, w[..j])
    decreases j
  {
    if j > 0 {
      ReadPending(out, w, lower, j - 1);
      assert FullLogicParser.Word(lower[..j]) == "";
      PendingLetter(out, w, lower, j);
      FullLogicParser.TranslateOverAppend(FullLogicParser.Translator(out, ""), w[..j - 1], [w[j - 1]]);
    }
  }

  /** The j-th letter of a word joins the lexeme holding the letters before it. */
  lemma {:induction false} PendingLetter(out: string, w: string, lower: string, j: nat)
    requires AllLetters(w) && ToLower(w) == lower && 0 < j < |w|
    requires FullLogicParser.Word(lower[..j]) == ""
    ensures w[..j - 1] + [w[j - 1]] == w[..j]
    ensures FullLogicParser.TranslateOver(FullLogicParser.Translator(out, w[..j - 1]), [w[j - 1]]) ==
      FullLogicParser.Translator(out, w[..j])
  {
    LowerPrefix(w, j - 1);
    assert ToLower(w[..j - 1] + [w[j - 1]]) == lower[..j];
    Pending(out, w[..j - 1], w[j - 1]);
  }

  /** A word none of whose proper prefixes holds a word is read letter by letter and written as its symbol. */
  lemma {:induction false} ReadWord(out: string, w: string, lower: string)
    requires 2 <= |w| && AllLetters(w) && ToLower(w) == lower
    requires forall i :: 0 < i < |lower| ==> FullLogicParser.Word(lower[..i]) == ""
    requires FullLogicParser.Word(lower) != ""
    ensures FullLogicParser.TranslateOver(FullLogicParser.Translator(out, ""), w) ==
      FullLogicParser.Translator(out + FullLogicParser.Word(lower), "")
  {
    var n := |w|;
    ReadPending(out, w, lower, n - 1);
    LowerPrefix(w, n - 1);
    assert w[..n] == w;
    Completed(out, w[..n - 1], w[n - 1]);
    FullLogicParser.TranslateOverAppend(FullLogicParser.Translator(out, ""), w[..n - 1], [w[n - 1]]);
  }

  /** A lowered lexeme that lacks a letter of each word holds no word. */
  lemma {:induction false} NoWord(x: string, kt: nat, kf: nat, ka: nat, ko: nat)
    requires kt < 4 && "true"[kt] !in x && kf < 5 && "false"[kf] !in x
    requires ka < 3 && "and"[ka] !in x && ko < 2 && "or"[ko] !in x
    ensures FullLogicParser.Word(x) == ""
  {
    Lacks(x, "true", kt);
    Lacks(x, "false", kf);
    Lacks(x, "and", ka);
    Lacks(x, "or", ko);
  }

  /** "true" is T, and none of its proper prefixes is a word. */
  lemma {:induction false} WordTrue()
    ensures FullLogicParser.Word("true") == "T"
    ensures forall i :: 0 < i < 4 ==> FullLogicParser.Word("true"[..i]) == ""
  {
    assert StartsWith("true", "true");
    NoWord("true"[..1], 1, 0, 0, 0);
    NoWord("true"[..2], 2, 0, 0, 0);
    NoWord("true"[..3], 3, 0, 0, 0);
  }

  /** "false" is F, and none of its proper prefixes is a word. */
  lemma {:induction false} WordFalse()
    ensures FullLogicParser.Word("false") == "F"
    ensures forall i :: 0 < i < 5 ==> FullLogicParser.Word("false"[..i]) == ""
  {
    assert StartsWith("false", "false");
    Lacks("false", "true", 0);
    FalsePrefixes();
  }

  /** No proper prefix of "false" is a word. */
  lemma {:induction false} FalsePrefixes()
    ensures forall i :: 0 < i < 5 ==> FullLogicParser.Word("false"[..i]) == ""
  {
    NoWord("false"[..1], 0, 1, 0, 0);
    NoWord("false"[..2], 0, 2, 1, 0);
    NoWord("false"[..3], 0, 3, 1, 0);
    NoWord("false"[..4], 0, 4, 1, 0);
  }

  /** "and" is &, and none of its proper prefixes is a word. */
  lemma {:induction false} WordAnd()
    ensures FullLogicParser.Word("and") == "&"
    ensures forall i :: 0 < i < 3 ==> FullLogicParser.Word("and"[..i]) == ""
  {
    assert StartsWith("and", "and");
    Lacks("and", "true", 0);
    Lacks("and", "false", 0);
    NoWord("and"[..1], 0, 0, 1, 0);
    NoWord("and"[..2], 0, 0, 2, 0);
  }

  /** "or" is |, and its one-letter prefix is no word. */
  lemma {:induction false} WordOr()
    ensures FullLogicParser.Word("or") == "|"
    ensures forall i :: 0 < i < 2 ==> FullLogicParser.Word("or"[..i]) == ""
  {
    assert StartsWith("or", "or");
    Lacks("or", "true", 0);
    Lacks("or", "false", 0);
    Lacks("or", "and", 0);
    NoWord("or"[..1], 0, 0, 0, 1);
  }

  /** A spelled literal translates to its upper-case letter. */
  lemma {:induction false} SpelledTranslates(out: string, v: bool, u: bool)
    ensures FullLogicParser.TranslateOver(FullLogicParser.Translator(out, ""), Spelled(v, u)) ==
      FullLogicParser.Translator(out + [Letter(v, true)], "")
  {
    SpelledLower(v, u);
    if v {
      WordTrue();
      ReadWord(out, Spelled(v, u), "true");
    } else {
      WordFalse();
      ReadWord(out, Spelled(v, u), "false");
    }
  }

  /** A spelled literal is all letters, and lowers to "true" or "false". */
  lemma {:induction false} SpelledLower(v: bool, u: bool)
    ensures 2 <= |Spelled(v, u)| && AllLetters(Spelled(v, u))
    ensures ToLower(Spelled(v, u)) == if v then "true" else "false"
  {
  }

  /** A space with no lexeme pending is dropped. */
  lemma {:induction false} SpaceDropped(out: string)
    ensures FullLogicParser.TranslateOver(FullLogicParser.Translator(out, ""), " ") == FullLogicParser.Translator(out, "")
  {
    FullLogicParser.ShortLexeme("");
    OneStep(FullLogicParser.Translator(out, ""), ' ');
  }

  /** A bracket with no lexeme pending is copied. */
  lemma {:induction false} BracketCopied(out: string, c: char)
    requires c == '(' || c == ')'
    ensures FullLogicParser.TranslateOver(FullLogicParser.Translator(out, ""), [c]) == FullLogicParser.Translator(out + [c], "")
  {
    OneStep(FullLogicParser.Translator(out, ""), c);
    FullLogicParser.OperatorStep(out, "", c);
  }

  /** " and " translates to '&' and " or " to '|': the spaces are dropped. */
  lemma {:induction false} SeparatorTranslates(out: string, c: bool)
    ensures FullLogicParser.TranslateOver(FullLogicParser.Translator(out, ""), Separator(c)) ==
      FullLogicParser.Translator(out + [Symbol(c)], "")
  {
    var word := Connective(c);
    if c {
      WordAnd();
    } else {
      WordOr();
    }
    var st := FullLogicParser.Translator(out, "");
    SpaceDropped(out);
    ReadWord(out, word, word);
    SpaceDropped(out + [Symbol(c)]);
    FullLogicParser.TranslateOverAppend(st, " ", word);
    FullLogicParser.TranslateOverAppend(st, " " + word, " ");
  }

  /** Five translations that each pick up where the previous one stopped make one translation of the joined text. */
  lemma {:induction false} TranslateChain(x1: string, x2: string, x3: string, x4: string, x5: string,
                       s0: FullLogicParser.Translator, s1: FullLogicParser.Translator, s2: FullLogicParser.Translator,
                       s3: FullLogicParser.Translator, s4: FullLogicParser.Translator, s5: FullLogicParser.Translator)
    requires FullLogicParser.TranslateOver(s0, x1) == s1 && FullLogicParser.TranslateOver(s1, x2) == s2
    requires FullLogicParser.TranslateOver(s2, x3) == s3 && FullLogicParser.TranslateOver(s3, x4) == s4
    requires FullLogicParser.TranslateOver(s4, x5) == s5
    ensures FullLogicParser.TranslateOver(s0, x1 + x2 + x3 + x4 + x5) == s5
  {
    FullLogicParser.TranslateOverAppend(s0, x1, x2);
    FullLogicParser.TranslateOverAppend(s0, x1 + x2, x3);
    FullLogicParser.TranslateOverAppend(s0, x1 + x2 + x3, x4);
    FullLogicParser.TranslateOverAppend(s0, x1 + x2 + x3 + x4, x5);
  }

  /** A bracketed operation whose operands translate to their short forms translates to the bracketed short operation. */
  lemma {:induction false} OperationTranslates(out: string, c: bool, vl: string, vr: string, pl: string, pr: string)
    requires FullLogicParser.TranslateOver(FullLogicParser.Translator(out + "(", ""), vl) ==
      FullLogicParser.Translator(out + "(" + pl, "")
    requires FullLogicParser.TranslateOver(FullLogicParser.Translator(out + "(" + pl + [Symbol(c)], ""), vr) ==
      FullLogicParser.Translator(out + "(" + pl + [Symbol(c)] + pr, "")
    ensures FullLogicParser.TranslateOver(FullLogicParser.Translator(out, ""), "(" + vl + Separator(c) + vr + ")") ==
      FullLogicParser.Translator(out + ("(" + pl + [Symbol(c)] + pr + ")"), "")
  {
    var o1 := out + "(";
    var o2 := o1 + pl;
    var o3 := o2 + [Symbol(c)];
    var o4 := o3 + pr;
    BracketCopied(out, '(');
    SeparatorTranslates(o2, c);
    BracketCopied(o4, ')');
    TranslateChain("(", vl, Separator(c), vr, ")",
      FullLogicParser.Translator(out, ""), FullLogicParser.Translator(o1, ""), FullLogicParser.Translator(o2, ""),
      FullLogicParser.Translator(o3, ""), FullLogicParser.Translator(o4, ""), FullLogicParser.Translator(o4 + ")", ""));
    Regroup(out, pl, Symbol(c), pr);
  }

  lemma {:induction false} Regroup(out: string, pl: string, op: char, pr: string)
    ensures out + "(" + pl + [op] + pr + ")" == out + ("(" + pl + [op] + pr + ")")
  {
  }

  /** The translation of a verbose term writes the short form of its upper-case version. */
  lemma {:induction false} VerboseTranslates(out: string, t: BTerm)
    ensures FullLogicParser.TranslateOver(FullLogicParser.Translator(out, ""), Verbose(t)) ==
      FullLogicParser.Translator(out + Print(Upper(t)), "")
    decreases t
  {
    match t
    case Lit(v, u) =>
      SpelledTranslates(out, v, u);
    case Op(c, l, r) =>
      var pl := Print(Upper(l));
      VerboseTranslates(out + "(", l);
      VerboseTranslates(out + "(" + pl + [Symbol(c)], r);
      OperationTranslates(out, c, Verbose(l), Verbose(r), pl, Print(Upper(r)));
  }

  /** convertExpressionWithFullOperatorsAndOperandsToShort of a verbose term is its short form, in upper case. */
  lemma {:induction false} TranslateOfVerbose(t: BTerm)
    ensures FullLogicParser.Translate(Verbose(t)) == Print(Upper(t))
    ensures FullLogicParser.Translate(StripWhitespace(Verbose(t))) == Print(Upper(t))
  {
    VerboseTranslates("", t);
    assert "" + Print(Upper(t)) == Print(Upper(t));
    FullLogicParser.TranslateStripped(Verbose(t));
  }

  /**
   * The full parser, before values are bound, answers the stored verbose term
   * (stored without its whitespace) with the term's value.
   */
  lemma {:induction false} FullResultOfVerbose(t: BTerm)
    ensures FullLogicParser.FullResult(StripWhitespace(Verbose(t)), false) == Ok(Value(t))
  {
    TranslateOfVerbose(t);
    LogicValueOfPrint(Upper(t));
  }
}
