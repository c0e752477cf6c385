// Arithmetic terms, their fully bracketed text and their value: the
// reference the evaluators are measured against. A term printed with a
// bracket around every operation is read back by the recursive-descent
// evaluator to exactly the term's value, division by zero included.

module Terms {
  import opened Errors
  import opened Text
  import Numbers
  import SimpleDescent
  import Converter
  import Postfix
  import MathParsing

  /** A natural-number literal or one binary operation on two terms. */
  datatype Term = Leaf(n: nat) | Bin(op: char, left: Term, right: Term)

  predicate IsOperator(c: char)
  {
    c == '+' || c == '-' || c == '*' || c == '/'
  }

  predicate WellFormed(t: Term)
  {
    match t
    case Leaf(_) => true
    case Bin(op, l, r) => IsOperator(op) && WellFormed(l) && WellFormed(r)
  }

  /** The term as text: digits for a literal, a bracket around every operation. */
  function Print(t: Term): (s: string)
    ensures |s| >= 1
  {
    match t
    case Leaf(n) => NatToString(n)
    case Bin(op, l, r) => "(" + Print(l) + [op] + Print(r) + ")"
  }

  /** Combines the values of two operands: the left error first, then the right one, then a zero divisor. */
  function Combine(op: char, a: Result<real>, b: Result<real>): (r: Result<real>)
    requires IsOperator(op)
    ensures r.Ok? <==> a.Ok? && b.Ok? && !(op == '/' && b.value == 0.0)
    ensures a.Err? ==> r == a
    ensures a.Ok? && b.Err? ==> r == b
    ensures a.Ok? && b.Ok? && op == '/' && b.value == 0.0 ==> r == Err(DivisionByZeroError)
  {
    if a.Err? then a
    else if b.Err? then b
    else if op == '/' && b.value == 0.0 then Err(DivisionByZeroError)
    else Ok(SimpleDescent.Arith(op, a.value, b.value))
  }

  /** The value of a term, left operand first. */
  function Eval(t: Term): Result<real>
    requires WellFormed(t)
  {
    match t
    case Leaf(n) => Ok(n as real)
    case Bin(op, l, r) => Combine(op, Eval(l), Eval(r))
  }

  /** A value paired with the cursor that follows it, or the error. */
  function Tagged(r: Result<real>, c: SimpleDescent.Cursor): Result<(real, SimpleDescent.Cursor)>
  {
    if r.Ok? then Ok((r.value, c)) else Err(r.error)
  }

  /** Only digits, brackets and operators appear in a printed term. */
  lemma {:induction false} PrintSymbols(t: Term)
    requires WellFormed(t)
    ensures forall k :: 0 <= k < |Print(t)| ==> IsDigit(Print(t)[k]) || SimpleDescent.IsDelimiter(Print(t)[k])
  {
    match t
    case Leaf(n) =>
    case Bin(op, l, r) =>
      PrintSymbols(l);
      PrintSymbols(r);
  }

  /** A printed term starts with a digit or an opening bracket. */
  lemma {:induction false} PrintStart(t: Term)
    ensures IsDigit(Print(t)[0]) <==> t.Leaf?
    ensures Print(t)[0] == '(' <==> t.Bin?
  {
  }

  // ------------------------------------------------ the recursive descent

  /** A run of non-delimiters from k up to j, then a delimiter or the end: DelimiterFrom stops at j. */
  lemma {:induction false} DelimiterFromRun(e: string, k: nat, j: nat)
    requires k <= j <= |e|
    requires forall m :: k <= m < j ==> !SimpleDescent.IsDelimiter(e[m])
    requires j == |e| || SimpleDescent.IsDelimiter(e[j])
    ensures SimpleDescent.DelimiterFrom(e, k) == j
    decreases j - k
  {
    if k < j {
      DelimiterFromRun(e, k + 1, j);
    }
  }

  /** A factor followed by a lexeme that is no operator is a whole sum. */
  lemma {:induction false} SumOfFactor(e: string, c0: SimpleDescent.Cursor, a: Result<real>, c1: SimpleDescent.Cursor)
    requires SimpleDescent.Consistent(e, c0) && SimpleDescent.Consistent(e, c1)
    requires SimpleDescent.Factor(e, c0) == Tagged(a, c1)
    requires c1.lexeme != [] && !IsOperator(c1.lexeme[0])
    ensures SimpleDescent.Sum(e, c0) == Tagged(a, c1)
  {
    if a.Ok? {
      SimpleDescent.ProductRestStops(e, a.value, c1);
      SimpleDescent.SumRestStops(e, a.value, c1);
    }
  }

  /** Two factors around '*' or '/', then a lexeme that is no operator: one sum, the product or quotient. */
  lemma {:induction false} SumOfProduct(e: string, op: char, c0: SimpleDescent.Cursor, a: Result<real>, c1: SimpleDescent.Cursor,
                     b: Result<real>, c2: SimpleDescent.Cursor)
    requires op == '*' || op == '/'
    requires SimpleDescent.Consistent(e, c0) && SimpleDescent.Consistent(e, c1) && SimpleDescent.Consistent(e, c2)
    requires SimpleDescent.Factor(e, c0) == Tagged(a, c1) && c1.lexeme == [op]
    requires a.Ok? ==> SimpleDescent.Factor(e, SimpleDescent.Lex(e, c1.index)) == Tagged(b, c2)
    requires c2.lexeme != [] && !IsOperator(c2.lexeme[0])
    ensures SimpleDescent.Sum(e, c0) == Tagged(Combine(op, a, b), c2)
  {
    if a.Ok? {
      SimpleDescent.ProductRestContinues(e, a.value, c1);
      if b.Ok? && !(op == '/' && b.value == 0.0) {
        var v := SimpleDescent.Arith(op, a.value, b.value);
        assert Combine(op, a, b) == Ok(v);
        SimpleDescent.ProductRestStops(e, v, c2);
        SimpleDescent.SumRestStops(e, v, c2);
      }
    }
  }

  /** Two factors around '+' or '-', then a lexeme that is no operator: one sum, the sum or difference. */
  lemma {:induction false} SumOfSum(e: string, op: char, c0: SimpleDescent.Cursor, a: Result<real>, c1: SimpleDescent.Cursor,
                 b: Result<real>, c2: SimpleDescent.Cursor)
    requires op == '+' || op == '-'
    requires SimpleDescent.Consistent(e, c0) && SimpleDescent.Consistent(e, c1) && SimpleDescent.Consistent(e, c2)
    requires SimpleDescent.Factor(e, c0) == Tagged(a, c1) && c1.lexeme == [op]
    requires a.Ok? ==> SimpleDescent.Factor(e, SimpleDescent.Lex(e, c1.index)) == Tagged(b, c2)
    requires c2.lexeme != [] && !IsOperator(c2.lexeme[0])
    ensures SimpleDescent.Sum(e, c0) == Tagged(Combine(op, a, b), c2)
  {
    if a.Ok? {
      SimpleDescent.ProductRestStops(e, a.value, c1);
      SimpleDescent.SumRestContinues(e, a.value, c1);
      if b.Ok? {
        SimpleDescent.ProductRestStops(e, b.value, c2);
        var v := SimpleDescent.Arith(op, a.value, b.value);
        assert Combine(op, a, b) == Ok(v);
        SimpleDescent.SumRestStops(e, v, c2);
      }
    }
  }

  /** Position j of a text holds a delimiter, or is its end. */
  predicate Followed(e: string, j: nat)
  {
    j == |e| || (j < |e| && SimpleDescent.IsDelimiter(e[j]))
  }

  /** The characters of d stand in e from position i on, one by one. */
  predicate Copied(e: string, i: nat, d: string)
    decreases d
  {
    if d == [] then i <= |e| else i < |e| && e[i] == d[0] && Copied(e, i + 1, d[1..])
  }

  /** A copy fits in the text and agrees with it position by position. */
  lemma {:induction false} CopiedAt(e: string, i: nat, d: string)
    requires Copied(e, i, d)
    ensures i + |d| <= |e|
    ensures forall k :: 0 <= k < |d| ==> e[i + k] == d[k]
    decreases d
  {
    if d != [] {
      CopiedAt(e, i + 1, d[1..]);
      forall k | 1 <= k < |d|
        ensures e[i + k] == d[k]
      {
        assert e[i + 1 + (k - 1)] == d[1..][k - 1];
      }
    }
  }

  /** The number of digits Integer.toString writes for n. */
  function DigitCount(n: nat): (k: nat)
    ensures k >= 1
  {
    if n < 10 then 1 else 1 + DigitCount(n / 10)
  }

  /** NatToString writes DigitCount(n) digits. */
  lemma {:induction false} NatToStringLength(n: nat)
    ensures |NatToString(n)| == DigitCount(n)
    decreases n
  {
    if n >= 10 {
      NatToStringLength(n / 10);
    }
  }

  /** The length of a printed term, counted without writing it. */
  function Width(t: Term): (w: nat)
    ensures w >= 1
  {
    match t
    case Leaf(n) => DigitCount(n)
    case Bin(_, l, r) => Width(l) + Width(r) + 3
  }

  /** Width counts the characters Print writes. */
  lemma {:induction false} WidthOfPrint(t: Term)
    ensures Width(t) == |Print(t)|
    decreases t
  {
    match t
    case Leaf(n) => NatToStringLength(n);
    case Bin(_, l, r) =>
      WidthOfPrint(l);
      WidthOfPrint(r);
  }

  /** Where a printed term sits in a text, piece by piece: the digits of a literal, the brackets and operator of an operation. */
  predicate Placed(e: string, i: nat, t: Term)
    decreases t
  {
    match t
    case Leaf(n) => Copied(e, i, NatToString(n))
    case Bin(op, l, r) =>
      var jl := i + 1 + Width(l);
      var jr := jl + 1 + Width(r);
      jr < |e| && e[i] == '(' && e[jl] == op && e[jr] == ')' && Placed(e, i + 1, l) && Placed(e, jl + 1, r)
  }

  /** A placed term fits in its text. */
  lemma {:induction false} PlacedFits(e: string, i: nat, t: Term)
    requires Placed(e, i, t)
    ensures i + Width(t) <= |e|
  {
    match t
    case Leaf(n) =>
      CopiedAt(e, i, NatToString(n));
      NatToStringLength(n);
    case Bin(op, l, r) =>
  }

  /** A literal is one NUMBER lexeme, read as its value. */
  lemma {:induction false} FactorOfLeaf(e: string, i: nat, n: nat, j: nat)
    requires Placed(e, i, Leaf(n)) && j == i + |NatToString(n)| && Followed(e, j)
    ensures SimpleDescent.Factor(e, SimpleDescent.Lex(e, i)) == Tagged(Ok(n as real), SimpleDescent.Lex(e, j))
  {
    var d := NatToString(n);
    CopiedAt(e, i, d);
    assert e[i] == d[0];
    forall m | i + 1 <= m < j
      ensures !SimpleDescent.IsDelimiter(e[m])
    {
      assert e[i + (m - i)] == d[m - i];
    }
    DelimiterFromRun(e, i + 1, j);
    var c := SimpleDescent.Lex(e, i);
    assert c.lexeme == d by {
      SimpleDescent.LexText(e, i);
      forall k | 0 <= k < |d|
        ensures e[i..j][k] == d[k]
      {
        assert e[i + k] == d[k];
      }
    }
    Numbers.ParseDoubleOfNatToString(n);
  }

  /** A literal term read from its first lexeme is its value. */
  lemma {:induction false} FactorOfLeafTerm(e: string, i: nat, n: nat)
    requires Placed(e, i, Leaf(n)) && Followed(e, i + Width(Leaf(n)))
    ensures SimpleDescent.Factor(e, SimpleDescent.Lex(e, i)) == Tagged(Eval(Leaf(n)), SimpleDescent.Lex(e, i + Width(Leaf(n))))
  {
    NatToStringLength(n);
    FactorOfLeaf(e, i, n, i + Width(Leaf(n)));
  }

  /** Two texts put around d: the middle one is copied into the whole. */
  lemma {:induction false} CopiedOfConcat(pre: string, d: string, post: string)
    ensures Copied(pre + d + post, |pre|, d)
    decreases d
  {
    if d != [] {
      Shifted(pre, d, post);
      CopiedOfConcat(pre + [d[0]], d[1..], post);
    }
  }

  /** Moving the first character of d from the middle text to the left one. */
  lemma {:induction false} Shifted(pre: string, d: string, post: string)
    requires d != []
    ensures pre + d + post == (pre + [d[0]]) + d[1..] + post
    ensures (pre + d + post)[|pre|] == d[0]
  {
    assert d == [d[0]] + d[1..];
  }

  /** A copy of a + b is a copy of a followed by a copy of b. */
  lemma {:induction false} CopiedSplit(e: string, i: nat, a: string, b: string)
    requires Copied(e, i, a + b)
    ensures Copied(e, i, a) && Copied(e, i + |a|, b)
    decreases a
  {
    if a == [] {
      assert a + b == b;
      CopiedAt(e, i, b);
    } else {
      assert (a + b)[0] == a[0] && (a + b)[1..] == a[1..] + b;
      CopiedSplit(e, i + 1, a[1..], b);
    }
  }

  /** The pieces of a copied operation text: its brackets, its operator and copies of its operands. */
  lemma {:induction false} CopiedBin(e: string, i: nat, pl: string, op: char, pr: string)
    requires Copied(e, i, "(" + pl + [op] + pr + ")")
    ensures i + 2 + |pl| + |pr| < |e|
    ensures e[i] == '(' && e[i + 1 + |pl|] == op && e[i + 2 + |pl| + |pr|] == ')'
    ensures Copied(e, i + 1, pl) && Copied(e, i + 2 + |pl|, pr)
  {
    CopiedSplit(e, i, "(" + pl + [op] + pr, ")");
    CopiedSplit(e, i, "(" + pl + [op], pr);
    CopiedSplit(e, i, "(" + pl, [op]);
    CopiedSplit(e, i, "(", pl);
  }

  /** An opening bracket, a placed operand, the operator, a placed operand and a closing bracket: the operation is placed. */
  lemma {:induction false} PlacedOfBin(e: string, i: nat, op: char, l: Term, r: Term)
    requires i + 2 + Width(l) + Width(r) < |e|
    requires e[i] == '(' && e[i + 1 + Width(l)] == op && e[i + 2 + Width(l) + Width(r)] == ')'
    requires Placed(e, i + 1, l) && Placed(e, i + 2 + Width(l), r)
    ensures Placed(e, i, Bin(op, l, r))
  {
  }

  /** A printed term copied into a text is placed there. */
  lemma {:induction false} PlacedOfCopied(e: string, i: nat, t: Term)
    requires Copied(e, i, Print(t))
    ensures Placed(e, i, t)
    decreases t
  {
    match t
    case Leaf(n) =>
    case Bin(op, l, r) =>
      CopiedBin(e, i, Print(l), op, Print(r));
      WidthOfPrint(l);
      WidthOfPrint(r);
      PlacedOfCopied(e, i + 1, l);
      PlacedOfCopied(e, i + 2 + Width(l), r);
      PlacedOfBin(e, i, op, l, r);
  }

  /** A delimiter is a lexeme of its own. */
  lemma {:induction false} LexDelimiter(e: string, j: nat)
    requires j < |e| && SimpleDescent.IsDelimiter(e[j])
    ensures SimpleDescent.Lex(e, j) == SimpleDescent.Cursor(j + 1, [e[j]], SimpleDescent.Delimiter)
  {
  }

  /** A bracketed sum is one factor, and the reader moves past the closing bracket. */
  lemma {:induction false} FactorOfBracketed(e: string, i: nat, jr: nat, v: Result<real>)
    requires i < jr < |e| && e[i] == '(' && e[jr] == ')'
    requires SimpleDescent.Sum(e, SimpleDescent.Lex(e, i + 1)) == Tagged(v, SimpleDescent.Lex(e, jr))
    ensures SimpleDescent.Factor(e, SimpleDescent.Lex(e, i)) == Tagged(v, SimpleDescent.Lex(e, jr + 1))
  {
    LexDelimiter(e, i);
    LexDelimiter(e, jr);
  }

  /** A factor, an operator at jl, a factor, and a closing bracket at jr: one sum of the combined value. */
  lemma {:induction false} SumOfBinary(e: string, c0: SimpleDescent.Cursor, jl: nat, jr: nat, op: char, a: Result<real>, b: Result<real>)
    requires jl < jr < |e| && e[jl] == op && e[jr] == ')' && IsOperator(op)
    requires SimpleDescent.Consistent(e, c0)
    requires SimpleDescent.Factor(e, c0) == Tagged(a, SimpleDescent.Lex(e, jl))
    requires a.Ok? ==> SimpleDescent.Factor(e, SimpleDescent.Lex(e, jl + 1)) == Tagged(b, SimpleDescent.Lex(e, jr))
    ensures SimpleDescent.Sum(e, c0) == Tagged(Combine(op, a, b), SimpleDescent.Lex(e, jr))
  {
    LexDelimiter(e, jl);
    LexDelimiter(e, jr);
    if op == '*' || op == '/' {
      SumOfProduct(e, op, c0, a, SimpleDescent.Lex(e, jl), b, SimpleDescent.Lex(e, jr));
    } else {
      SumOfSum(e, op, c0, a, SimpleDescent.Lex(e, jl), b, SimpleDescent.Lex(e, jr));
    }
  }

  /** An opening bracket, a factor, an operator, a factor and a closing bracket: a factor of the combined value. */
  lemma {:induction false} FactorOfBracket(e: string, i: nat, jl: nat, jr: nat, op: char, a: Result<real>, b: Result<real>)
    requires i < jl < jr < |e| && e[i] == '(' && e[jl] == op && e[jr] == ')' && IsOperator(op)
    requires SimpleDescent.Factor(e, SimpleDescent.Lex(e, i + 1)) == Tagged(a, SimpleDescent.Lex(e, jl))
    requires a.Ok? ==> SimpleDescent.Factor(e, SimpleDescent.Lex(e, jl + 1)) == Tagged(b, SimpleDescent.Lex(e, jr))
    ensures SimpleDescent.Factor(e, SimpleDescent.Lex(e, i)) == Tagged(Combine(op, a, b), SimpleDescent.Lex(e, jr + 1))
  {
    SumOfBinary(e, SimpleDescent.Lex(e, i + 1), jl, jr, op, a, b);
    FactorOfBracketed(e, i, jr, Combine(op, a, b));
  }

  /** An operation placed at i: its operands sit between the brackets, each followed by a delimiter. */
  lemma {:induction false} PlacedParts(e: string, i: nat, op: char, l: Term, r: Term)
    requires WellFormed(Bin(op, l, r)) && Placed(e, i, Bin(op, l, r))
    ensures IsOperator(op) && WellFormed(l) && WellFormed(r)
    ensures Eval(Bin(op, l, r)) == Combine(op, Eval(l), Eval(r))
    ensures var jl := i + 1 + Width(l); var jr := jl + 1 + Width(r);
      i < jl < jr < |e| && e[i] == '(' && e[jl] == op && e[jr] == ')' && i + Width(Bin(op, l, r)) == jr + 1 &&
      Placed(e, i + 1, l) && Placed(e, jl + 1, r) && Followed(e, jl) && Followed(e, jr)
  {
  }

  /**
   * The crosscheck of evaluateInsideBrackets and its callers: a printed term
   * read from its first lexeme is the term's value, and the reader stops on
   * the lexeme after it.
   */
  lemma {:induction false} FactorOfPrint(e: string, i: nat, t: Term)
    requires WellFormed(t) && Placed(e, i, t) && Followed(e, i + Width(t))
    ensures SimpleDescent.Factor(e, SimpleDescent.Lex(e, i)) == Tagged(Eval(t), SimpleDescent.Lex(e, i + Width(t)))
    decreases t, 2
  {
    match t
    case Leaf(n) =>
      FactorOfLeafTerm(e, i, n);
    case Bin(op, l, r) =>
      FactorOfBinTerm(e, i, op, l, r);
  }

  /** The operation case of FactorOfPrint: both operands first, then the brackets around them. */
  lemma {:induction false} FactorOfBinTerm(e: string, i: nat, op: char, l: Term, r: Term)
    requires WellFormed(Bin(op, l, r)) && Placed(e, i, Bin(op, l, r)) && Followed(e, i + Width(Bin(op, l, r)))
    ensures SimpleDescent.Factor(e, SimpleDescent.Lex(e, i)) ==
      Tagged(Eval(Bin(op, l, r)), SimpleDescent.Lex(e, i + Width(Bin(op, l, r))))
    decreases Bin(op, l, r), 1
  {
    PlacedParts(e, i, op, l, r);
    FactorOfOperands(e, i, i + 1 + Width(l), i + 1 + Width(l) + 1 + Width(r), op, l, r);
  }

  /** FactorOfBinTerm once the operands' places are known: each operand is read, then the brackets close. */
  lemma {:induction false} FactorOfOperands(e: string, i: nat, jl: nat, jr: nat, op: char, l: Term, r: Term)
    requires IsOperator(op) && WellFormed(l) && WellFormed(r)
    requires jl == i + 1 + Width(l) && jr == jl + 1 + Width(r) && jr < |e|
    requires e[i] == '(' && e[jl] == op && e[jr] == ')'
    requires Placed(e, i + 1, l) && Placed(e, jl + 1, r) && Followed(e, jl) && Followed(e, jr)
    ensures SimpleDescent.Factor(e, SimpleDescent.Lex(e, i)) == Tagged(Combine(op, Eval(l), Eval(r)), SimpleDescent.Lex(e, jr + 1))
    decreases Bin(op, l, r), 0
  {
    FactorOfPrint(e, i + 1, l);
    FactorOfPrint(e, jl + 1, r);
    FactorOfBracket(e, i, jl, jr, op, Eval(l), Eval(r));
  }

  /** A printed term has no whitespace, so stripping keeps it whole. */
  lemma {:induction false} PrintStripped(t: Term)
    requires WellFormed(t)
    ensures StripWhitespace(Print(t)) == Print(t)
  {
    PrintSymbols(t);
    StripWhitespaceKeepsStripped(Print(t));
  }

  /** A printed term is placed in its own text. */
  lemma {:induction false} PlacedOfPrint(t: Term)
    ensures Placed(Print(t), 0, t)
  {
    CopiedOfConcat("", Print(t), "");
    assert "" + Print(t) + "" == Print(t);
    PlacedOfCopied(Print(t), 0, t);
  }

  /** A printed term read on its own is one factor that runs to the end of the text. */
  lemma {:induction false} FactorOfWholePrint(t: Term)
    requires WellFormed(t)
    ensures var e := Print(t);
      SimpleDescent.Factor(e, SimpleDescent.Lex(e, 0)) == Tagged(Eval(t), SimpleDescent.Lex(e, |e|))
  {
    PlacedOfPrint(t);
    WidthOfPrint(t);
    FactorOfPlaced(Print(t), t);
  }

  /** A term placed over a whole text is one factor that runs to its end. */
  lemma {:induction false} FactorOfPlaced(e: string, t: Term)
    requires WellFormed(t) && Placed(e, 0, t) && Width(t) == |e|
    ensures SimpleDescent.Factor(e, SimpleDescent.Lex(e, 0)) == Tagged(Eval(t), SimpleDescent.Lex(e, |e|))
  {
    FactorOfPrint(e, 0, t);
  }

  /** A text that is one factor from start to end is one sum from start to end. */
  lemma {:induction false} SumOfWholeFactor(e: string, v: Result<real>)
    requires e != []
    requires SimpleDescent.Factor(e, SimpleDescent.Lex(e, 0)) == Tagged(v, SimpleDescent.Lex(e, |e|))
    ensures SimpleDescent.Sum(e, SimpleDescent.Lex(e, 0)) == Tagged(v, SimpleDescent.Lex(e, |e|))
  {
    var end := SimpleDescent.Lex(e, |e|);
    assert end.lexeme == SimpleDescent.EOE;
    SumOfFactor(e, SimpleDescent.Lex(e, 0), v, end);
  }

  /** A text without whitespace that is one sum from its first lexeme to the end: getExpressionResult gives the sum. */
  lemma {:induction false} DescentOfSum(e: string, v: Result<real>)
    requires NoWhitespace(e)
    requires SimpleDescent.Lex(e, 0).lexeme != SimpleDescent.EOE
    requires SimpleDescent.Sum(e, SimpleDescent.Lex(e, 0)) == Tagged(v, SimpleDescent.Lex(e, |e|))
    ensures SimpleDescent.DescentResult(e, 0) == v
  {
    SimpleDescent.DescentResultStripped(e);
    assert SimpleDescent.Lex(e, |e|).lexeme == SimpleDescent.EOE;
  }

  /** A text without whitespace that is one factor from start to end: getExpressionResult gives the factor's value. */
  lemma {:induction false} DescentOfFactor(e: string, v: Result<real>)
    requires StripWhitespace(e) == e && e != [] && (IsDigit(e[0]) || e[0] == '(')
    requires SimpleDescent.Factor(e, SimpleDescent.Lex(e, 0)) == Tagged(v, SimpleDescent.Lex(e, |e|))
    ensures SimpleDescent.DescentResult(e, 0) == v
  {
    assert SimpleDescent.Lex(e, 0).lexeme != SimpleDescent.EOE by {
      SimpleDescent.LexText(e, 0);
      assert SimpleDescent.Lex(e, 0).lexeme[0] == e[0];
    }
    SumOfWholeFactor(e, v);
    DescentOfSum(e, v);
  }

  /** getExpressionResult of a fresh parser on a printed term is the term's value, or its error. */
  lemma {:induction false} DescentOfPrint(t: Term)
    requires WellFormed(t)
    ensures SimpleDescent.DescentResult(Print(t), 0) == Eval(t)
  {
    FactorOfWholePrint(t);
    PrintStripped(t);
    PrintStart(t);
    DescentOfFactor(Print(t), Eval(t));
  }

  // ------------------------------------------------ conversion and the postfix scan

  /** The postfix text the converter writes for a printed term: a space before each right operand. */
  function Post(t: Term): string
  {
    match t
    case Leaf(n) => NatToString(n)
    case Bin(op, l, r) => Post(l) + " " + Post(r) + [op]
  }

  /** A printed term ends with a digit or a closing bracket. */
  lemma {:induction false} PrintEnd(t: Term)
    ensures IsDigit(Print(t)[|Print(t)| - 1]) || Print(t)[|Print(t)| - 1] == ')'
  {
  }

  lemma {:induction false} OneCharNoDoubleMinus(c: char)
    ensures !Contains([c], "--")
  {
    assert [c][1..] == [];
  }

  /** Every '-' in a printed term is followed by a digit or a bracket, so the unary rewrite leaves it alone. */
  lemma {:induction false} PrintNoDoubleMinus(t: Term)
    ensures !Contains(Print(t), "--")
    decreases t
  {
    match t
    case Leaf(n) =>
      Converter.NoMinusNoDoubleMinus(NatToString(n));
    case Bin(op, l, r) =>
      PrintNoDoubleMinus(l);
      PrintNoDoubleMinus(r);
      PrintStart(l);
      PrintStart(r);
      PrintEnd(l);
      OneCharNoDoubleMinus('(');
      OneCharNoDoubleMinus(op);
      OneCharNoDoubleMinus(')');
      var a := "(" + Print(l);
      Converter.NoDoubleMinusAppend("(", Print(l));
      Converter.NoDoubleMinusAppend(a, [op]);
      Converter.NoDoubleMinusAppend(a + [op], Print(r));
      Converter.NoDoubleMinusAppend(a + [op] + Print(r), ")");
  }

  /** The shunting-yard scan over a printed term writes its postfix text and leaves the stack as it was. */
  lemma {:induction false} RunOfPrint(t: Term, out: string, stack: seq<char>)
    requires WellFormed(t)
    ensures Converter.Run(MathParsing.MathPriority, Print(t), Converter.State(out, stack)) ==
      Ok(Converter.State(out + Post(t), stack))
    decreases t, 1
  {
    match t
    case Leaf(n) =>
      Converter.RunOperandChars(MathParsing.MathPriority, NatToString(n), Converter.State(out, stack));
    case Bin(op, l, r) =>
      RunOfBinTerm(op, l, r, out, stack);
  }

  /** The operation case of RunOfPrint: the scan over each operand, joined by the three bracket and operator steps. */
  lemma {:induction false} RunOfBinTerm(op: char, l: Term, r: Term, out: string, stack: seq<char>)
    requires WellFormed(Bin(op, l, r))
    ensures Converter.Run(MathParsing.MathPriority, Print(Bin(op, l, r)), Converter.State(out, stack)) ==
      Ok(Converter.State(out + Post(Bin(op, l, r)), stack))
    decreases Bin(op, l, r), 0
  {
    RunOfPrint(l, out, stack + ['(']);
    RunOfPrint(r, out + Post(l) + " ", stack + ['('] + [op]);
    Converter.RunOfBracketed(MathParsing.MathPriority, op, Print(l), Print(r), Post(l), Post(r), out, stack);
    assert Print(Bin(op, l, r)) == "(" + Print(l) + [op] + Print(r) + ")";
    assert Post(Bin(op, l, r)) == Post(l) + " " + Post(r) + [op];
  }

  /** expressionToReversePolishNotation of a printed term is its postfix text. */
  lemma {:induction false} ToReversePolishOfPrint(t: Term)
    requires WellFormed(t)
    ensures Converter.ToReversePolish(MathParsing.MathPriority, Print(t)) == Ok(Post(t))
  {
    PrintStart(t);
    PrintNoDoubleMinus(t);
    assert Converter.Prepared(Print(t)) == Print(t);
    RunOfPrint(t, "", []);
    assert "" + Post(t) == Post(t);
  }

  /** A value pushed onto the operand stack, or the error. */
  function Pushed(stack: seq<real>, x: Result<real>): Result<Postfix.Scan<real>>
  {
    if x.Ok? then Ok(Postfix.Scan(stack + [x.value], "")) else Err(x.error)
  }

  /** Two postfix operands, a space between them, then an operator: the operator's value is pushed. */
  lemma {:induction false} ScannedBinary(lib: MathParsing.MathLib, fns: MathParsing.ClientFunctions, a: string, b: string, op: char,
                      stack: seq<real>, x: Result<real>, y: Result<real>)
    requires IsOperator(op)
    requires Postfix.Scanned(MathParsing.MathMachine(lib, fns), a, Postfix.Scan(stack, "")) == Pushed(stack, x)
    requires x.Ok? ==>
      Postfix.Scanned(MathParsing.MathMachine(lib, fns), b, Postfix.Scan(stack + [x.value], "")) == Pushed(stack + [x.value], y)
    ensures Postfix.Scanned(MathParsing.MathMachine(lib, fns), a + " " + b + [op], Postfix.Scan(stack, "")) ==
      Pushed(stack, Combine(op, x, y))
  {
    var m := MathParsing.MathMachine(lib, fns);
    if x.Ok? {
      ScannedRightOperand(lib, fns, a, b, op, stack, x.value, y);
    } else {
      assert a + " " + b + [op] == a + (" " + (b + [op]));
      Postfix.ScannedAppend(m, a, " " + (b + [op]), Postfix.Scan(stack, ""));
    }
  }

  /** ScannedBinary once the left operand is a value. */
  lemma {:induction false} ScannedRightOperand(lib: MathParsing.MathLib, fns: MathParsing.ClientFunctions, a: string, b: string, op: char,
                            stack: seq<real>, x: real, y: Result<real>)
    requires IsOperator(op)
    requires Postfix.Scanned(MathParsing.MathMachine(lib, fns), a, Postfix.Scan(stack, "")) == Ok(Postfix.Scan(stack + [x], ""))
    requires Postfix.Scanned(MathParsing.MathMachine(lib, fns), b, Postfix.Scan(stack + [x], "")) == Pushed(stack + [x], y)
    ensures Postfix.Scanned(MathParsing.MathMachine(lib, fns), a + " " + b + [op], Postfix.Scan(stack, "")) ==
      Pushed(stack, Combine(op, Ok(x), y))
  {
    var m := MathParsing.MathMachine(lib, fns);
    Postfix.ScannedThenOperator(m, a, b, op, Postfix.Scan(stack, ""), Postfix.Scan(stack + [x], ""));
    if y.Ok? {
      ScannedApplied(lib, fns, op, stack, x, y.value);
    }
  }

  /** An operator on two pushed values: their combination replaces them. */
  lemma {:induction false} ScannedApplied(lib: MathParsing.MathLib, fns: MathParsing.ClientFunctions, op: char, stack: seq<real>, x: real, y: real)
    requires IsOperator(op)
    ensures Postfix.Scanned(MathParsing.MathMachine(lib, fns), [op], Postfix.Scan(stack + [x] + [y], "")) ==
      Pushed(stack, Combine(op, Ok(x), Ok(y)))
  {
    var m := MathParsing.MathMachine(lib, fns);
    var st := stack + [x] + [y];
    Postfix.ScannedOperator(m, op, st);
    assert st[..|st| - 2] == stack;
    assert m.apply(op, x, y) == MathParsing.MathApply(op, x, y);
  }

  /** The postfix scan of a term's text pushes the term's value, or stops at its first error. */
  lemma {:induction false} ScannedOfPost(lib: MathParsing.MathLib, fns: MathParsing.ClientFunctions, t: Term, stack: seq<real>)
    requires WellFormed(t)
    ensures Postfix.Scanned(MathParsing.MathMachine(lib, fns), Post(t), Postfix.Scan(stack, "")) == Pushed(stack, Eval(t))
    decreases t
  {
    match t
    case Leaf(n) =>
      var m := MathParsing.MathMachine(lib, fns);
      var d := NatToString(n);
      Postfix.ScannedOperand(m, d, stack, "");
      assert "" + d == d;
      Numbers.ParseDoubleOfNatToString(n);
      assert m.resolve(d) == Ok(n as real);
    case Bin(op, l, r) =>
      ScannedOfPost(lib, fns, l, stack);
      if Eval(l).Ok? {
        ScannedOfPost(lib, fns, r, stack + [Eval(l).value]);
      }
      ScannedBinary(lib, fns, Post(l), Post(r), op, stack, Eval(l), Eval(r));
  }

  /** The conversion followed by the postfix evaluation gives a printed term its value, or its error. */
  lemma {:induction false} ExpressionValueOfPrint(lib: MathParsing.MathLib, fns: MathParsing.ClientFunctions, t: Term)
    requires WellFormed(t)
    ensures MathParsing.ExpressionValue(lib, fns, Print(t)) == Eval(t)
  {
    ToReversePolishOfPrint(t);
    ScannedOfPost(lib, fns, t, []);
    var m := MathParsing.MathMachine(lib, fns);
    assert MathParsing.ExpressionValue(lib, fns, Print(t)) == Postfix.Evaluate(m, Post(t));
    if Eval(t).Ok? {
      assert [] + [Eval(t).value] == [Eval(t).value];
    }
  }

  /** Both evaluators agree on every printed term. */
  lemma {:induction false} EvaluatorsAgree(lib: MathParsing.MathLib, fns: MathParsing.ClientFunctions, t: Term)
    requires WellFormed(t)
    ensures MathParsing.ExpressionValue(lib, fns, Print(t)) == SimpleDescent.DescentResult(Print(t), 0)
  {
    ExpressionValueOfPrint(lib, fns, t);
    DescentOfPrint(t);
  }
}
