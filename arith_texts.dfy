// Unbracketed arithmetic as the first recursive-descent evaluator reads it.
// A text of operands joined by '+', '-', '*' and '/' is a sum of products:
// '*' and '/' bind first, and each level groups from left to right. The
// operands are printed terms (a literal, or a bracketed operation), so
// brackets inside an operand are covered too.

module ArithTexts {
  import opened Errors
  import opened Text
  import Numbers
  import S = SimpleDescent
  import opened Terms

  predicate IsMultiplicative(c: char) { c == '*' || c == '/' }

  predicate IsAdditive(c: char) { c == '+' || c == '-' }

  /** An operator and the operand written after it. */
  datatype Link = Link(op: char, operand: Term)

  /** Operands joined by '*' and '/'. */
  datatype Product = Product(head: Term, tail: seq<Link>)

  /** An operator and the product written after it. */
  datatype SumLink = SumLink(op: char, operand: Product)

  /** Products joined by '+' and '-': a text with no bracket around its top-level operations. */
  datatype Sum = Sum(head: Product, tail: seq<SumLink>)

  predicate LinksOk(links: seq<Link>)
  {
    forall k :: 0 <= k < |links| ==> IsMultiplicative(links[k].op) && WellFormed(links[k].operand)
  }

  predicate ProductOk(p: Product)
  {
    WellFormed(p.head) && LinksOk(p.tail)
  }

  predicate SumLinksOk(ls: seq<SumLink>)
  {
    forall k :: 0 <= k < |ls| ==> IsAdditive(ls[k].op) && ProductOk(ls[k].operand)
  }

  predicate SumOk(s: Sum)
  {
    ProductOk(s.head) && SumLinksOk(s.tail)
  }

  function LinksText(links: seq<Link>): string
  {
    if links == [] then [] else [links[0].op] + Print(links[0].operand) + LinksText(links[1..])
  }

  function ProductText(p: Product): string
  {
    Print(p.head) + LinksText(p.tail)
  }

  function SumLinksText(ls: seq<SumLink>): string
  {
    if ls == [] then [] else [ls[0].op] + ProductText(ls[0].operand) + SumLinksText(ls[1..])
  }

  /** The text: operands and operators side by side, no bracket added. */
  function SumText(s: Sum): string
  {
    ProductText(s.head) + SumLinksText(s.tail)
  }

  /** Left to right: each operator takes everything grouped so far as its left operand. */
  function Fold(acc: Term, links: seq<Link>): Term
    decreases |links|
  {
    if links == [] then acc else Fold(Bin(links[0].op, acc, links[0].operand), links[1..])
  }

  function ProductTerm(p: Product): Term
  {
    Fold(p.head, p.tail)
  }

  function SumFold(acc: Term, ls: seq<SumLink>): Term
    decreases |ls|
  {
    if ls == [] then acc else SumFold(Bin(ls[0].op, acc, ProductTerm(ls[0].operand)), ls[1..])
  }

  /** The grouping the grammar gives: products first, then the sum, each from left to right. */
  function SumTerm(s: Sum): Term
  {
    SumFold(ProductTerm(s.head), s.tail)
  }

  // ------------------------------------------------ well-formedness and errors

  lemma {:induction false} LinksOkTail(links: seq<Link>)
    requires links != [] && LinksOk(links)
    ensures IsMultiplicative(links[0].op) && WellFormed(links[0].operand) && LinksOk(links[1..])
  {
    forall k | 0 <= k < |links[1..]|
      ensures IsMultiplicative(links[1..][k].op) && WellFormed(links[1..][k].operand)
    {
      assert links[1..][k] == links[k + 1];
    }
  }

  lemma {:induction false} SumLinksOkTail(ls: seq<SumLink>)
    requires ls != [] && SumLinksOk(ls)
    ensures IsAdditive(ls[0].op) && ProductOk(ls[0].operand) && SumLinksOk(ls[1..])
  {
    forall k | 0 <= k < |ls[1..]|
      ensures IsAdditive(ls[1..][k].op) && ProductOk(ls[1..][k].operand)
    {
      assert ls[1..][k] == ls[k + 1];
    }
  }

  lemma {:induction false} FoldWellFormed(acc: Term, links: seq<Link>)
    requires WellFormed(acc) && LinksOk(links)
    ensures WellFormed(Fold(acc, links))
    decreases |links|
  {
    if links != [] {
      LinksOkTail(links);
      FoldWellFormed(Bin(links[0].op, acc, links[0].operand), links[1..]);
    }
  }

  lemma {:induction false} SumFoldWellFormed(acc: Term, ls: seq<SumLink>)
    requires WellFormed(acc) && SumLinksOk(ls)
    ensures WellFormed(SumFold(acc, ls))
    decreases |ls|
  {
    if ls != [] {
      SumLinksOkTail(ls);
      FoldWellFormed(ls[0].operand.head, ls[0].operand.tail);
      SumFoldWellFormed(Bin(ls[0].op, acc, ProductTerm(ls[0].operand)), ls[1..]);
    }
  }

  /** An error in what is grouped so far is the error of the whole product. */
  lemma {:induction false} FoldErr(acc: Term, links: seq<Link>)
    requires WellFormed(acc) && LinksOk(links) && Eval(acc).Err?
    ensures WellFormed(Fold(acc, links)) && Eval(Fold(acc, links)) == Eval(acc)
    decreases |links|
  {
    FoldWellFormed(acc, links);
    if links != [] {
      LinksOkTail(links);
      var b := Bin(links[0].op, acc, links[0].operand);
      assert Eval(b) == Eval(acc);
      FoldErr(b, links[1..]);
    }
  }

  /** An error in what is grouped so far is the error of the whole sum. */
  lemma {:induction false} SumFoldErr(acc: Term, ls: seq<SumLink>)
    requires WellFormed(acc) && SumLinksOk(ls) && Eval(acc).Err?
    ensures WellFormed(SumFold(acc, ls)) && Eval(SumFold(acc, ls)) == Eval(acc)
    decreases |ls|
  {
    SumFoldWellFormed(acc, ls);
    if ls != [] {
      SumLinksOkTail(ls);
      FoldWellFormed(ls[0].operand.head, ls[0].operand.tail);
      var b := Bin(ls[0].op, acc, ProductTerm(ls[0].operand));
      assert Eval(b) == Eval(acc);
      SumFoldErr(b, ls[1..]);
    }
  }

  // ------------------------------------------------ where the pieces stand in the text

  /** Position j ends a product: the end of the text, or an operator that is no '*' or '/'. */
  predicate EndsProductAt(e: string, j: nat)
  {
    j == |e| || (j < |e| && S.IsDelimiter(e[j]) && !IsMultiplicative(e[j]))
  }

  /** The length of the links' text, counted without writing it. */
  function LinksWidth(links: seq<Link>): nat
    decreases |links|
  {
    if links == [] then 0 else 1 + Width(links[0].operand) + LinksWidth(links[1..])
  }

  function ProductWidth(p: Product): nat
  {
    Width(p.head) + LinksWidth(p.tail)
  }

  function SumLinksWidth(ls: seq<SumLink>): nat
    decreases |ls|
  {
    if ls == [] then 0 else 1 + ProductWidth(ls[0].operand) + SumLinksWidth(ls[1..])
  }

  /** Each operator of the links at its position, each operand placed after it, and the product ends after the last. */
  predicate LinksAt(e: string, i: nat, links: seq<Link>)
    decreases |links|
  {
    if links == [] then EndsProductAt(e, i)
    else
      i < |e| && e[i] == links[0].op && Placed(e, i + 1, links[0].operand) &&
      LinksAt(e, i + 1 + Width(links[0].operand), links[1..])
  }

  /** A product placed from position i: its first operand, then its links. */
  predicate ProductAt(e: string, i: nat, p: Product)
  {
    Placed(e, i, p.head) && LinksAt(e, i + Width(p.head), p.tail)
  }

  /** Each operator of the sum links at its position, each product placed after it, and the text ends after the last. */
  predicate SumLinksAt(e: string, i: nat, ls: seq<SumLink>)
    decreases |ls|
  {
    if ls == [] then i == |e|
    else
      i < |e| && e[i] == ls[0].op && ProductAt(e, i + 1, ls[0].operand) &&
      SumLinksAt(e, i + 1 + ProductWidth(ls[0].operand), ls[1..])
  }

  // ------------------------------------------------ from the text to the places

  /** The first link of a copied list: its operator, then a copy of its operand, then a copy of the rest. */
  lemma {:induction false} CopiedLinks(e: string, i: nat, links: seq<Link>)
    requires links != [] && Copied(e, i, LinksText(links))
    ensures i < |e| && e[i] == links[0].op
    ensures Copied(e, i + 1, Print(links[0].operand))
    ensures Copied(e, i + 1 + |Print(links[0].operand)|, LinksText(links[1..]))
    ensures |LinksText(links)| == 1 + |Print(links[0].operand)| + |LinksText(links[1..])|
  {
    CopiedLink(e, i, links[0].op, Print(links[0].operand), LinksText(links[1..]));
  }

  /** The first link of a copied list of sum links: its operator, then a copy of its product, then a copy of the rest. */
  lemma {:induction false} CopiedSumLinks(e: string, i: nat, ls: seq<SumLink>)
    requires ls != [] && Copied(e, i, SumLinksText(ls))
    ensures i < |e| && e[i] == ls[0].op
    ensures Copied(e, i + 1, ProductText(ls[0].operand))
    ensures Copied(e, i + 1 + |ProductText(ls[0].operand)|, SumLinksText(ls[1..]))
    ensures |SumLinksText(ls)| == 1 + |ProductText(ls[0].operand)| + |SumLinksText(ls[1..])|
  {
    CopiedLink(e, i, ls[0].op, ProductText(ls[0].operand), SumLinksText(ls[1..]));
  }

  /** A copy of an operator, an operand and a rest splits into the three. */
  lemma {:induction false} CopiedLink(e: string, i: nat, op: char, d: string, rest: string)
    requires Copied(e, i, [op] + d + rest)
    ensures i < |e| && e[i] == op
    ensures Copied(e, i + 1, d) && Copied(e, i + 1 + |d|, rest)
  {
    CopiedSplit(e, i, [op] + d, rest);
    CopiedSplit(e, i, [op], d);
  }

  /** A copied list of links is placed, and its width is the length of its text. */
  lemma {:induction false} LinksPlaced(e: string, i: nat, links: seq<Link>)
    requires LinksOk(links) && Copied(e, i, LinksText(links)) && EndsProductAt(e, i + |LinksText(links)|)
    ensures LinksAt(e, i, links) && LinksWidth(links) == |LinksText(links)|
    decreases |links|
  {
    if links != [] {
      LinksOkTail(links);
      CopiedLinks(e, i, links);
      PlacedOfCopied(e, i + 1, links[0].operand);
      WidthOfPrint(links[0].operand);
      LinksPlaced(e, i + 1 + |Print(links[0].operand)|, links[1..]);
    }
  }

  /** A copied product is placed, and its width is the length of its text. */
  lemma {:induction false} ProductPlaced(e: string, i: nat, p: Product)
    requires ProductOk(p) && Copied(e, i, ProductText(p)) && EndsProductAt(e, i + |ProductText(p)|)
    ensures ProductAt(e, i, p) && ProductWidth(p) == |ProductText(p)|
  {
    CopiedSplit(e, i, Print(p.head), LinksText(p.tail));
    PlacedOfCopied(e, i, p.head);
    WidthOfPrint(p.head);
    LinksPlaced(e, i + |Print(p.head)|, p.tail);
  }

  /** A copied list of sum links that runs to the end of the text is placed, and its width is the length of its text. */
  lemma {:induction false} SumLinksPlaced(e: string, i: nat, ls: seq<SumLink>)
    requires SumLinksOk(ls) && Copied(e, i, SumLinksText(ls)) && i + |SumLinksText(ls)| == |e|
    ensures SumLinksAt(e, i, ls) && SumLinksWidth(ls) == |SumLinksText(ls)|
    decreases |ls|
  {
    if ls != [] {
      SumLinksOkTail(ls);
      CopiedSumLinks(e, i, ls);
      var j := i + 1 + |ProductText(ls[0].operand)|;
      SumLinksFollowed(e, j, ls[1..]);
      ProductPlaced(e, i + 1, ls[0].operand);
      SumLinksPlaced(e, j, ls[1..]);
    }
  }

  /** What follows a product inside a sum: a '+' or '-' of the sum links, or the end of the text. */
  lemma {:induction false} SumLinksFollowed(e: string, j: nat, ls: seq<SumLink>)
    requires SumLinksOk(ls) && Copied(e, j, SumLinksText(ls)) && j + |SumLinksText(ls)| == |e|
    ensures EndsProductAt(e, j)
  {
    if ls != [] {
      SumLinksOkTail(ls);
      CopiedSumLinks(e, j, ls);
    }
  }

  /** A sum copied into a text up to its end: its first product placed where it starts, then its sum links. */
  lemma {:induction false} SumPlaced(e: string, i: nat, s: Sum)
    requires SumOk(s) && Copied(e, i, SumText(s)) && i + |SumText(s)| == |e|
    ensures ProductAt(e, i, s.head) && SumLinksAt(e, i + ProductWidth(s.head), s.tail)
  {
    CopiedSplit(e, i, ProductText(s.head), SumLinksText(s.tail));
    var j := i + |ProductText(s.head)|;
    SumLinksFollowed(e, j, s.tail);
    ProductPlaced(e, i, s.head);
    SumLinksPlaced(e, j, s.tail);
  }

  // ------------------------------------------------ the two loops

  /** What follows an operand inside a product: a '*' or '/' of the links, or what ends the product. */
  lemma {:induction false} LinksFollowed(e: string, j: nat, links: seq<Link>)
    requires LinksOk(links) && LinksAt(e, j, links)
    ensures Followed(e, j)
  {
  }

  /** What follows a product inside a sum: a '+' or '-' of the sum links, or the end of the text. */
  lemma {:induction false} SumLinksEnd(e: string, j: nat, ls: seq<SumLink>)
    requires SumLinksOk(ls) && SumLinksAt(e, j, ls)
    ensures j <= |e| && (j == |e| || (S.IsDelimiter(e[j]) && !IsMultiplicative(e[j])))
  {
    if ls != [] {
      SumLinksOkTail(ls);
    }
  }

  /** Placed links fit in the text. */
  lemma {:induction false} LinksFit(e: string, i: nat, links: seq<Link>)
    requires LinksAt(e, i, links)
    ensures i + LinksWidth(links) <= |e|
    decreases |links|
  {
    if links != [] {
      LinksFit(e, i + 1 + Width(links[0].operand), links[1..]);
    }
  }

  /**
   * One round of the loop of multiplyOrDivideTwoFactors, then the rounds
   * after it: an operand that fails, or a zero divisor, ends the loop with
   * that error; otherwise the loop goes on from the combined value.
   */
  lemma {:induction false} ProductStep(e: string, i: nat, j: nat, k: nat, op: char, acc: Term, t: Term, f: Term, v: real)
    requires i < |e| && j <= |e| && k <= |e| && IsMultiplicative(op)
    requires WellFormed(acc) && WellFormed(t) && WellFormed(f) && Eval(acc) == Ok(v)
    requires e[i] == op
    requires S.Factor(e, S.Lex(e, i + 1)) == Tagged(Eval(t), S.Lex(e, j))
    requires Eval(Bin(op, acc, t)).Err? ==> Eval(f) == Eval(Bin(op, acc, t))
    requires Eval(Bin(op, acc, t)).Ok? ==> S.ProductRest(e, Eval(Bin(op, acc, t)).value, S.Lex(e, j)) == Tagged(Eval(f), S.Lex(e, k))
    ensures S.ProductRest(e, v, S.Lex(e, i)) == Tagged(Eval(f), S.Lex(e, k))
  {
    LexDelimiter(e, i);
    S.ProductRestContinues(e, v, S.Lex(e, i));
  }

  /** One round of the loop of addOrSubtractTwoTerms, then the rounds after it. */
  lemma {:induction false} SumStep(e: string, i: nat, j: nat, op: char, acc: Term, t: Term, f: Term, v: real)
    requires i < |e| && j <= |e| && IsAdditive(op)
    requires WellFormed(acc) && WellFormed(t) && WellFormed(f) && Eval(acc) == Ok(v)
    requires e[i] == op
    requires S.Product(e, S.Lex(e, i + 1)) == Tagged(Eval(t), S.Lex(e, j))
    requires Eval(Bin(op, acc, t)).Err? ==> Eval(f) == Eval(Bin(op, acc, t))
    requires Eval(Bin(op, acc, t)).Ok? ==> S.SumRest(e, Eval(Bin(op, acc, t)).value, S.Lex(e, j)) == Tagged(Eval(f), S.Lex(e, |e|))
    ensures S.SumRest(e, v, S.Lex(e, i)) == Tagged(Eval(f), S.Lex(e, |e|))
  {
    LexDelimiter(e, i);
    S.SumRestContinues(e, v, S.Lex(e, i));
  }

  /** multiplyOrDivideTwoFactors: the first factor, then the loop from where it stops. */
  lemma {:induction false} ProductCombine(e: string, c0: S.Cursor, c1: S.Cursor, c2: S.Cursor, h: Term, f: Term)
    requires S.Consistent(e, c0) && S.Consistent(e, c1) && WellFormed(h) && WellFormed(f)
    requires S.Factor(e, c0) == Tagged(Eval(h), c1)
    requires Eval(h).Err? ==> Eval(f) == Eval(h)
    requires Eval(h).Ok? ==> S.ProductRest(e, Eval(h).value, c1) == Tagged(Eval(f), c2)
    ensures S.Product(e, c0) == Tagged(Eval(f), c2)
  {
  }

  /** addOrSubtractTwoTerms: the first product, then the loop from where it stops. */
  lemma {:induction false} SumCombine(e: string, i: nat, j: nat, h: Term, f: Term)
    requires i <= |e| && j <= |e| && WellFormed(h) && WellFormed(f)
    requires S.Product(e, S.Lex(e, i)) == Tagged(Eval(h), S.Lex(e, j))
    requires Eval(h).Err? ==> Eval(f) == Eval(h)
    requires Eval(h).Ok? ==> S.SumRest(e, Eval(h).value, S.Lex(e, j)) == Tagged(Eval(f), S.Lex(e, |e|))
    ensures S.Sum(e, S.Lex(e, i)) == Tagged(Eval(f), S.Lex(e, |e|))
  {
  }

  /** The loop of multiplyOrDivideTwoFactors with no link left: it ends where the product ends. */
  lemma {:induction false} ProductRestEnd(e: string, i: nat, v: real)
    requires i <= |e| && EndsProductAt(e, i)
    ensures S.ProductRest(e, v, S.Lex(e, i)) == Ok((v, S.Lex(e, i)))
  {
    if i < |e| {
      LexDelimiter(e, i);
    }
    S.ProductRestStops(e, v, S.Lex(e, i));
  }

  /**
   * The loop of multiplyOrDivideTwoFactors over "op operand op operand ...":
   * the operands are combined from left to right, a zero divisor included.
   */
  lemma {:induction false} ProductRestFrom(e: string, i: nat, links: seq<Link>, acc: Term, v: real)
    requires LinksOk(links) && LinksAt(e, i, links) && WellFormed(acc) && Eval(acc) == Ok(v)
    ensures i + LinksWidth(links) <= |e| && WellFormed(Fold(acc, links))
    ensures S.ProductRest(e, v, S.Lex(e, i)) == Tagged(Eval(Fold(acc, links)), S.Lex(e, i + LinksWidth(links)))
    decreases |links|, 1
  {
    if links == [] {
      ProductRestEnd(e, i, v);
    } else {
      ProductRestLink(e, i, links, acc, v);
    }
  }

  /** The first round of the loop over a non-empty list of links, then the rest of the list. */
  lemma {:induction false} ProductRestLink(e: string, i: nat, links: seq<Link>, acc: Term, v: real)
    requires links != [] && LinksOk(links) && LinksAt(e, i, links) && WellFormed(acc) && Eval(acc) == Ok(v)
    ensures i + LinksWidth(links) <= |e| && WellFormed(Fold(acc, links))
    ensures S.ProductRest(e, v, S.Lex(e, i)) == Tagged(Eval(Fold(acc, links)), S.Lex(e, i + LinksWidth(links)))
    decreases |links|, 0
  {
    LinksFit(e, i, links);
    LinksOkTail(links);
    var op, t, rest := links[0].op, links[0].operand, links[1..];
    var j := i + 1 + Width(t);
    var b := Bin(op, acc, t);
    var f := Fold(acc, links);
    assert f == Fold(b, rest);
    assert S.Factor(e, S.Lex(e, i + 1)) == Tagged(Eval(t), S.Lex(e, j)) by {
      LinksFollowed(e, j, rest);
      FactorOfPrint(e, i + 1, t);
    }
    FoldWellFormed(b, rest);
    if Eval(b).Err? {
      FoldErr(b, rest);
    } else {
      ProductRestFrom(e, j, rest, b, Eval(b).value);
    }
    ProductStep(e, i, j, i + LinksWidth(links), op, acc, t, f, v);
  }

  /** The first operand of a placed product, read as a factor: its value, and the reader stops after it. */
  lemma {:induction false} ProductHead(e: string, i: nat, p: Product)
    requires ProductOk(p) && ProductAt(e, i, p)
    ensures i + Width(p.head) <= |e|
    ensures S.Factor(e, S.Lex(e, i)) == Tagged(Eval(p.head), S.Lex(e, i + Width(p.head)))
  {
    LinksFollowed(e, i + Width(p.head), p.tail);
    FactorOfPrint(e, i, p.head);
  }

  /** The loop of multiplyOrDivideTwoFactors after a first operand that has a value, or the first operand's error. */
  lemma {:induction false} ProductTail(e: string, j: nat, h: Term, links: seq<Link>)
    requires LinksOk(links) && LinksAt(e, j, links) && WellFormed(h)
    ensures WellFormed(Fold(h, links)) && j + LinksWidth(links) <= |e|
    ensures Eval(h).Err? ==> Eval(Fold(h, links)) == Eval(h)
    ensures Eval(h).Ok? ==> S.ProductRest(e, Eval(h).value, S.Lex(e, j)) == Tagged(Eval(Fold(h, links)), S.Lex(e, j + LinksWidth(links)))
  {
    FoldWellFormed(h, links);
    LinksFit(e, j, links);
    if Eval(h).Err? {
      FoldErr(h, links);
    } else {
      ProductRestFrom(e, j, links, h, Eval(h).value);
    }
  }

  /** multiplyOrDivideTwoFactors over a placed product: the value of its left-to-right grouping. */
  lemma {:induction false} ProductFrom(e: string, i: nat, p: Product)
    requires ProductOk(p) && ProductAt(e, i, p)
    ensures i + ProductWidth(p) <= |e| && WellFormed(ProductTerm(p))
    ensures S.Product(e, S.Lex(e, i)) == Tagged(Eval(ProductTerm(p)), S.Lex(e, i + ProductWidth(p)))
  {
    var j := i + Width(p.head);
    var k := j + LinksWidth(p.tail);
    assert k == i + ProductWidth(p);
    assert ProductTerm(p) == Fold(p.head, p.tail);
    ProductHead(e, i, p);
    ProductTail(e, j, p.head, p.tail);
    ProductCombine(e, S.Lex(e, i), S.Lex(e, j), S.Lex(e, k), p.head, Fold(p.head, p.tail));
  }

  /** The loop of addOrSubtractTwoTerms over "op product op product ..." up to the end of the text. */
  lemma {:induction false} SumRestFrom(e: string, i: nat, ls: seq<SumLink>, acc: Term, v: real)
    requires SumLinksOk(ls) && SumLinksAt(e, i, ls) && WellFormed(acc) && Eval(acc) == Ok(v)
    ensures WellFormed(SumFold(acc, ls))
    ensures S.SumRest(e, v, S.Lex(e, i)) == Tagged(Eval(SumFold(acc, ls)), S.Lex(e, |e|))
    decreases |ls|, 1
  {
    if ls == [] {
      assert S.Lex(e, i).lexeme == S.EOE;
      S.SumRestStops(e, v, S.Lex(e, i));
    } else {
      SumRestLink(e, i, ls, acc, v);
    }
  }

  /** The first round of the loop over a non-empty list of sum links, then the rest of the list. */
  lemma {:induction false} SumRestLink(e: string, i: nat, ls: seq<SumLink>, acc: Term, v: real)
    requires ls != [] && SumLinksOk(ls) && SumLinksAt(e, i, ls) && WellFormed(acc) && Eval(acc) == Ok(v)
    ensures WellFormed(SumFold(acc, ls))
    ensures S.SumRest(e, v, S.Lex(e, i)) == Tagged(Eval(SumFold(acc, ls)), S.Lex(e, |e|))
    decreases |ls|, 0
  {
    SumLinksOkTail(ls);
    var op, p, rest := ls[0].op, ls[0].operand, ls[1..];
    var j := i + 1 + ProductWidth(p);
    var b := Bin(op, acc, ProductTerm(p));
    assert SumFold(acc, ls) == SumFold(b, rest);
    ProductFrom(e, i + 1, p);
    SumFoldWellFormed(b, rest);
    if Eval(b).Err? {
      SumFoldErr(b, rest);
    } else {
      SumRestFrom(e, j, rest, b, Eval(b).value);
    }
    SumLinksEnd(e, j, rest);
    SumStep(e, i, j, op, acc, ProductTerm(p), SumFold(acc, ls), v);
  }

  /** addOrSubtractTwoTerms over a text that holds a placed sum and nothing after it. */
  lemma {:induction false} SumFrom(e: string, i: nat, s: Sum)
    requires SumOk(s) && ProductAt(e, i, s.head) && SumLinksAt(e, i + ProductWidth(s.head), s.tail)
    ensures WellFormed(SumTerm(s))
    ensures S.Sum(e, S.Lex(e, i)) == Tagged(Eval(SumTerm(s)), S.Lex(e, |e|))
  {
    var h := ProductTerm(s.head);
    var j := i + ProductWidth(s.head);
    ProductFrom(e, i, s.head);
    SumFoldWellFormed(h, s.tail);
    if Eval(h).Err? {
      SumFoldErr(h, s.tail);
    } else {
      SumRestFrom(e, j, s.tail, h, Eval(h).value);
    }
    SumCombine(e, i, j, h, SumTerm(s));
  }

  /** addOrSubtractTwoTerms over a whole unbracketed text. */
  lemma {:induction false} SumOfText(s: Sum)
    requires SumOk(s)
    ensures WellFormed(SumTerm(s))
    ensures var e := SumText(s); S.Sum(e, S.Lex(e, 0)) == Tagged(Eval(SumTerm(s)), S.Lex(e, |e|))
  {
    var e := SumText(s);
    CopiedOfConcat([], e, []);
    assert [] + e + [] == e;
    SumAt(e, 0, s);
  }

  /** addOrSubtractTwoTerms over a sum copied into a text up to its end. */
  lemma {:induction false} SumAt(e: string, i: nat, s: Sum)
    requires SumOk(s) && Copied(e, i, SumText(s)) && i + |SumText(s)| == |e|
    ensures WellFormed(SumTerm(s))
    ensures S.Sum(e, S.Lex(e, i)) == Tagged(Eval(SumTerm(s)), S.Lex(e, |e|))
  {
    SumPlaced(e, i, s);
    SumFrom(e, i, s);
  }

  // ------------------------------------------------ the whole text

  lemma {:induction false} LinksSymbols(links: seq<Link>)
    requires LinksOk(links)
    ensures forall k :: 0 <= k < |LinksText(links)| ==> IsDigit(LinksText(links)[k]) || S.IsDelimiter(LinksText(links)[k])
    decreases |links|
  {
    if links != [] {
      LinksOkTail(links);
      PrintSymbols(links[0].operand);
      LinksSymbols(links[1..]);
    }
  }

  lemma {:induction false} ProductSymbols(p: Product)
    requires ProductOk(p)
    ensures forall k :: 0 <= k < |ProductText(p)| ==> IsDigit(ProductText(p)[k]) || S.IsDelimiter(ProductText(p)[k])
  {
    PrintSymbols(p.head);
    LinksSymbols(p.tail);
  }

  lemma {:induction false} SumLinksSymbols(ls: seq<SumLink>)
    requires SumLinksOk(ls)
    ensures forall k :: 0 <= k < |SumLinksText(ls)| ==> IsDigit(SumLinksText(ls)[k]) || S.IsDelimiter(SumLinksText(ls)[k])
    decreases |ls|
  {
    if ls != [] {
      SumLinksOkTail(ls);
      ProductSymbols(ls[0].operand);
      SumLinksSymbols(ls[1..]);
    }
  }

  /** Only digits, brackets and operators: no whitespace to strip. */
  lemma {:induction false} SumTextSymbols(s: Sum)
    requires SumOk(s)
    ensures NoWhitespace(SumText(s))
  {
    ProductSymbols(s.head);
    SumLinksSymbols(s.tail);
    var e := SumText(s);
    forall k | 0 <= k < |e|
      ensures !IsWhitespace(e[k])
    {
      if k < |ProductText(s.head)| {
        assert e[k] == ProductText(s.head)[k];
      } else {
        assert e[k] == SumLinksText(s.tail)[k - |ProductText(s.head)|];
      }
    }
  }

  /**
   * getExpressionResult of a fresh parser on an unbracketed text: the value
   * of the grouping with '*' and '/' first and each level from left to
   * right, or the error that grouping meets first (a zero divisor included).
   */
  lemma {:induction false} DescentOfSumText(s: Sum)
    requires SumOk(s)
    ensures WellFormed(SumTerm(s))
    ensures S.DescentResult(SumText(s), 0) == Eval(SumTerm(s))
  {
    var e := SumText(s);
    SumOfText(s);
    SumTextSymbols(s);
    assert S.Lex(e, 0).lexeme != S.EOE by {
      PrintStart(s.head.head);
      assert e[0] == Print(s.head.head)[0];
      S.LexText(e, 0);
      assert S.Lex(e, 0).lexeme[0] == e[0];
    }
    DescentOfSum(e, Eval(SumTerm(s)));
  }

  // ------------------------------------------------ two and three operands

  /** The grouping of "x o1 y o2 z": the first operator first unless it is '+' or '-' and the second is '*' or '/'. */
  function Grouped(x: Term, o1: char, y: Term, o2: char, z: Term): Term
  {
    if IsAdditive(o1) && IsMultiplicative(o2) then Bin(o1, x, Bin(o2, y, z)) else Bin(o2, Bin(o1, x, y), z)
  }

  /** A single operand is a product of its own. */
  lemma {:induction false} Alone(t: Term)
    ensures ProductText(Product(t, [])) == Print(t) && ProductTerm(Product(t, [])) == t
  {
    assert Print(t) + [] == Print(t);
  }

  /** One link: its operator, then its operand. */
  lemma {:induction false} OneLink(op: char, acc: Term, t: Term)
    ensures LinksText([Link(op, t)]) == [op] + Print(t)
    ensures Fold(acc, [Link(op, t)]) == Bin(op, acc, t)
  {
    var links := [Link(op, t)];
    assert links[1..] == [];
    assert [op] + Print(t) + [] == [op] + Print(t);
  }

  /** One sum link: its operator, then its product. */
  lemma {:induction false} OneSumLink(op: char, acc: Term, p: Product)
    ensures SumLinksText([SumLink(op, p)]) == [op] + ProductText(p)
    ensures SumFold(acc, [SumLink(op, p)]) == Bin(op, acc, ProductTerm(p))
  {
    var ls := [SumLink(op, p)];
    assert ls[1..] == [];
    assert [op] + ProductText(p) + [] == [op] + ProductText(p);
  }

  /** A sum with no sum link is its one product. */
  lemma {:induction false} SumAlone(p: Product)
    ensures SumText(Sum(p, [])) == ProductText(p) && SumTerm(Sum(p, [])) == ProductTerm(p)
  {
    assert ProductText(p) + [] == ProductText(p);
  }

  /** "x op y" with op '*' or '/': one product of two operands. */
  lemma {:induction false} PairProduct(x: Term, op: char, y: Term) returns (s: Sum)
    requires WellFormed(x) && WellFormed(y) && IsMultiplicative(op)
    ensures SumOk(s) && SumText(s) == Print(x) + [op] + Print(y) && SumTerm(s) == Bin(op, x, y)
  {
    var p := Product(x, [Link(op, y)]);
    s := Sum(p, []);
    OneLink(op, x, y);
    SumAlone(p);
  }

  /** "x op y" with op '+' or '-': two products of one operand each. */
  lemma {:induction false} PairSum(x: Term, op: char, y: Term) returns (s: Sum)
    requires WellFormed(x) && WellFormed(y) && IsAdditive(op)
    ensures SumOk(s) && SumText(s) == Print(x) + [op] + Print(y) && SumTerm(s) == Bin(op, x, y)
  {
    s := Sum(Product(x, []), [SumLink(op, Product(y, []))]);
    Alone(x);
    Alone(y);
    OneSumLink(op, x, Product(y, []));
  }

  /** "x op y": the one operation. */
  lemma {:induction false} PairValue(x: Term, op: char, y: Term)
    requires WellFormed(x) && WellFormed(y) && IsOperator(op)
    ensures WellFormed(Bin(op, x, y))
    ensures S.DescentResult(Print(x) + [op] + Print(y), 0) == Eval(Bin(op, x, y))
  {
    var s;
    if IsMultiplicative(op) {
      s := PairProduct(x, op, y);
    } else {
      s := PairSum(x, op, y);
    }
    DescentOfSumText(s);
  }

  /** "x o1 y o2 z": precedence first, then left to right. */
  lemma {:induction false} ChainValue(x: Term, o1: char, y: Term, o2: char, z: Term)
    requires WellFormed(x) && WellFormed(y) && WellFormed(z) && IsOperator(o1) && IsOperator(o2)
    ensures WellFormed(Grouped(x, o1, y, o2, z))
    ensures S.DescentResult(Print(x) + [o1] + Print(y) + [o2] + Print(z), 0) == Eval(Grouped(x, o1, y, o2, z))
  {
    var s;
    if IsMultiplicative(o1) && IsMultiplicative(o2) {
      s := ChainProducts(x, o1, y, o2, z);
    } else if IsMultiplicative(o1) {
      s := ChainProductThenSum(x, o1, y, o2, z);
    } else if IsMultiplicative(o2) {
      s := ChainSumThenProduct(x, o1, y, o2, z);
    } else {
      s := ChainSums(x, o1, y, o2, z);
    }
    assert SumTerm(s) == Grouped(x, o1, y, o2, z);
    DescentOfSumText(s);
  }

  /** "x o1 y o2 z" with '*' or '/' twice: one product, grouped from the left. */
  lemma {:induction false} ChainProducts(x: Term, o1: char, y: Term, o2: char, z: Term) returns (s: Sum)
    requires WellFormed(x) && WellFormed(y) && WellFormed(z) && IsMultiplicative(o1) && IsMultiplicative(o2)
    ensures SumOk(s) && SumText(s) == Print(x) + [o1] + Print(y) + [o2] + Print(z)
    ensures SumTerm(s) == Bin(o2, Bin(o1, x, y), z)
  {
    var links := [Link(o1, y), Link(o2, z)];
    var p := Product(x, links);
    s := Sum(p, []);
    assert links[1..] == [Link(o2, z)];
    OneLink(o2, Bin(o1, x, y), z);
    assert LinksText(links) == [o1] + Print(y) + ([o2] + Print(z));
    SumAlone(p);
  }

  /** "x o1 y o2 z" with '*' or '/' then '+' or '-': the product of x and y comes first. */
  lemma {:induction false} ChainProductThenSum(x: Term, o1: char, y: Term, o2: char, z: Term) returns (s: Sum)
    requires WellFormed(x) && WellFormed(y) && WellFormed(z) && IsMultiplicative(o1) && IsAdditive(o2)
    ensures SumOk(s) && SumText(s) == Print(x) + [o1] + Print(y) + [o2] + Print(z)
    ensures SumTerm(s) == Bin(o2, Bin(o1, x, y), z)
  {
    var p := Product(x, [Link(o1, y)]);
    s := Sum(p, [SumLink(o2, Product(z, []))]);
    OneLink(o1, x, y);
    Alone(z);
    OneSumLink(o2, Bin(o1, x, y), Product(z, []));
  }

  /** "x o1 y o2 z" with '+' or '-' then '*' or '/': the product of y and z comes first. */
  lemma {:induction false} ChainSumThenProduct(x: Term, o1: char, y: Term, o2: char, z: Term) returns (s: Sum)
    requires WellFormed(x) && WellFormed(y) && WellFormed(z) && IsAdditive(o1) && IsMultiplicative(o2)
    ensures SumOk(s) && SumText(s) == Print(x) + [o1] + Print(y) + [o2] + Print(z)
    ensures SumTerm(s) == Bin(o1, x, Bin(o2, y, z))
  {
    var p := Product(y, [Link(o2, z)]);
    s := Sum(Product(x, []), [SumLink(o1, p)]);
    Alone(x);
    OneLink(o2, y, z);
    OneSumLink(o1, x, p);
  }

  /** "x o1 y o2 z" with '+' or '-' twice: one sum, grouped from the left. */
  lemma {:induction false} ChainSums(x: Term, o1: char, y: Term, o2: char, z: Term) returns (s: Sum)
    requires WellFormed(x) && WellFormed(y) && WellFormed(z) && IsAdditive(o1) && IsAdditive(o2)
    ensures SumOk(s) && SumText(s) == Print(x) + [o1] + Print(y) + [o2] + Print(z)
    ensures SumTerm(s) == Bin(o2, Bin(o1, x, y), z)
  {
    var py, pz := Product(y, []), Product(z, []);
    var ls := [SumLink(o1, py), SumLink(o2, pz)];
    s := Sum(Product(x, []), ls);
    Alone(x);
    Alone(y);
    Alone(z);
    assert ls[1..] == [SumLink(o2, pz)];
    OneSumLink(o2, Bin(o1, x, y), pz);
    assert SumLinksText(ls) == [o1] + Print(y) + ([o2] + Print(z));
  }

  // ------------------------------------------------ the texts of the descent tests

  /** getExpressionResult strips whitespace first, so a text reads as its stripped form. */
  lemma {:induction false} DescentIgnoresWhitespace(expression: string)
    ensures S.DescentResult(expression, 0) == S.DescentResult(StripWhitespace(expression), 0)
  {
    StripWhitespaceIdempotent(expression);
  }

  /** One more sum link at the end: its text goes after the text so far. */
  lemma {:induction false} SumLinksTextSnoc(ls: seq<SumLink>, l: SumLink)
    ensures SumLinksText(ls + [l]) == SumLinksText(ls) + [l.op] + ProductText(l.operand)
    decreases |ls|
  {
    if ls == [] {
      assert ls + [l] == [l];
      OneSumLink(l.op, Leaf(0), l.operand);
    } else {
      assert (ls + [l])[1..] == ls[1..] + [l];
      SumLinksTextSnoc(ls[1..], l);
    }
  }

  /** One more sum link at the end: it takes the whole sum so far as its left operand. */
  lemma {:induction false} SumFoldSnoc(acc: Term, ls: seq<SumLink>, l: SumLink)
    ensures SumFold(acc, ls + [l]) == Bin(l.op, SumFold(acc, ls), ProductTerm(l.operand))
    decreases |ls|
  {
    if ls == [] {
      assert ls + [l] == [l];
      OneSumLink(l.op, acc, l.operand);
    } else {
      assert (ls + [l])[1..] == ls[1..] + [l];
      SumFoldSnoc(Bin(ls[0].op, acc, ProductTerm(ls[0].operand)), ls[1..], l);
    }
  }

  /** Appending "op operand" to an unbracketed sum: the sum so far becomes the left operand. */
  lemma {:induction false} SumSnoc(s: Sum, op: char, t: Term) returns (s': Sum)
    requires SumOk(s) && IsAdditive(op) && WellFormed(t)
    ensures SumOk(s') && SumText(s') == SumText(s) + [op] + Print(t)
    ensures SumTerm(s') == Bin(op, SumTerm(s), t)
  {
    var l := SumLink(op, Product(t, []));
    s' := Sum(s.head, s.tail + [l]);
    Alone(t);
    SumLinksTextSnoc(s.tail, l);
    SumFoldSnoc(ProductTerm(s.head), s.tail, l);
    forall k | 0 <= k < |s'.tail|
      ensures IsAdditive(s'.tail[k].op) && ProductOk(s'.tail[k].operand)
    {
      if k < |s.tail| {
        assert s'.tail[k] == s.tail[k];
      }
    }
  }

  // ------------------------------------------------ texts the descent refuses

  lemma {:induction false} NoWhitespaceJoin(a: string, b: string)
    requires NoWhitespace(a) && NoWhitespace(b)
    ensures NoWhitespace(a + b)
  {
    forall k | 0 <= k < |a + b|
      ensures !IsWhitespace((a + b)[k])
    {
      if k < |a| {
        assert (a + b)[k] == a[k];
      } else {
        assert (a + b)[k] == b[k - |a|];
      }
    }
  }

  lemma {:induction false} JoinSymbols(a: string, b: string, c: string)
    requires NoWhitespace(a) && NoWhitespace(b) && NoWhitespace(c)
    ensures NoWhitespace(a + b + c)
  {
    NoWhitespaceJoin(a, b);
    NoWhitespaceJoin(a + b, c);
  }

  /** A text that starts with a printed term: the term is placed at the start, and the first lexeme is no EOE. */
  lemma {:induction false} PrintFirst(x: Term, rest: string)
    ensures Placed(Print(x) + rest, 0, x) && Width(x) == |Print(x)|
    ensures var e := Print(x) + rest; S.Lex(e, 0).lexeme != S.EOE
  {
    var e := Print(x) + rest;
    CopiedOfConcat([], Print(x), rest);
    assert [] + Print(x) + rest == e;
    PlacedOfCopied(e, 0, x);
    WidthOfPrint(x);
    PrintStart(x);
    assert e[0] == Print(x)[0];
    S.LexText(e, 0);
    assert S.Lex(e, 0).lexeme != [] ==> S.Lex(e, 0).lexeme[0] == e[0];
  }

  /**
   * A term with a value, an operator, then a factor that fails: the whole
   * sum fails with the factor's error, whichever level the operator belongs to.
   */
  lemma {:induction false} SecondFactorFails(e: string, x: Term, op: char, err: ErrorType)
    requires WellFormed(x) && Eval(x).Ok? && IsOperator(op)
    requires Placed(e, 0, x) && Width(x) < |e| && e[Width(x)] == op
    requires S.Factor(e, S.Lex(e, Width(x) + 1)) == Err(err)
    ensures S.Sum(e, S.Lex(e, 0)) == Err(err)
  {
    var w := Width(x);
    var v := Eval(x).value;
    var c0, c1 := S.Lex(e, 0), S.Lex(e, w);
    assert S.Factor(e, c0) == Ok((v, c1)) by {
      FactorOfPrint(e, 0, x);
    }
    assert c1.index == w + 1 && c1.lexeme == [op] by {
      LexDelimiter(e, w);
    }
    if IsMultiplicative(op) {
      ProductLoopFails(e, v, c1, err);
      FirstFactorThen(e, c0, v, c1, Err(err));
    } else {
      S.ProductRestStops(e, v, c1);
      FirstFactorThen(e, c0, v, c1, Ok((v, c1)));
      SumLoopFails(e, v, c1, err);
    }
  }

  /** The loop of multiplyOrDivideTwoFactors at '*' or '/' before a factor that fails: it fails the same way. */
  lemma {:induction false} ProductLoopFails(e: string, v: real, c: S.Cursor, err: ErrorType)
    requires S.Consistent(e, c) && c.lexeme != [] && (c.lexeme[0] == '*' || c.lexeme[0] == '/')
    requires S.Factor(e, S.Lex(e, c.index)) == Err(err)
    ensures S.ProductRest(e, v, c) == Err(err)
  {
    S.ProductRestContinues(e, v, c);
  }

  /** The loop of addOrSubtractTwoTerms at '+' or '-' before a factor that fails: it fails the same way. */
  lemma {:induction false} SumLoopFails(e: string, v: real, c: S.Cursor, err: ErrorType)
    requires S.Consistent(e, c) && c.lexeme != [] && (c.lexeme[0] == '+' || c.lexeme[0] == '-')
    requires S.Factor(e, S.Lex(e, c.index)) == Err(err)
    ensures S.SumRest(e, v, c) == Err(err)
  {
    S.SumRestContinues(e, v, c);
    ProductFails(e, S.Lex(e, c.index), err);
  }

  /** A first factor with a value, then the loop of multiplyOrDivideTwoFactors: the product and the sum start with them. */
  lemma {:induction false} FirstFactorThen(e: string, c0: S.Cursor, v: real, c1: S.Cursor, r: Result<(real, S.Cursor)>)
    requires S.Consistent(e, c0) && S.Factor(e, c0) == Ok((v, c1)) && S.ProductRest(e, v, c1) == r
    ensures S.Product(e, c0) == r
    ensures S.Sum(e, c0) == if r.Err? then Err(r.error) else S.SumRest(e, r.value.0, r.value.1)
  {
  }

  /** A factor that fails makes the product that starts with it fail the same way. */
  lemma {:induction false} ProductFails(e: string, c: S.Cursor, err: ErrorType)
    requires S.Consistent(e, c) && S.Factor(e, c) == Err(err)
    ensures S.Product(e, c) == Err(err)
  {
  }

  /** "x o1 o2 y": a second operator where an operand belongs is SYNTAX_ERROR, once x has a value. */
  lemma {:induction false} DoubledOperator(x: Term, o1: char, o2: char, y: Term)
    requires WellFormed(x) && Eval(x).Ok? && WellFormed(y) && IsOperator(o1) && IsOperator(o2)
    ensures S.DescentResult(Print(x) + [o1, o2] + Print(y), 0) == Err(SyntaxError)
  {
    var e := Print(x) + [o1, o2] + Print(y);
    DoubledLayout(e, x, o1, o2, y);
    OperatorAsOperand(e, x, o1, o2);
  }

  /** Where the parts of "x o1 o2 y" sit in the text. */
  lemma {:induction false} DoubledLayout(e: string, x: Term, o1: char, o2: char, y: Term)
    requires WellFormed(x) && WellFormed(y) && IsOperator(o1) && IsOperator(o2)
    requires e == Print(x) + [o1, o2] + Print(y)
    ensures Placed(e, 0, x) && Width(x) + 1 < |e| && e[Width(x)] == o1 && e[Width(x) + 1] == o2
    ensures NoWhitespace(e) && S.Lex(e, 0).lexeme != S.EOE
  {
    var w := |Print(x)|;
    assert Placed(e, 0, x) && Width(x) == w && w + 1 < |e| && e[w] == o1 && e[w + 1] == o2 && S.Lex(e, 0).lexeme != S.EOE by {
      assert e == Print(x) + ([o1, o2] + Print(y));
      PrintFirst(x, [o1, o2] + Print(y));
    }
    JoinSymbols(Print(x), [o1, o2], Print(y)) by {
      PrintStripped(x);
      PrintStripped(y);
    }
  }

  /** The positions behind DoubledOperator: after "x o1", the second operator is read where a factor belongs. */
  lemma {:induction false} OperatorAsOperand(e: string, x: Term, o1: char, o2: char)
    requires WellFormed(x) && Eval(x).Ok? && IsOperator(o1) && IsOperator(o2)
    requires NoWhitespace(e) && S.Lex(e, 0).lexeme != S.EOE
    requires Placed(e, 0, x) && Width(x) + 1 < |e| && e[Width(x)] == o1 && e[Width(x) + 1] == o2
    ensures S.DescentResult(e, 0) == Err(SyntaxError)
  {
    LexDelimiter(e, Width(x) + 1);
    SecondFactorFails(e, x, o1, SyntaxError);
    DescentOfSum(e, Err(SyntaxError));
  }

  /** A bracket opened after "x op" around a sum that runs to the end of the text, with no closing bracket. */
  lemma {:induction false} BracketNeverClosed(e: string, x: Term, op: char, s: Sum)
    requires WellFormed(x) && Eval(x).Ok? && IsOperator(op) && SumOk(s)
    requires WellFormed(SumTerm(s)) && Eval(SumTerm(s)).Ok?
    requires Placed(e, 0, x) && Width(x) + 1 < |e| && e[Width(x)] == op && e[Width(x) + 1] == '('
    requires Copied(e, Width(x) + 2, SumText(s)) && Width(x) + 2 + |SumText(s)| == |e|
    requires NoWhitespace(e) && S.Lex(e, 0).lexeme != S.EOE
    ensures S.DescentResult(e, 0) == Err(BracketError)
  {
    var w := Width(x);
    SumAt(e, w + 2, s);
    assert S.Lex(e, |e|).lexeme == S.EOE;
    LexDelimiter(e, w + 1);
    SecondFactorFails(e, x, op, BracketError);
    DescentOfSum(e, Err(BracketError));
  }

  /** "x op (sum": a bracket opened and never closed is BRACKET_ERROR, once x and the sum have values. */
  lemma {:induction false} UnclosedBracket(x: Term, op: char, s: Sum)
    requires WellFormed(x) && Eval(x).Ok? && IsOperator(op) && SumOk(s)
    requires WellFormed(SumTerm(s)) && Eval(SumTerm(s)).Ok?
    ensures S.DescentResult(Print(x) + [op, '('] + SumText(s), 0) == Err(BracketError)
  {
    var e := Print(x) + [op, '('] + SumText(s);
    UnclosedLayout(e, x, op, s);
    BracketNeverClosed(e, x, op, s);
  }

  /** A text that ends with d holds a copy of d at the end. */
  lemma {:induction false} CopiedAtEnd(e: string, a: string, d: string)
    requires e == a + d
    ensures Copied(e, |a|, d) && |a| + |d| == |e|
  {
    CopiedOfConcat(a, d, []);
    assert a + d + [] == e;
  }

  /** Where the parts of "x op (sum" sit in the text. */
  lemma {:induction false} UnclosedLayout(e: string, x: Term, op: char, s: Sum)
    requires WellFormed(x) && IsOperator(op) && SumOk(s)
    requires e == Print(x) + [op, '('] + SumText(s)
    ensures Placed(e, 0, x) && Width(x) + 1 < |e| && e[Width(x)] == op && e[Width(x) + 1] == '('
    ensures Copied(e, Width(x) + 2, SumText(s)) && Width(x) + 2 + |SumText(s)| == |e|
    ensures NoWhitespace(e) && S.Lex(e, 0).lexeme != S.EOE
  {
    var w := |Print(x)|;
    assert Placed(e, 0, x) && Width(x) == w && w + 1 < |e| && e[w] == op && e[w + 1] == '(' && S.Lex(e, 0).lexeme != S.EOE by {
      assert e == Print(x) + ([op, '('] + SumText(s));
      PrintFirst(x, [op, '('] + SumText(s));
    }
    CopiedAtEnd(e, Print(x) + [op, '('], SumText(s));
    JoinSymbols(Print(x), [op, '('], SumText(s)) by {
      PrintStripped(x);
      SumTextSymbols(s);
    }
  }
}
