// Character classes and the java.lang.String operations the parsers rely on:
// whitespace stripping, lower-casing, substring search, splitting on a
// separator, literal replacement and decimal formatting of integers.
// Character classes are the ASCII ones (Character.isLetter / isDigit on
// ASCII input).

module Text {

  predicate IsLetter(c: char) { 'a' <= c <= 'z' || 'A' <= c <= 'Z' }

  predicate IsDigit(c: char) { '0' <= c <= '9' }

  /** The characters of the regular-expression class \s: space, tab, LF, VT, FF, CR. */
  predicate IsWhitespace(c: char) { c == ' ' || 9 <= c as int <= 13 }

  predicate NoWhitespace(s: string) { forall i :: 0 <= i < |s| ==> !IsWhitespace(s[i]) }

  predicate AllDigits(s: string) { forall i :: 0 <= i < |s| ==> IsDigit(s[i]) }

  predicate AllLetters(s: string) { forall i :: 0 <= i < |s| ==> IsLetter(s[i]) }

  lemma {:induction false} AppendAssociates(a: string, b: string, c: string)
    ensures a + b + c == a + (b + c)
  {
  }

  /** Reading one more character of s extends a prefix-marked slice by that character. */
  lemma {:induction false} SliceExtend(prefix: string, s: string, a: nat, b: nat)
    requires a <= b < |s|
    ensures prefix + s[a..b] + [s[b]] == prefix + s[a..b + 1]
  {
    assert s[a..b] + [s[b]] == s[a..b + 1];
    AppendAssociates(prefix, s[a..b], [s[b]]);
  }

  /** s.replaceAll("\\s", ""): the text with every whitespace character removed, the rest kept in order. */
  function StripWhitespace(s: string): (r: string)
    ensures NoWhitespace(r)
    ensures |r| <= |s|
  {
    if s == [] then []
    else (if IsWhitespace(s[0]) then [] else [s[0]]) + StripWhitespace(s[1..])
  }

  lemma {:induction false} StripWhitespaceAppend(a: string, b: string)
    ensures StripWhitespace(a + b) == StripWhitespace(a) + StripWhitespace(b)
  {
    if a != [] {
      assert (a + b)[1..] == a[1..] + b;
      StripWhitespaceAppend(a[1..], b);
    } else {
      assert a + b == b;
    }
  }

  /** Text without whitespace is left unchanged, so stripping twice is stripping once. */
  lemma {:induction false} StripWhitespaceKeepsStripped(s: string)
    requires NoWhitespace(s)
    ensures StripWhitespace(s) == s
  {
    if s != [] {
      StripWhitespaceKeepsStripped(s[1..]);
    }
  }

  lemma {:induction false} StripWhitespaceIdempotent(s: string)
    ensures StripWhitespace(StripWhitespace(s)) == StripWhitespace(s)
  {
    StripWhitespaceKeepsStripped(StripWhitespace(s));
  }

  /** Every character of the text that is not whitespace survives stripping, in its multiplicity. */
  lemma {:induction false} StripWhitespaceKeepsOthers(s: string, c: char)
    requires !IsWhitespace(c)
    ensures multiset(StripWhitespace(s))[c] == multiset(s)[c]
  {
    if s != [] {
      assert s == [s[0]] + s[1..];
      StripWhitespaceKeepsOthers(s[1..], c);
    }
  }

  function LowerChar(c: char): (r: char)
    ensures IsLetter(c) ==> IsLetter(r) && 'a' <= r <= 'z'
    ensures !('A' <= c <= 'Z') ==> r == c
  {
    if 'A' <= c <= 'Z' then (c as int - 'A' as int + 'a' as int) as char else c
  }

  /** String.toLowerCase restricted to ASCII letters. */
  function ToLower(s: string): (r: string)
    ensures |r| == |s|
    ensures forall i :: 0 <= i < |s| ==> r[i] == LowerChar(s[i])
  {
    seq(|s|, i requires 0 <= i < |s| => LowerChar(s[i]))
  }

  predicate StartsWith(s: string, t: string) { |t| <= |s| && s[..|t|] == t }

  /** String.contains: t occurs somewhere in s. */
  predicate Contains(s: string, t: string)
    decreases |s|
  {
    StartsWith(s, t) || (s != [] && Contains(s[1..], t))
  }

  lemma {:induction false} ContainsAt(s: string, t: string, i: nat)
    requires i + |t| <= |s| && s[i..i + |t|] == t
    ensures Contains(s, t)
  {
    if i > 0 {
      assert s[1..][i - 1..i - 1 + |t|] == s[i..i + |t|];
      ContainsAt(s[1..], t, i - 1);
    }
  }

  lemma {:induction false} ContainsWitness(s: string, t: string) returns (i: nat)
    requires Contains(s, t)
    ensures i + |t| <= |s| && s[i..i + |t|] == t
    decreases |s|
  {
    if StartsWith(s, t) {
      i := 0;
    } else {
      var j := ContainsWitness(s[1..], t);
      assert s[1..][j..j + |t|] == s[j + 1..j + 1 + |t|];
      i := j + 1;
    }
  }

  /** Every character of an occurring text occurs in the text searched. */
  lemma {:induction false} ContainsHas(s: string, t: string, k: nat)
    requires Contains(s, t) && k < |t|
    ensures t[k] in s
  {
    var i := ContainsWitness(s, t);
    assert s[i + k] == s[i..i + |t|][k];
  }

  /** A text with a character that s lacks does not occur in s. */
  lemma {:induction false} Lacks(s: string, t: string, k: nat)
    requires k < |t| && t[k] !in s
    ensures !Contains(s, t)
  {
    if Contains(s, t) {
      ContainsHas(s, t, k);
    }
  }

  lemma {:induction false} ContainsChar(s: string, c: char)
    ensures Contains(s, [c]) <==> c in s
  {
    if Contains(s, [c]) {
      var i := ContainsWitness(s, [c]);
      assert s[i] == s[i..i + 1][0];
    }
    if c in s {
      var i :| 0 <= i < |s| && s[i] == c;
      assert s[i..i + 1] == [c];
      ContainsAt(s, [c], i);
    }
  }

  function CountChar(s: string, c: char): (n: nat)
    ensures n <= |s|
    ensures n == 0 <==> c !in s
  {
    if s == [] then 0 else (if s[0] == c then 1 else 0) + CountChar(s[1..], c)
  }

  lemma {:induction false} CountCharAppend(a: string, b: string, c: char)
    ensures CountChar(a + b, c) == CountChar(a, c) + CountChar(b, c)
  {
    if a != [] {
      assert (a + b)[1..] == a[1..] + b;
      CountCharAppend(a[1..], b, c);
    } else {
      assert a + b == b;
    }
  }

  /** All pieces of s between occurrences of sep, empty pieces included. */
  function SplitAll(s: string, sep: char): (r: seq<string>)
    ensures |r| >= 1
    ensures forall k :: 0 <= k < |r| ==> sep !in r[k]
    ensures forall k, i :: 0 <= k < |r| && 0 <= i < |r[k]| ==> r[k][i] in s
  {
    if s == [] then [""]
    else
      var rest := SplitAll(s[1..], sep);
      if s[0] == sep then [""] + rest else [[s[0]] + rest[0]] + rest[1..]
  }

  function Join(pieces: seq<string>, sep: char): string
  {
    if |pieces| == 0 then ""
    else if |pieces| == 1 then pieces[0]
    else pieces[0] + [sep] + Join(pieces[1..], sep)
  }

  /** Joining the pieces with the separator gives the text back. */
  lemma {:induction false} SplitAllJoin(s: string, sep: char)
    ensures Join(SplitAll(s, sep), sep) == s
  {
    if s != [] {
      var rest := SplitAll(s[1..], sep);
      SplitAllJoin(s[1..], sep);
      assert s == [s[0]] + s[1..];
      if s[0] == sep {
        assert ([""] + rest)[1..] == rest;
      } else {
        JoinExtended(s[0], rest, sep);
      }
    }
  }

  /** A character put in front of the first piece is in front of the joined text. */
  lemma {:induction false} JoinExtended(c: char, rest: seq<string>, sep: char)
    requires |rest| >= 1
    ensures Join([[c] + rest[0]] + rest[1..], sep) == [c] + Join(rest, sep)
  {
    var r := [[c] + rest[0]] + rest[1..];
    assert r[1..] == rest[1..];
  }

  function DropTrailingEmpty(pieces: seq<string>): (r: seq<string>)
    ensures |r| <= |pieces| && r == pieces[..|r|]
    ensures |r| > 0 ==> r[|r| - 1] != ""
    ensures forall k :: |r| <= k < |pieces| ==> pieces[k] == ""
  {
    if |pieces| == 0 then pieces
    else if pieces[|pieces| - 1] == "" then DropTrailingEmpty(pieces[..|pieces| - 1])
    else pieces
  }

  /**
   * String.split with a one-character separator that is not a regular-expression
   * metacharacter: the pieces between separators with the trailing empty pieces
   * removed; a text without the separator is its own single piece.
   */
  function Split(s: string, sep: char): (r: seq<string>)
    ensures sep !in s ==> r == [s]
    ensures forall k :: 0 <= k < |r| ==> sep !in r[k]
    ensures forall k, i :: 0 <= k < |r| && 0 <= i < |r[k]| ==> r[k][i] in s
    ensures Join(r, sep) == TrimTrailing(s, sep)
  {
    if sep !in s then
      TrimTrailingNone(s, sep);
      [s]
    else
      SplitAllJoin(s, sep);
      DropTrailingJoin(SplitAll(s, sep), sep);
      DropTrailingEmpty(SplitAll(s, sep))
  }

  /** s with every separator at its end removed. */
  function TrimTrailing(s: string, sep: char): (r: string)
    ensures |r| <= |s| && r == s[..|r|]
    ensures r == [] || r[|r| - 1] != sep
    ensures forall k :: |r| <= k < |s| ==> s[k] == sep
  {
    if s != [] && s[|s| - 1] == sep then TrimTrailing(s[..|s| - 1], sep) else s
  }

  lemma {:induction false} TrimTrailingNone(s: string, sep: char)
    requires sep !in s
    ensures TrimTrailing(s, sep) == s
  {
  }

  /** Joining one more piece adds a separator and the piece. */
  lemma {:induction false} JoinSnoc(pieces: seq<string>, x: string, sep: char)
    requires |pieces| >= 1
    ensures Join(pieces + [x], sep) == Join(pieces, sep) + [sep] + x
    decreases |pieces|
  {
    if |pieces| > 1 {
      assert (pieces + [x])[1..] == pieces[1..] + [x];
      JoinSnoc(pieces[1..], x, sep);
    }
  }

  /** Dropping the trailing empty pieces drops the trailing separators of the joined text. */
  lemma {:induction false} DropTrailingJoin(pieces: seq<string>, sep: char)
    requires |pieces| >= 1
    requires forall k :: 0 <= k < |pieces| ==> sep !in pieces[k]
    ensures Join(DropTrailingEmpty(pieces), sep) == TrimTrailing(Join(pieces, sep), sep)
    decreases |pieces|
  {
    var n := |pieces|;
    var x := pieces[n - 1];
    var p := pieces[..n - 1];
    assert pieces == p + [x];
    if n > 1 {
      JoinSnoc(p, x, sep);
    }
    if x == "" {
      if n > 1 {
        var j := Join(p, sep);
        assert Join(pieces, sep) == j + [sep];
        assert (j + [sep])[..|j|] == j;
        DropTrailingJoin(p, sep);
      }
    } else {
      var j := Join(pieces, sep);
      assert j[|j| - 1] == x[|x| - 1];
    }
  }

  /** s begins with t, compared one character at a time. */
  predicate Leads(s: string, t: string)
    decreases |t|
  {
    |t| == 0 || (|s| > 0 && s[0] == t[0] && Leads(s[1..], t[1..]))
  }

  /** Leads is StartsWith. */
  lemma {:induction false} LeadsIsStartsWith(s: string, t: string)
    ensures Leads(s, t) <==> StartsWith(s, t)
    decreases |t|
  {
    if |t| > 0 && |s| > 0 {
      LeadsIsStartsWith(s[1..], t[1..]);
      if |t| <= |s| {
        assert s[..|t|] == [s[0]] + s[1..][..|t| - 1];
        assert t == [t[0]] + t[1..];
      }
    }
  }

  /** String.replace(target, replacement): every non-overlapping occurrence, left to right. */
  function ReplaceAll(s: string, target: string, replacement: string): string
    requires |target| > 0
    decreases |s|
  {
    if |s| < |target| then s
    else if Leads(s, target) then replacement + ReplaceAll(s[|target|..], target, replacement)
    else [s[0]] + ReplaceAll(s[1..], target, replacement)
  }

  /** String.replaceFirst with a target that holds no regular-expression metacharacter. */
  function ReplaceFirst(s: string, target: string, replacement: string): string
    requires |target| > 0
    decreases |s|
  {
    if |s| < |target| then s
    else if s[..|target|] == target then replacement + s[|target|..]
    else [s[0]] + ReplaceFirst(s[1..], target, replacement)
  }

  lemma {:induction false} ReplaceFirstAbsent(s: string, target: string, replacement: string)
    requires |target| > 0 && !Contains(s, target)
    ensures ReplaceFirst(s, target, replacement) == s
    decreases |s|
  {
    if |s| >= |target| {
      ReplaceFirstAbsent(s[1..], target, replacement);
    }
  }

  /** Text that does not start with the target keeps its first character. */
  lemma {:induction false} ReplaceFirstSkips(s: string, target: string, replacement: string)
    requires |target| > 0 && |target| <= |s| && s[..|target|] != target
    ensures ReplaceFirst(s, target, replacement) == [s[0]] + ReplaceFirst(s[1..], target, replacement)
  {
  }

  /** A prefix without the target does not start with it, nor does its tail hold it. */
  lemma {:induction false} NotContainsParts(x: string, target: string)
    requires x != [] && !Contains(x, target)
    ensures !StartsWith(x, target) && !Contains(x[1..], target)
  {
  }

  /** ReplaceFirst replaces exactly the first occurrence. */
  lemma {:induction false} ReplaceFirstAt(s: string, target: string, replacement: string, i: nat)
    requires |target| > 0 && i + |target| <= |s| && s[i..i + |target|] == target
    requires !Contains(s[..i + |target| - 1], target)
    ensures ReplaceFirst(s, target, replacement) == s[..i] + replacement + s[i + |target|..]
    decreases i
  {
    if i > 0 {
      ShiftedOccurrence(s, target, i);
      ReplaceFirstSkips(s, target, replacement);
      ReplaceFirstAt(s[1..], target, replacement, i - 1);
      assert s[1..][i - 1 + |target|..] == s[1..][i + |target| - 1..];
      ConsSplice(s, i, i + |target|, replacement);
    }
  }

  /** String.replace leaves the text before the first occurrence alone, writes the replacement there and goes on after it. */
  lemma {:induction false} ReplaceAllAt(s: string, target: string, replacement: string, i: nat)
    requires |target| > 0 && i + |target| <= |s| && s[i..i + |target|] == target
    requires !Contains(s[..i + |target| - 1], target)
    ensures ReplaceAll(s, target, replacement) == s[..i] + replacement + ReplaceAll(s[i + |target|..], target, replacement)
    decreases i
  {
    LeadsIsStartsWith(s, target);
    if i > 0 {
      ShiftedOccurrence(s, target, i);
      ReplaceAllSkips(s, target, replacement);
      ReplaceAllAt(s[1..], target, replacement, i - 1);
      assert s[1..][i - 1 + |target|..] == s[i + |target|..];
      ConsPrefix(s, i, replacement, ReplaceAll(s[i + |target|..], target, replacement));
    }
  }

  /** Text that does not start with the target keeps its first character under String.replace. */
  lemma {:induction false} ReplaceAllSkips(s: string, target: string, replacement: string)
    requires |target| > 0 && |target| <= |s| && s[..|target|] != target
    ensures ReplaceAll(s, target, replacement) == [s[0]] + ReplaceAll(s[1..], target, replacement)
  {
    LeadsIsStartsWith(s, target);
  }

  /** The first character put back in front of a prefix of the rest, followed by other text. */
  lemma {:induction false} ConsPrefix(s: string, i: nat, middle: string, tail: string)
    requires 0 < i <= |s|
    ensures [s[0]] + (s[1..][..i - 1] + middle + tail) == s[..i] + middle + tail
  {
    assert [s[0]] + s[1..][..i - 1] == s[..i];
  }

  /** A first occurrence at i > 0 is a first occurrence at i - 1 of the text without its first character. */
  lemma {:induction false} ShiftedOccurrence(s: string, target: string, i: nat)
    requires |target| > 0 && 0 < i && i + |target| <= |s| && s[i..i + |target|] == target
    requires !Contains(s[..i + |target| - 1], target)
    ensures s[..|target|] != target
    ensures s[1..][i - 1..i - 1 + |target|] == target
    ensures !Contains(s[1..][..i - 1 + |target| - 1], target)
  {
    var x := s[..i + |target| - 1];
    NotContainsParts(x, target);
    PrefixOfPrefix(s, |target|, i + |target| - 1);
    SliceOfTail(s, i - 1, i - 1 + |target|);
    PrefixOfTail(s, i - 1 + |target| - 1);
  }

  lemma {:induction false} PrefixOfPrefix(s: string, m: nat, n: nat)
    requires m <= n <= |s|
    ensures s[..n][..m] == s[..m]
  {
  }

  lemma {:induction false} SliceOfTail(s: string, m: nat, n: nat)
    requires m <= n < |s|
    ensures s[1..][m..n] == s[m + 1..n + 1]
  {
  }

  lemma {:induction false} PrefixOfTail(s: string, n: nat)
    requires n < |s|
    ensures s[1..][..n] == s[..n + 1][1..]
  {
  }

  /** The first character put back in front of a splice of the rest. */
  lemma {:induction false} ConsSplice(s: string, i: nat, k: nat, replacement: string)
    requires 0 < i <= k <= |s|
    ensures [s[0]] + (s[1..][..i - 1] + replacement + s[1..][k - 1..]) == s[..i] + replacement + s[k..]
  {
    assert s[1..][k - 1..] == s[k..];
    assert [s[0]] + s[1..][..i - 1] == s[..i];
  }

  function DigitChar(d: nat): (c: char)
    requires d < 10
    ensures IsDigit(c)
  {
    ('0' as int + d) as char
  }

  /** Integer.toString for a non-negative value: its decimal digits without leading zeros. */
  function NatToString(n: nat): (r: string)
    ensures |r| >= 1 && AllDigits(r)
    ensures r[0] == '0' ==> n == 0
    decreases n
  {
    if n < 10 then [DigitChar(n)] else NatToString(n / 10) + [DigitChar(n % 10)]
  }

  /** Integer.toString: a minus sign before the digits of a negative value. */
  function IntToString(n: int): (r: string)
    ensures |r| >= 1
    ensures r[0] == '-' <==> n < 0
  {
    if n < 0 then "-" + NatToString(-n) else NatToString(n)
  }
}
