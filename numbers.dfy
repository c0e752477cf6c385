// Number parsing, rounding and decimal arithmetic as the Java library
// performs them for the parsers: Double.parseDouble on decimal literals,
// Math.round, new BigDecimal(String), BigDecimal add/subtract/multiply/divide
// with their scale rules, and BigDecimal.toString.
// Doubles are modelled as exact rationals (`real`).

module Numbers {
  import opened Errors
  import opened Text

  function DigitValue(c: char): (d: nat)
    requires IsDigit(c)
    ensures d < 10 && DigitChar(d) == c
  {
    c as int - '0' as int
  }

  /** The value of a run of decimal digits, most significant first. */
  function DigitsValue(s: string): nat
    requires AllDigits(s)
    decreases |s|
  {
    if s == [] then 0 else DigitsValue(s[..|s| - 1]) * 10 + DigitValue(s[|s| - 1])
  }

  /** Integer.toString and the digit reading invert each other. */
  lemma {:induction false} DigitsValueOfNatToString(n: nat)
    ensures DigitsValue(NatToString(n)) == n
    decreases n
  {
    if n >= 10 {
      var s := NatToString(n);
      assert s[..|s| - 1] == NatToString(n / 10);
      DigitsValueOfNatToString(n / 10);
    }
  }

  function Pow10(k: nat): (p: nat)
    ensures p >= 1
  {
    if k == 0 then 1 else 10 * Pow10(k - 1)
  }

  /** 10^e for any integer exponent, as an exact rational. */
  function RealPow10(e: int): real
    decreases if e >= 0 then e else -e
  {
    if e == 0 then 1.0 else if e > 0 then 10.0 * RealPow10(e - 1) else RealPow10(e + 1) / 10.0
  }

  lemma {:induction false} Pow10Add(a: nat, b: nat)
    ensures Pow10(a + b) == Pow10(a) * Pow10(b)
  {
    if a > 0 {
      Pow10Add(a - 1, b);
    }
  }

  lemma {:induction false} MulAssociates(a: int, b: int, c: int)
    ensures a * (b * c) == (a * b) * c
  {
  }

  lemma {:induction false} MulDistributes(a: int, b: int, c: int)
    ensures (a + b) * c == a * c + b * c
    ensures (a - b) * c == a * c - b * c
  {
  }

  lemma {:induction false} MulRegroups(a: int, b: int, c: int, d: int)
    ensures (a * b) * (c * d) == (a * c) * (b * d)
  {
  }

  /** The end of the maximal run of digits that starts at i. */
  function DigitRunEnd(s: string, i: nat): (j: nat)
    requires i <= |s|
    ensures i <= j <= |s| && AllDigits(s[i..j])
    ensures j < |s| ==> !IsDigit(s[j])
    decreases |s| - i
  {
    if i < |s| && IsDigit(s[i]) then
      var j := DigitRunEnd(s, i + 1);
      assert s[i..j] == [s[i]] + s[i + 1..j];
      j
    else i
  }

  lemma {:induction false} DigitRunEndOfDigits(s: string, i: nat)
    requires i <= |s| && AllDigits(s[i..])
    ensures DigitRunEnd(s, i) == |s|
    decreases |s| - i
  {
    if i < |s| {
      assert s[i] == s[i..][0];
      assert s[i + 1..] == s[i..][1..];
      DigitRunEndOfDigits(s, i + 1);
    }
  }

  /**
   * A decimal literal: sign, all mantissa digits (whole part then fraction), the
   * number of fraction digits and the exponent.
   */
  datatype Literal = Literal(negative: bool, digits: string, fractionLength: nat, exponent: int)

  predicate WellFormedLiteral(l: Literal)
  {
    |l.digits| >= 1 && AllDigits(l.digits) && l.fractionLength <= |l.digits|
  }

  /** An optional exponent marker with an optional sign and at least one digit, read at i. */
  function ScanExponent(s: string, i: nat): (r: Option<(int, nat)>)
    requires i <= |s|
    ensures r.Some? ==> i <= r.value.1 <= |s|
    ensures !(i < |s| && (s[i] == 'e' || s[i] == 'E')) ==> r == Some((0, i))
  {
    if i < |s| && (s[i] == 'e' || s[i] == 'E') then
      var signed := i + 1 < |s| && (s[i + 1] == '+' || s[i + 1] == '-');
      var j := if signed then i + 2 else i + 1;
      var k := DigitRunEnd(s, j);
      if k == j then None
      else
        var magnitude := DigitsValue(s[j..k]) as int;
        Some((if signed && s[i + 1] == '-' then -magnitude else magnitude, k))
    else Some((0, i))
  }

  /** After the mantissa, at i: the optional exponent and, when allowSuffix holds, a type suffix f, F, d or D; nothing else may follow. */
  function ScanTail(s: string, i: nat, allowSuffix: bool, l: Literal): (r: Option<Literal>)
    requires i <= |s|
    ensures r.Some? ==> r.value == l.(exponent := r.value.exponent)
  {
    match ScanExponent(s, i)
    case None => None
    case Some((exponent, i3)) =>
      var i4 := if allowSuffix && i3 < |s| && s[i3] in "fFdD" then i3 + 1 else i3;
      if i4 != |s| then None else Some(l.(exponent := exponent))
  }

  /**
   * The mantissa from i on, one character at a time: digits, at most one
   * point, then the tail once a character is neither. digits holds the
   * digits read so far, fractionLength how many of them follow the point.
   */
  function ScanMantissa(s: string, i: nat, allowSuffix: bool, negative: bool, digits: string, fractionLength: nat, point: bool)
    : (r: Option<Literal>)
    requires i <= |s| && AllDigits(digits) && fractionLength <= |digits|
    ensures r.Some? ==> WellFormedLiteral(r.value)
    decreases |s| - i
  {
    if i < |s| && IsDigit(s[i]) then
      ScanMantissa(s, i + 1, allowSuffix, negative, digits + [s[i]], if point then fractionLength + 1 else fractionLength, point)
    else if i < |s| && s[i] == '.' && !point then
      ScanMantissa(s, i + 1, allowSuffix, negative, digits, fractionLength, true)
    else if digits == [] then None
    else ScanTail(s, i, allowSuffix, Literal(negative, digits, fractionLength, 0))
  }

  /**
   * The decimal floating-point literal grammar shared by Double.parseDouble and
   * new BigDecimal(String): an optional sign, digits with an optional point (at
   * least one digit in all), an optional exponent and, when allowSuffix holds,
   * a type suffix f, F, d or D; nothing else may follow.
   */
  function ScanLiteral(s: string, allowSuffix: bool): (r: Option<Literal>)
    ensures r.Some? ==> WellFormedLiteral(r.value)
    ensures r.Some? ==> s != [] && (IsDigit(s[0]) || s[0] in "+-.")
  {
    var signed := |s| > 0 && (s[0] == '+' || s[0] == '-');
    ScanMantissa(s, if signed then 1 else 0, allowSuffix, signed && s[0] == '-', [], 0, false)
  }

  /** A run of digits to the end of the text, with no point read yet, is the whole rest of the mantissa. */
  lemma {:induction false} ScanMantissaOfDigits(s: string, i: nat, allowSuffix: bool, negative: bool, digits: string)
    requires i <= |s| && AllDigits(digits) && AllDigits(s[i..]) && |digits| + |s| - i >= 1
    ensures ScanMantissa(s, i, allowSuffix, negative, digits, 0, false) == Some(Literal(negative, digits + s[i..], 0, 0))
    decreases |s| - i
  {
    if i < |s| {
      assert IsDigit(s[i..][0]);
      assert s[i + 1..] == s[i..][1..];
      assert (digits + [s[i]]) + s[i + 1..] == digits + s[i..];
      ScanMantissaOfDigits(s, i + 1, allowSuffix, negative, digits + [s[i]]);
    } else {
      assert ScanExponent(s, i) == Some((0, i));
      assert digits + s[i..] == digits;
    }
  }

  lemma {:induction false} ScanLiteralOfDigits(s: string, allowSuffix: bool)
    requires |s| >= 1 && AllDigits(s)
    ensures ScanLiteral(s, allowSuffix) == Some(Literal(false, s, 0, 0))
  {
    assert IsDigit(s[0]);
    assert s[0..] == s;
    ScanMantissaOfDigits(s, 0, allowSuffix, false, []);
    assert [] + s == s;
  }

  function LiteralValue(l: Literal): real
    requires WellFormedLiteral(l)
  {
    (if l.negative then -1.0 else 1.0) * DigitsValue(l.digits) as real * RealPow10(l.exponent - l.fractionLength)
  }

  /** Double.parseDouble on a decimal literal; anything else raises NumberFormatException. */
  function ParseDouble(s: string): (r: Result<real>)
    ensures r.Err? ==> r.error == Runtime(NumberFormat)
    ensures r.Ok? <==> ScanLiteral(s, true).Some?
  {
    match ScanLiteral(s, true)
    case None => Err(Runtime(NumberFormat))
    case Some(l) => Ok(LiteralValue(l))
  }

  /** A non-negative integer written by Integer.toString parses back to itself. */
  lemma {:induction false} ParseDoubleOfNatToString(n: nat)
    ensures ParseDouble(NatToString(n)) == Ok(n as real)
  {
    ScanLiteralOfDigits(NatToString(n), true);
    DigitsValueOfNatToString(n);
  }

  lemma {:induction false} ScanLiteralOfNegative(t: string, allowSuffix: bool)
    requires |t| >= 1 && AllDigits(t)
    ensures ScanLiteral("-" + t, allowSuffix) == Some(Literal(true, t, 0, 0))
  {
    var s := "-" + t;
    assert s[1..] == t;
    ScanMantissaOfDigits(s, 1, allowSuffix, true, []);
    assert [] + t == t;
  }

  /** Any integer written by Integer.toString parses back to itself. */
  lemma {:induction false} ParseDoubleOfIntToString(n: int)
    ensures ParseDouble(IntToString(n)) == Ok(n as real)
  {
    if n >= 0 {
      ParseDoubleOfNatToString(n);
    } else {
      ScanLiteralOfNegative(NatToString(-n), true);
      DigitsValueOfNatToString(-n);
    }
  }

  /** v is a whole number of hundredths. */
  predicate Hundredths(v: real)
  {
    (v * 100.0).Floor as real == v * 100.0
  }

  /** Math.round(x * 100) / 100.0: x rounded half up to two decimal places. */
  function Round2(x: real): (r: real)
    ensures x - 1.0 / 200.0 < r <= x + 1.0 / 200.0
    ensures Hundredths(r)
  {
    ((x * 100.0 + 0.5).Floor as real) / 100.0
  }

  /** A value rounded to two places, or the error it came with. */
  function Round2Result(x: Result<real>): (r: Result<real>)
    ensures r.Ok? <==> x.Ok?
    ensures r.Err? ==> r.error == x.error
    ensures r.Ok? ==> x.value - 1.0 / 200.0 < r.value <= x.value + 1.0 / 200.0
    ensures r.Ok? ==> Hundredths(r.value)
  {
    if x.Ok? then Ok(Round2(x.value)) else Err(x.error)
  }

  lemma {:induction false} FloorOfHalfAbove(k: int)
    ensures (k as real + 0.5).Floor == k
  {
  }

  lemma {:induction false} Round2Idempotent(x: real)
    ensures Round2(Round2(x)) == Round2(x)
  {
    var k := (x * 100.0 + 0.5).Floor;
    var r := k as real / 100.0;
    assert r == Round2(x);
    assert r * 100.0 == k as real;
    FloorOfHalfAbove(k);
  }

  lemma {:induction false} Round2OfInteger(n: int)
    ensures Round2(n as real) == n as real
  {
    assert n as real * 100.0 == (n * 100) as real;
    FloorOfHalfAbove(n * 100);
  }

  /** Math.round: the nearest integer, halves rounded towards positive infinity. */
  function RoundHalfUp(x: real): (r: int)
    ensures x - 0.5 < r as real <= x + 0.5
  {
    (x + 0.5).Floor
  }

  const IntMin: int := -0x8000_0000
  const IntMax: int := 0x7FFF_FFFF

  /** Math.toIntExact(Math.round(x)): the rounded value when it fits in a Java int. */
  function RoundToInt(x: real): (r: Result<int>)
    ensures r.Ok? ==> IntMin <= r.value <= IntMax && x - 0.5 < r.value as real <= x + 0.5
    ensures r.Err? ==> r.error == Runtime(IntOverflow) && !(IntMin <= RoundHalfUp(x) <= IntMax)
  {
    var n := RoundHalfUp(x);
    if IntMin <= n <= IntMax then Ok(n) else Err(Runtime(IntOverflow))
  }

  // ---------------------------------------------------------------- BigDecimal

  /** A java.math.BigDecimal: unscaled value and scale, worth unscaled * 10^-scale. */
  datatype Decimal = Decimal(unscaled: int, scale: int)

  function Max(a: int, b: int): int { if a >= b then a else b }

  /** The value of d times 10^s: a whole number once s reaches d's scale. */
  function Shifted(d: Decimal, s: int): int
    requires s >= d.scale
  {
    d.unscaled * Pow10(s - d.scale)
  }

  /** Two decimals denote the same number, as BigDecimal.compareTo sees them. */
  predicate SameValue(x: Decimal, y: Decimal)
  {
    Shifted(x, Max(x.scale, y.scale)) == Shifted(y, Max(x.scale, y.scale))
  }

  lemma {:induction false} ShiftedFurther(d: Decimal, s: int, t: nat)
    requires s >= d.scale
    ensures Shifted(d, s + t) == Shifted(d, s) * Pow10(t)
  {
    Pow10Add(s - d.scale, t);
    assert s + t - d.scale == (s - d.scale) + t;
    MulAssociates(d.unscaled, Pow10(s - d.scale), Pow10(t));
  }

  /** new BigDecimal(String): the literal's digits as unscaled value, fraction length minus exponent as scale. */
  function ParseBigDecimal(s: string): (r: Result<Decimal>)
    ensures r.Err? ==> r.error == Runtime(NumberFormat)
    ensures r.Ok? <==> ScanLiteral(s, false).Some?
  {
    match ScanLiteral(s, false)
    case None => Err(Runtime(NumberFormat))
    case Some(l) =>
      var magnitude: int := DigitsValue(l.digits);
      Ok(Decimal(if l.negative then -magnitude else magnitude, l.fractionLength - l.exponent))
  }

  /** BigDecimal.add: the sum at the larger of the two scales. */
  function DecimalAdd(b: Decimal, a: Decimal): (r: Decimal)
    ensures r.scale == Max(b.scale, a.scale)
  {
    var s := Max(b.scale, a.scale);
    Decimal(Shifted(b, s) + Shifted(a, s), s)
  }

  /** The sum is exact: at every scale where both operands are whole numbers it is their sum. */
  lemma {:induction false} DecimalAddExact(b: Decimal, a: Decimal, s: int)
    requires s >= Max(b.scale, a.scale)
    ensures Shifted(DecimalAdd(b, a), s) == Shifted(b, s) + Shifted(a, s)
  {
    var m := Max(b.scale, a.scale);
    var t: nat := s - m;
    var r := DecimalAdd(b, a);
    ShiftedFurther(r, m, t);
    ShiftedFurther(b, m, t);
    ShiftedFurther(a, m, t);
    assert m + t == s;
    MulDistributes(Shifted(b, m), Shifted(a, m), Pow10(t));
  }

  /** BigDecimal.subtract: the difference at the larger of the two scales. */
  function DecimalSubtract(b: Decimal, a: Decimal): (r: Decimal)
    ensures r.scale == Max(b.scale, a.scale)
  {
    var s := Max(b.scale, a.scale);
    Decimal(Shifted(b, s) - Shifted(a, s), s)
  }

  lemma {:induction false} DecimalSubtractExact(b: Decimal, a: Decimal, s: int)
    requires s >= Max(b.scale, a.scale)
    ensures Shifted(DecimalSubtract(b, a), s) == Shifted(b, s) - Shifted(a, s)
  {
    var m := Max(b.scale, a.scale);
    var t: nat := s - m;
    var r := DecimalSubtract(b, a);
    ShiftedFurther(r, m, t);
    ShiftedFurther(b, m, t);
    ShiftedFurther(a, m, t);
    assert m + t == s;
    MulDistributes(Shifted(b, m), Shifted(a, m), Pow10(t));
  }

  /** BigDecimal.multiply: the product of the unscaled values at the sum of the scales. */
  function DecimalMultiply(b: Decimal, a: Decimal): (r: Decimal)
    ensures r.scale == b.scale + a.scale
  {
    Decimal(b.unscaled * a.unscaled, b.scale + a.scale)
  }

  /** The product is exact: shifted by s + t it is the product of the operands shifted by s and t. */
  lemma {:induction false} DecimalMultiplyExact(b: Decimal, a: Decimal, s: int, t: int)
    requires s >= b.scale && t >= a.scale
    ensures Shifted(DecimalMultiply(b, a), s + t) == Shifted(b, s) * Shifted(a, t)
  {
    Pow10Add(s - b.scale, t - a.scale);
    assert s + t - (b.scale + a.scale) == (s - b.scale) + (t - a.scale);
    MulRegroups(b.unscaled, a.unscaled, Pow10(s - b.scale), Pow10(t - a.scale));
  }

  /** The least k in [from, limit] with divisor dividing n * 10^k. */
  function ExactShift(n: int, divisor: int, from: nat, limit: nat): (r: Option<nat>)
    requires divisor != 0
    ensures r.Some? ==> from <= r.value <= limit && (n * Pow10(r.value)) % divisor == 0
    ensures r.Some? ==> forall j :: from <= j < r.value ==> (n * Pow10(j)) % divisor != 0
    ensures r.None? ==> forall j :: from <= j <= limit ==> (n * Pow10(j)) % divisor != 0
    decreases limit - from
  {
    if from > limit then None
    else if (n * Pow10(from)) % divisor == 0 then Some(from)
    else ExactShift(n, divisor, from + 1, limit)
  }

  lemma {:induction false} ExactQuotient(x: int, d: int)
    requires d != 0 && x % d == 0
    ensures (x / d) * d == x
  {
  }

  /**
   * BigDecimal.divide(BigDecimal): the exact quotient at the least scale no
   * smaller than the preferred scale b.scale - a.scale; a quotient with no
   * terminating decimal expansion raises ArithmeticException. The search for
   * the scale stops |a.unscaled| places above the preferred one: a divisor d
   * that divides n * 10^k for some k already divides n * 10^j for some j below
   * log2 |d|.
   */
  function DecimalDivide(b: Decimal, a: Decimal): (r: Result<Decimal>)
    requires a.unscaled != 0
    ensures r.Ok? ==> r.value.scale >= b.scale - a.scale
    ensures r.Ok? ==> r.value.unscaled * a.unscaled == Shifted(b, r.value.scale + a.scale)
    ensures r.Ok? ==> forall j: nat :: j < r.value.scale - (b.scale - a.scale) ==>
                        (b.unscaled * Pow10(j)) % a.unscaled != 0
    ensures r.Err? ==> r.error == Runtime(NonTerminatingQuotient)
    ensures r.Err? ==> forall j: nat :: j <= (if a.unscaled < 0 then -a.unscaled else a.unscaled) ==>
                         (b.unscaled * Pow10(j)) % a.unscaled != 0
  {
    var limit := if a.unscaled < 0 then -a.unscaled else a.unscaled;
    match ExactShift(b.unscaled, a.unscaled, 0, limit)
    case None => Err(Runtime(NonTerminatingQuotient))
    case Some(k) =>
      var q := b.unscaled * Pow10(k) / a.unscaled;
      ExactQuotient(b.unscaled * Pow10(k), a.unscaled);
      assert b.scale - a.scale + k + a.scale - b.scale == k;
      Ok(Decimal(q, b.scale - a.scale + k))
  }

  function Zeros(n: nat): (r: string)
    ensures |r| == n && AllDigits(r)
  {
    if n == 0 then "" else "0" + Zeros(n - 1)
  }

  /** The magnitude of the unscaled value, whose digits BigDecimal.toString writes. */
  function Magnitude(d: Decimal): nat
  {
    if d.unscaled < 0 then -d.unscaled else d.unscaled
  }

  /** The sign BigDecimal.toString writes: a minus before a negative value, nothing otherwise. */
  function SignText(d: Decimal): string
  {
    if d.unscaled < 0 then "-" else ""
  }

  /** The exponent of scientific notation: 'E', a '+' before a positive value, then Integer.toString. */
  function ExponentText(e: int): (r: string)
    ensures |r| >= 2 && r[0] == 'E'
  {
    "E" + (if e > 0 then "+" else "") + IntToString(e)
  }

  /**
   * BigDecimal.toString: plain notation when the scale is not negative and the
   * adjusted exponent is at least -6, scientific notation otherwise.
   */
  function DecimalToString(d: Decimal): (r: string)
    ensures |r| >= 1
  {
    var coefficient := NatToString(Magnitude(d));
    var sign := SignText(d);
    var adjusted := -d.scale + (|coefficient| - 1);
    if d.scale == 0 then sign + coefficient
    else if d.scale > 0 && adjusted >= -6 then
      if |coefficient| > d.scale then
        sign + coefficient[..|coefficient| - d.scale] + "." + coefficient[|coefficient| - d.scale..]
      else
        sign + "0." + Zeros(d.scale - |coefficient|) + coefficient
    else
      sign + coefficient[..1] + (if |coefficient| > 1 then "." + coefficient[1..] else "") + ExponentText(adjusted)
  }

  // ------------------------------------------------ reading toString back

  /** The digits of a + b: those of a shifted past b's, plus b's. */
  lemma {:induction false} DigitsValueAppend(a: string, b: string)
    requires AllDigits(a) && AllDigits(b)
    ensures AllDigits(a + b)
    ensures DigitsValue(a + b) == DigitsValue(a) * Pow10(|b|) + DigitsValue(b)
    decreases |b|
  {
    if b == [] {
      assert a + b == a;
    } else {
      var c := b[..|b| - 1];
      assert (a + b)[..|a + b| - 1] == a + c;
      assert (a + b)[|a + b| - 1] == b[|b| - 1];
      DigitsValueAppend(a, c);
      MulAssociates(DigitsValue(a), Pow10(|c|), 10);
      MulDistributes(DigitsValue(a) * Pow10(|c|), DigitsValue(c), 10);
    }
  }

  /** Leading zeros add nothing: a run of zeros is worth zero. */
  lemma {:induction false} DigitsValueOfZeros(n: nat)
    ensures DigitsValue(Zeros(n)) == 0
  {
    if n > 0 {
      DigitsValueOfZeros(n - 1);
      DigitsValueAppend("0", Zeros(n - 1));
      assert "0"[..0] == [];
    }
  }

  /** A run of digits from i to j is appended to the mantissa's digits, and counted as fraction after the point. */
  lemma {:induction false} ScanDigitRun(s: string, i: nat, j: nat, negative: bool, digits: string, fractionLength: nat, point: bool)
    requires i <= j <= |s| && AllDigits(s[i..j]) && AllDigits(digits) && fractionLength <= |digits|
    ensures AllDigits(digits + s[i..j])
    ensures ScanMantissa(s, i, false, negative, digits, fractionLength, point) ==
      ScanMantissa(s, j, false, negative, digits + s[i..j], if point then fractionLength + (j - i) else fractionLength, point)
    decreases j - i
  {
    if i < j {
      assert IsDigit(s[i..j][0]);
      assert s[i + 1..j] == s[i..j][1..];
      assert (digits + [s[i]]) + s[i + 1..j] == digits + s[i..j];
      ScanDigitRun(s, i + 1, j, negative, digits + [s[i]], if point then fractionLength + 1 else fractionLength, point);
    } else {
      assert digits + s[i..j] == digits;
    }
  }

  /** The start of the mantissa: after a minus sign, or at the first digit. */
  lemma {:induction false} ScanSign(s: string, sign: string, whole: string, rest: string)
    requires s == sign + whole + rest
    requires (sign == "" || sign == "-") && |whole| >= 1 && AllDigits(whole)
    ensures ScanLiteral(s, false) == ScanMantissa(s, |sign|, false, sign == "-", [], 0, false)
    ensures s[|sign|..|sign| + |whole|] == whole
  {
    assert s[|sign|..|sign| + |whole|] == whole;
    if sign == "" {
      assert s[0] == whole[0];
    } else {
      assert s[0] == '-';
    }
  }

  /** Where the pieces of sign + whole + "." + fraction + rest stand. */
  lemma {:induction false} PointedPieces(s: string, sign: string, whole: string, fraction: string, rest: string)
    requires s == sign + whole + "." + fraction + rest
    ensures var i1 := |sign| + |whole|;
      i1 < |s| && s[i1] == '.' && s[i1 + 1..i1 + 1 + |fraction|] == fraction && i1 + 1 + |fraction| == |s| - |rest| &&
      (rest != [] ==> s[|s| - |rest|] == rest[0])
  {
    var i1 := |sign| + |whole|;
    assert s == (sign + whole) + "." + fraction + rest;
    assert s[i1 + 1..i1 + 1 + |fraction|] == fraction;
  }

  /** The point: the fraction starts. */
  lemma {:induction false} ScanPoint(s: string, i: nat, negative: bool, digits: string)
    requires i < |s| && s[i] == '.' && AllDigits(digits)
    ensures ScanMantissa(s, i, false, negative, digits, 0, false) == ScanMantissa(s, i + 1, false, negative, digits, 0, true)
  {
  }

  /** After the point, a character that is no digit ends the mantissa. */
  lemma {:induction false} ScanFractionEnd(s: string, i: nat, negative: bool, digits: string, fractionLength: nat)
    requires i <= |s| && (i < |s| ==> !IsDigit(s[i])) && |digits| >= 1 && AllDigits(digits) && fractionLength <= |digits|
    ensures ScanMantissa(s, i, false, negative, digits, fractionLength, true) ==
      ScanTail(s, i, false, Literal(negative, digits, fractionLength, 0))
  {
  }

  /** ScanDigitRun over a run known by its text, with the digits it leaves named. */
  lemma {:induction false} ScanKnownRun(s: string, i: nat, run: string, negative: bool, digits: string, merged: string,
                                        fractionLength: nat, after: nat, point: bool)
    requires i + |run| <= |s| && s[i..i + |run|] == run && AllDigits(run) && AllDigits(digits) && fractionLength <= |digits|
    requires merged == digits + run && after == (if point then fractionLength + |run| else fractionLength)
    ensures AllDigits(merged) && after <= |merged|
    ensures ScanMantissa(s, i, false, negative, digits, fractionLength, point) ==
      ScanMantissa(s, i + |run|, false, negative, merged, after, point)
  {
    ScanDigitRun(s, i, i + |run|, negative, digits, fractionLength, point);
  }

  /** The scan of a mantissa with a point, from the positions of its pieces. */
  lemma {:induction false} ScanPointedAt(s: string, start: nat, whole: string, fraction: string, negative: bool)
    requires start + |whole| + 1 + |fraction| <= |s| && |whole| >= 1 && AllDigits(whole) && AllDigits(fraction)
    requires s[start..start + |whole|] == whole && s[start + |whole|] == '.'
    requires s[start + |whole| + 1..start + |whole| + 1 + |fraction|] == fraction
    requires start + |whole| + 1 + |fraction| < |s| ==> !IsDigit(s[start + |whole| + 1 + |fraction|])
    ensures AllDigits(whole + fraction)
    ensures ScanMantissa(s, start, false, negative, [], 0, false) ==
      ScanTail(s, start + |whole| + 1 + |fraction|, false, Literal(negative, whole + fraction, |fraction|, 0))
  {
    var i1 := start + |whole|;
    var i2 := i1 + 1 + |fraction|;
    assert ScanMantissa(s, start, false, negative, [], 0, false) == ScanMantissa(s, i1, false, negative, whole, 0, false) by {
      assert [] + whole == whole;
      ScanKnownRun(s, start, whole, negative, [], whole, 0, 0, false);
    }
    ScanPoint(s, i1, negative, whole);
    assert AllDigits(whole + fraction) &&
      ScanMantissa(s, i1 + 1, false, negative, whole, 0, true) == ScanMantissa(s, i2, false, negative, whole + fraction, |fraction|, true) by {
      ScanKnownRun(s, i1 + 1, fraction, negative, whole, whole + fraction, 0, |fraction|, true);
    }
    ScanFractionEnd(s, i2, negative, whole + fraction, |fraction|);
  }

  /** A sign, whole digits, a point and fraction digits, then no digit: the mantissa holds all the digits, the fraction's length, and the tail is read next. */
  lemma {:induction false} ScanPointed(s: string, sign: string, whole: string, fraction: string, rest: string)
    requires s == sign + whole + "." + fraction + rest
    requires (sign == "" || sign == "-") && |whole| >= 1 && AllDigits(whole) && AllDigits(fraction)
    requires rest == [] || !IsDigit(rest[0])
    ensures AllDigits(whole + fraction)
    ensures ScanLiteral(s, false) == ScanTail(s, |s| - |rest|, false, Literal(sign == "-", whole + fraction, |fraction|, 0))
  {
    PointedLayout(s, sign, whole, fraction, rest);
    ScanPointedAt(s, |sign|, whole, fraction, sign == "-");
  }

  /** Where the pieces of a pointed mantissa sit in the text, and the sign read before them. */
  lemma {:induction false} PointedLayout(s: string, sign: string, whole: string, fraction: string, rest: string)
    requires s == sign + whole + "." + fraction + rest
    requires (sign == "" || sign == "-") && |whole| >= 1 && AllDigits(whole)
    requires rest == [] || !IsDigit(rest[0])
    ensures ScanLiteral(s, false) == ScanMantissa(s, |sign|, false, sign == "-", [], 0, false)
    ensures var i1 := |sign| + |whole|;
      i1 + 1 + |fraction| == |s| - |rest| && s[|sign|..i1] == whole && s[i1] == '.' &&
      s[i1 + 1..i1 + 1 + |fraction|] == fraction && (i1 + 1 + |fraction| < |s| ==> !IsDigit(s[i1 + 1 + |fraction|]))
  {
    ScanSign(s, sign, whole, "." + fraction + rest);
    PointedPieces(s, sign, whole, fraction, rest);
  }

  /** A sign and whole digits, then neither a digit nor a point: the mantissa is those digits, and the tail is read next. */
  lemma {:induction false} ScanWhole(s: string, sign: string, whole: string, rest: string)
    requires s == sign + whole + rest
    requires (sign == "" || sign == "-") && |whole| >= 1 && AllDigits(whole)
    requires rest == [] || !(IsDigit(rest[0]) || rest[0] == '.')
    ensures ScanLiteral(s, false) == ScanTail(s, |s| - |rest|, false, Literal(sign == "-", whole, 0, 0))
  {
    var i1 := |sign| + |whole|;
    ScanSign(s, sign, whole, rest);
    assert [] + whole == whole;
    ScanKnownRun(s, |sign|, whole, sign == "-", [], whole, 0, 0, false);
    assert i1 < |s| ==> s[i1] == rest[0];
  }

  /** Nothing after the mantissa: the exponent is zero. */
  lemma {:induction false} ScanTailAtEnd(s: string, l: Literal)
    ensures ScanTail(s, |s|, false, l) == Some(l.(exponent := 0))
  {
  }

  /** The exponent text: its marker and sign, then the digits of the exponent's magnitude. */
  lemma {:induction false} ExponentDigits(e: int)
    ensures ExponentText(e) == (if e > 0 then "E+" else if e < 0 then "E-" else "E") + NatToString(if e < 0 then -e else e)
  {
    if e > 0 {
      assert "E" + "+" + IntToString(e) == "E+" + NatToString(e);
    } else if e < 0 {
      assert "E" + "" + IntToString(e) == "E-" + NatToString(-e);
    } else {
      assert "E" + "" + IntToString(e) == "E" + NatToString(0);
    }
  }

  /** The exponent digits run to the end of the text and are worth the magnitude. */
  lemma {:induction false} ExponentRun(s: string, j: nat, magnitude: nat)
    requires j <= |s| && s[j..] == NatToString(magnitude)
    ensures j < DigitRunEnd(s, j) == |s| && DigitsValue(s[j..|s|]) == magnitude
  {
    DigitRunEndOfDigits(s, j);
    assert s[j..|s|] == s[j..];
    DigitsValueOfNatToString(magnitude);
  }

  /** The exponent toString writes is read back. */
  lemma {:induction false} ScanTailOfExponent(s: string, i: nat, e: int, l: Literal)
    requires i <= |s| && s[i..] == ExponentText(e)
    ensures ScanTail(s, i, false, l) == Some(l.(exponent := e))
  {
    var magnitude: nat := if e < 0 then -e else e;
    var marker := if e > 0 then "E+" else if e < 0 then "E-" else "E";
    var j := i + |marker|;
    ExponentDigits(e);
    assert s[i..] == marker + NatToString(magnitude);
    assert s[j..] == NatToString(magnitude) by {
      assert s[j..] == s[i..][|marker|..];
    }
    assert s[i] == s[i..][0] == 'E';
    var signed := i + 1 < |s| && (s[i + 1] == '+' || s[i + 1] == '-');
    assert signed == (e != 0) && (signed && s[i + 1] == '-' <==> e < 0) && j == (if signed then i + 2 else i + 1) by {
      assert s[i + 1] == s[i..][1];
    }
    ExponentRun(s, j, magnitude);
    ScanExponentRun(s, i, j, e);
  }

  /** An exponent marker, a sign or none, then digits up to the end of the text: the exponent they spell. */
  lemma {:induction false} ScanExponentRun(s: string, i: nat, j: nat, e: int)
    requires i < |s| && s[i] == 'E'
    requires var signed := i + 1 < |s| && (s[i + 1] == '+' || s[i + 1] == '-');
      signed == (e != 0) && (signed && s[i + 1] == '-' <==> e < 0) && j == (if signed then i + 2 else i + 1)
    requires j < DigitRunEnd(s, j) == |s| && DigitsValue(s[j..|s|]) == (if e < 0 then -e else e)
    ensures ScanExponent(s, i) == Some((e, |s|))
  {
  }

  /** The value new BigDecimal gives a scanned literal. */
  lemma {:induction false} ParsedLiteral(s: string, l: Literal)
    requires ScanLiteral(s, false) == Some(l)
    ensures ParseBigDecimal(s) == Ok(Decimal(if l.negative then -(DigitsValue(l.digits) as int) else DigitsValue(l.digits), l.fractionLength - l.exponent))
  {
  }

  /** Integer.toString and the digit reading invert each other, with a sign. */
  lemma {:induction false} SignedMagnitude(d: Decimal, digits: string)
    requires AllDigits(digits) && DigitsValue(digits) == Magnitude(d)
    ensures (if SignText(d) == "-" then -(DigitsValue(digits) as int) else DigitsValue(digits)) == d.unscaled
  {
  }

  /** A scanned literal holding toString's sign and digits gives back the number once its scale matches. */
  lemma {:induction false} LiteralOfMagnitude(d: Decimal, s: string, l: Literal)
    requires l.negative == (SignText(d) == "-") && l.digits == NatToString(Magnitude(d))
    requires ScanLiteral(s, false) == Some(l) && l.fractionLength - l.exponent == d.scale
    ensures ParseBigDecimal(s) == Ok(d)
  {
    ParsedLiteral(s, l);
    DigitsValueOfNatToString(Magnitude(d));
    SignedMagnitude(d, l.digits);
  }

  /** toString at scale zero: the signed digits. */
  lemma {:induction false} WholeParses(d: Decimal)
    requires d.scale == 0
    ensures ParseBigDecimal(DecimalToString(d)) == Ok(d)
  {
    var c := NatToString(Magnitude(d));
    var s := SignText(d) + c;
    assert DecimalToString(d) == s;
    assert s == SignText(d) + c + [];
    ScanWhole(s, SignText(d), c, []);
    ScanTailAtEnd(s, Literal(SignText(d) == "-", c, 0, 0));
    ParsedLiteral(s, Literal(SignText(d) == "-", c, 0, 0));
    DigitsValueOfNatToString(Magnitude(d));
    SignedMagnitude(d, c);
  }

  /** toString with the point inside the digits. */
  lemma {:induction false} PointedParses(d: Decimal)
    requires d.scale > 0 && |NatToString(Magnitude(d))| > d.scale
    ensures ParseBigDecimal(DecimalToString(d)) == Ok(d)
  {
    var c := NatToString(Magnitude(d));
    var k := |c| - d.scale;
    var s := SignText(d) + c[..k] + "." + c[k..];
    assert -d.scale + (|c| - 1) >= 0;
    assert DecimalToString(d) == s;
    assert s == SignText(d) + c[..k] + "." + c[k..] + [];
    ScanPointed(s, SignText(d), c[..k], c[k..], []);
    assert c[..k] + c[k..] == c;
    ScanTailAtEnd(s, Literal(SignText(d) == "-", c, d.scale, 0));
    ParsedLiteral(s, Literal(SignText(d) == "-", c, d.scale, 0));
    DigitsValueOfNatToString(Magnitude(d));
    SignedMagnitude(d, c);
  }

  /** "0", leading zeros and the digits of c are worth what c is worth. */
  lemma {:induction false} LeadingZeros(k: nat, c: string)
    requires AllDigits(c)
    ensures AllDigits("0" + (Zeros(k) + c)) && DigitsValue("0" + (Zeros(k) + c)) == DigitsValue(c)
  {
    assert "0" + (Zeros(k) + c) == Zeros(k + 1) + c;
    DigitsValueAppend(Zeros(k + 1), c);
    DigitsValueOfZeros(k + 1);
  }

  /** toString of a value below one in plain notation, as pieces. */
  lemma {:induction false} FractionText(d: Decimal)
    requires d.scale > 0 && |NatToString(Magnitude(d))| <= d.scale
    requires -d.scale + (|NatToString(Magnitude(d))| - 1) >= -6
    ensures DecimalToString(d) == SignText(d) + "0" + "." + (Zeros(d.scale - |NatToString(Magnitude(d))|) + NatToString(Magnitude(d))) + []
  {
    var c := NatToString(Magnitude(d));
    var z := Zeros(d.scale - |c|);
    assert DecimalToString(d) == SignText(d) + "0." + z + c;
  }

  /** toString of a value below one in plain notation: "0." and leading zeros. */
  lemma {:induction false} FractionParses(d: Decimal)
    requires d.scale > 0 && |NatToString(Magnitude(d))| <= d.scale
    requires -d.scale + (|NatToString(Magnitude(d))| - 1) >= -6
    ensures ParseBigDecimal(DecimalToString(d)) == Ok(d)
  {
    var c := NatToString(Magnitude(d));
    var f := Zeros(d.scale - |c|) + c;
    var s := DecimalToString(d);
    var l := Literal(SignText(d) == "-", "0" + f, d.scale, 0);
    assert ScanLiteral(s, false) == Some(l) by {
      FractionText(d);
      ScanPointed(s, SignText(d), "0", f, []);
      ScanTailAtEnd(s, l);
    }
    assert (if l.negative then -(DigitsValue(l.digits) as int) else DigitsValue(l.digits)) == d.unscaled by {
      LeadingZeros(d.scale - |c|, c);
      DigitsValueOfNatToString(Magnitude(d));
      SignedMagnitude(d, "0" + f);
    }
    ParsedLiteral(s, l);
  }

  /** A text read as a mantissa, then the exponent toString writes: the literal with that exponent. */
  lemma {:induction false} ScientificLiteral(s: string, x: string, adjusted: int, l: Literal)
    requires |x| <= |s| && s[|s| - |x|..] == x && x == ExponentText(adjusted)
    requires ScanLiteral(s, false) == ScanTail(s, |s| - |x|, false, l)
    ensures ScanLiteral(s, false) == Some(l.(exponent := adjusted))
  {
    ScanTailOfExponent(s, |s| - |x|, adjusted, l);
  }

  /** toString in scientific notation, as pieces. */
  lemma {:induction false} ScientificText(d: Decimal)
    requires var c := NatToString(Magnitude(d));
      d.scale != 0 && !(d.scale > 0 && -d.scale + (|c| - 1) >= -6)
    ensures var c := NatToString(Magnitude(d)); var x := ExponentText(-d.scale + (|c| - 1));
      DecimalToString(d) == if |c| > 1 then SignText(d) + c[..1] + "." + c[1..] + x else SignText(d) + c + x
  {
    var c := NatToString(Magnitude(d));
    assert |c| == 1 ==> c[..1] == c;
  }

  /** One digit, a point, the other digits and an exponent: the literal of all the digits with that exponent. */
  lemma {:induction false} ScientificPointed(s: string, sign: string, c: string, x: string, adjusted: int)
    requires |c| > 1 && AllDigits(c) && (sign == "" || sign == "-")
    requires s == sign + c[..1] + "." + c[1..] + x && x == ExponentText(adjusted)
    ensures ScanLiteral(s, false) == Some(Literal(sign == "-", c, |c| - 1, adjusted))
  {
    ScanPointed(s, sign, c[..1], c[1..], x);
    assert c[..1] + c[1..] == c;
    assert s[|s| - |x|..] == x;
    ScientificLiteral(s, x, adjusted, Literal(sign == "-", c, |c| - 1, 0));
  }

  /** One digit and an exponent: the literal of that digit with that exponent. */
  lemma {:induction false} ScientificSingle(s: string, sign: string, c: string, x: string, adjusted: int)
    requires s == sign + c + x && x == ExponentText(adjusted)
    requires (sign == "" || sign == "-") && |c| == 1 && AllDigits(c)
    ensures ScanLiteral(s, false) == Some(Literal(sign == "-", c, 0, adjusted))
  {
    ScanWhole(s, sign, c, x);
    assert s[|s| - |x|..] == x;
    ScientificLiteral(s, x, adjusted, Literal(sign == "-", c, 0, 0));
  }

  /** toString in scientific notation: one digit, the others after a point, and the adjusted exponent. */
  lemma {:induction false} ScientificParses(d: Decimal)
    requires var c := NatToString(Magnitude(d));
      d.scale != 0 && !(d.scale > 0 && -d.scale + (|c| - 1) >= -6)
    ensures ParseBigDecimal(DecimalToString(d)) == Ok(d)
  {
    var c := NatToString(Magnitude(d));
    var adjusted := -d.scale + (|c| - 1);
    var l := Literal(SignText(d) == "-", c, |c| - 1, adjusted);
    assert ScanLiteral(DecimalToString(d), false) == Some(l) by {
      ScientificText(d);
      if |c| > 1 {
        ScientificPointed(DecimalToString(d), SignText(d), c, ExponentText(adjusted), adjusted);
      } else {
        ScientificSingle(DecimalToString(d), SignText(d), c, ExponentText(adjusted), adjusted);
      }
    }
    LiteralOfMagnitude(d, DecimalToString(d), l);
  }

  /**
   * new BigDecimal(toString()) gives back the same unscaled value and the
   * same scale, in plain and in scientific notation alike.
   */
  lemma {:induction false} DecimalToStringParses(d: Decimal)
    ensures ParseBigDecimal(DecimalToString(d)) == Ok(d)
  {
    var c := NatToString(Magnitude(d));
    if d.scale == 0 {
      WholeParses(d);
    } else if d.scale > 0 && -d.scale + (|c| - 1) >= -6 {
      if |c| > d.scale {
        PointedParses(d);
      } else {
        FractionParses(d);
      }
    } else {
      ScientificParses(d);
    }
  }
}
