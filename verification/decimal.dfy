/**
 * `java.math.BigDecimal` as far as the ledger uses it: an exact decimal
 * `unscaled × 10^-scale`, its sign test `compareTo(BigDecimal.ZERO)`, and its
 * canonical text `toString()`, which becomes half of the classifier's cache
 * key. The scale is kept because it is visible in the text: `10.00` and
 * `10.0` are equal numbers but different strings.
 */
module Decimal {
  import opened JavaLang

  /** An exact decimal: the number `unscaled / 10^scale`. */
  datatype BigDecimal = BigDecimal(unscaled: int, scale: nat)

  function Pow10(n: nat): (p: nat)
    ensures p >= 1
  {
    if n == 0 then 1 else 10 * Pow10(n - 1)
  }

  function Abs(x: int): nat {
    if x < 0 then -x else x
  }

  /** The number a `BigDecimal` stands for. */
  ghost function RealValue(a: BigDecimal): real {
    a.unscaled as real / Pow10(a.scale) as real
  }

  /**
   * `a.compareTo(BigDecimal.ZERO)`: -1, 0 or 1 as the number is below, at or
   * above zero, whatever its scale.
   */
  function CompareToZero(a: BigDecimal): (c: int)
    ensures c == -1 || c == 0 || c == 1
    ensures c < 0 <==> RealValue(a) < 0.0
    ensures c == 0 <==> RealValue(a) == 0.0
  {
    var d := Pow10(a.scale) as real;
    assert RealValue(a) * d == a.unscaled as real;
    if a.unscaled < 0 then -1 else if a.unscaled == 0 then 0 else 1
  }

  // ---------------------------------------------------------------------
  // Decimal digit strings

  predicate IsDigit(c: char) {
    '0' <= c <= '9'
  }

  /** Every character of `s` is a decimal digit. */
  predicate AllDigits(s: string) {
    |s| == 0 || (IsDigit(s[0]) && AllDigits(s[1..]))
  }

  /** A run of digits splits into, and joins from, runs of digits. */
  lemma {:induction false} AllDigitsAppend(a: string, b: string)
    ensures AllDigits(a + b) <==> AllDigits(a) && AllDigits(b)
  {
    if |a| == 0 {
      assert a + b == b;
    } else {
      assert (a + b)[1..] == a[1..] + b;
      AllDigitsAppend(a[1..], b);
    }
  }

  /** The marks the decimal syntax uses are not digits, so a digit run never holds one. */
  lemma {:induction false} DigitsHaveNoMarks(s: string)
    requires AllDigits(s)
    ensures 'E' !in s && '.' !in s && '-' !in s
  {
    if |s| > 0 {
      DigitsHaveNoMarks(s[1..]);
      assert s == [s[0]] + s[1..];
    }
  }

  function DigitChar(d: nat): (c: char)
    requires d < 10
    ensures IsDigit(c)
  {
    (d + '0' as int) as char
  }

  /** The number a string of decimal digits spells, most significant first. */
  function ValueOf(s: string): int {
    if |s| == 0 then 0
    else 10 * ValueOf(s[..|s| - 1]) + (s[|s| - 1] as int - '0' as int)
  }

  /** Appending one digit to a digit run keeps it a digit run. */
  lemma {:induction false} AppendDigit(s: string, c: char)
    requires AllDigits(s) && IsDigit(c)
    ensures AllDigits(s + [c])
  {
    AllDigitsAppend(s, [c]);
  }

  /** A non-empty digit run is its initial digits followed by a last digit. */
  lemma {:induction false} SplitLastDigit(s: string)
    requires |s| > 0 && AllDigits(s)
    ensures AllDigits(s[..|s| - 1]) && IsDigit(s[|s| - 1])
  {
    assert s == s[..|s| - 1] + [s[|s| - 1]];
    AllDigitsAppend(s[..|s| - 1], [s[|s| - 1]]);
  }

  /** The shortest decimal spelling of `n`, as `BigInteger.toString` writes a coefficient. */
  function NatDigits(n: nat): (s: string)
    ensures |s| > 0 && AllDigits(s)
    ensures |s| == 1 || s[0] != '0'
    ensures ValueOf(s) == n
  {
    if n < 10 then [DigitChar(n)]
    else
      var init := NatDigits(n / 10);
      var s := init + [DigitChar(n % 10)];
      AppendDigit(init, DigitChar(n % 10));
      assert s[..|s| - 1] == init;
      s
  }

  lemma {:induction false} ValueOfNonNegative(s: string)
    requires AllDigits(s)
    ensures ValueOf(s) >= 0
  {
    if |s| > 0 {
      SplitLastDigit(s);
      ValueOfNonNegative(s[..|s| - 1]);
    }
  }

  function Zeros(k: nat): (s: string)
    ensures |s| == k && AllDigits(s)
  {
    if k == 0 then []
    else
      AppendDigit(Zeros(k - 1), '0');
      Zeros(k - 1) + ['0']
  }

  /** Leading zeros do not change the value of a digit string. */
  lemma {:induction false} LeadingZerosIgnored(k: nat, s: string)
    requires AllDigits(s)
    ensures AllDigits(Zeros(k) + s)
    ensures ValueOf(Zeros(k) + s) == ValueOf(s)
  {
    var z := Zeros(k) + s;
    AllDigitsAppend(Zeros(k), s);
    if |s| == 0 {
      assert z == Zeros(k);
      ZerosAreZero(k);
    } else {
      var init := s[..|s| - 1];
      SplitLastDigit(s);
      assert z[..|z| - 1] == Zeros(k) + init;
      LeadingZerosIgnored(k, init);
    }
  }

  lemma {:induction false} ZerosAreZero(k: nat)
    ensures ValueOf(Zeros(k)) == 0
  {
    if k > 0 {
      assert Zeros(k)[..k - 1] == Zeros(k - 1);
      ZerosAreZero(k - 1);
    }
  }

  // ---------------------------------------------------------------------
  // toString

  /** The digits of the unscaled value, without sign. */
  function Coefficient(a: BigDecimal): string {
    NatDigits(Abs(a.unscaled))
  }

  /** The exponent of the number written in scientific notation with one digit before the point. */
  function Adjusted(a: BigDecimal): int {
    |Coefficient(a)| - 1 - a.scale
  }

  /**
   * The unsigned layout `BigDecimal.toString` writes: the bare coefficient for
   * scale 0; plain notation while the adjusted exponent is at least -6; and
   * otherwise one digit, the remaining digits after a point, and `E-n`.
   */
  function Layout(a: BigDecimal): string {
    var coeff := Coefficient(a);
    if a.scale == 0 then coeff
    else if Adjusted(a) >= -6 then
      if a.scale >= |coeff| then PointText("0", Zeros(a.scale - |coeff|) + coeff)
      else PointText(coeff[..|coeff| - a.scale], coeff[|coeff| - a.scale..])
    else
      ScientificText(coeff, NatDigits(-Adjusted(a)))
  }

  /** Integer digits, a point, fraction digits. */
  function PointText(ip: string, fp: string): string {
    ip + (['.'] + fp)
  }

  /** The first digit, the rest after a point if there is a rest, then `E-` and the exponent digits. */
  function ScientificText(coeff: string, exp: string): string
    requires |coeff| > 0
  {
    (if |coeff| > 1 then PointText(coeff[..1], coeff[1..]) else coeff) + (['E'] + (['-'] + exp))
  }

  /** `BigDecimal.toString()`: a minus sign for negative values, then the layout. */
  function ToString(a: BigDecimal): (s: string)
    ensures |s| > 0
    ensures s[0] == '-' <==> a.unscaled < 0
  {
    (if a.unscaled < 0 then "-" else "") + Layout(a)
  }

  // ---------------------------------------------------------------------
  // Reading the text back

  /**
   * `s` cut at the first `c`: the part before it and, when there is a `c`,
   * the part after it.
   */
  function SplitAt(s: string, c: char): (string, Option<string>) {
    if |s| == 0 then ([], None)
    else if s[0] == c then ([], Some(s[1..]))
    else
      var (before, after) := SplitAt(s[1..], c);
      ([s[0]] + before, after)
  }

  lemma {:induction false} SplitAtAbsent(s: string, c: char)
    requires c !in s
    ensures SplitAt(s, c) == (s, None)
  {
    if |s| > 0 {
      assert s[0] in s;
      assert forall x :: x in s[1..] ==> x in s;
      SplitAtAbsent(s[1..], c);
      assert s == [s[0]] + s[1..];
    }
  }

  lemma {:induction false} SplitAtFirst(a: string, c: char, b: string)
    requires c !in a
    ensures SplitAt(a + ([c] + b), c) == (a, Some(b))
  {
    var s := a + ([c] + b);
    if |a| == 0 {
      assert s == [c] + b;
    } else {
      assert a[0] in a;
      assert forall x :: x in a[1..] ==> x in a;
      assert s[1..] == a[1..] + ([c] + b);
      SplitAtFirst(a[1..], c, b);
      assert a == [a[0]] + a[1..];
    }
  }

  /** An exponent as `toString` writes it: digits, optionally after a sign. */
  function ParseExponent(s: string): Option<int> {
    if |s| > 1 && s[0] == '-' && AllDigits(s[1..]) then Some(-ValueOf(s[1..]))
    else if |s| > 1 && s[0] == '+' && AllDigits(s[1..]) then Some(ValueOf(s[1..]))
    else if |s| > 0 && AllDigits(s) then Some(ValueOf(s))
    else None
  }

  /**
   * An unsigned decimal `digits[.[digits]][E[+|-]digits]` as the
   * `BigDecimal(String)` constructor reads it: the digits form the unscaled
   * value and the scale is the number of fraction digits minus the exponent.
   * Leading zeros are allowed. A missing integer part, a lower-case `e` and a
   * text whose scale would come out negative are refused.
   */
  function ParseUnsigned(body: string): Option<BigDecimal> {
    var (mant, expText) := SplitAt(body, 'E');
    var exp := match expText
      case None => Some(0)
      case Some(t) => ParseExponent(t);
    match exp
    case None => None
    case Some(x) => ParseMantissa(mant, x)
  }

  /** The part before the exponent: digits, optionally a point and more digits. */
  function ParseMantissa(mant: string, exp: int): Option<BigDecimal> {
    var (ip, frac) := SplitAt(mant, '.');
    var fp := match frac
      case None => []
      case Some(f) => f;
    if |ip| == 0 || !AllDigits(ip) || !AllDigits(fp) || |fp| - exp < 0 then None
    else Some(BigDecimal(ValueOf(ip + fp), |fp| - exp))
  }

  /**
   * The `BigDecimal(String)` constructor: an optional leading minus sign on an
   * unsigned decimal. A leading `+` is refused.
   */
  function Parse(s: string): Option<BigDecimal> {
    if |s| > 0 && s[0] == '-' then
      match ParseUnsigned(s[1..])
      case Some(m) => Some(BigDecimal(-m.unscaled, m.scale))
      case None => None
    else ParseUnsigned(s)
  }

  lemma {:induction false} NoExponent(body: string)
    requires 'E' !in body
    ensures ParseUnsigned(body) == ParseMantissa(body, 0)
  {
    SplitAtAbsent(body, 'E');
  }

  lemma {:induction false} NegativeExponent(mant: string, n: string)
    requires 'E' !in mant
    requires |n| > 0 && AllDigits(n)
    ensures ParseUnsigned(mant + (['E'] + (['-'] + n))) == ParseMantissa(mant, -ValueOf(n))
  {
    SplitAtFirst(mant, 'E', ['-'] + n);
    assert (['-'] + n)[1..] == n;
  }

  lemma {:induction false} BareMantissa(ip: string, exp: int)
    requires |ip| > 0 && AllDigits(ip) && exp <= 0
    ensures ParseMantissa(ip, exp) == Some(BigDecimal(ValueOf(ip), -exp))
  {
    DigitsHaveNoMarks(ip);
    SplitAtAbsent(ip, '.');
    assert ip + [] == ip;
  }

  lemma {:induction false} PointMantissa(ip: string, fp: string, exp: int)
    requires |ip| > 0 && AllDigits(ip) && AllDigits(fp) && exp <= |fp|
    ensures ParseMantissa(PointText(ip, fp), exp) == Some(BigDecimal(ValueOf(ip + fp), |fp| - exp))
  {
    DigitsHaveNoMarks(ip);
    SplitAtFirst(ip, '.', fp);
  }

  lemma {:induction false} NoExponentInPlain(ip: string, fp: string)
    requires AllDigits(ip) && AllDigits(fp)
    ensures 'E' !in PointText(ip, fp)
  {
    DigitsHaveNoMarks(ip);
    DigitsHaveNoMarks(fp);
  }

  lemma {:induction false} PlainParses(ip: string, fp: string)
    requires |ip| > 0 && AllDigits(ip) && AllDigits(fp)
    ensures ParseUnsigned(PointText(ip, fp)) == Some(BigDecimal(ValueOf(ip + fp), |fp|))
  {
    NoExponentInPlain(ip, fp);
    NoExponent(PointText(ip, fp));
    PointMantissa(ip, fp, 0);
  }

  lemma {:induction false} ScientificParsesPoint(coeff: string, n: string)
    requires |coeff| > 1 && AllDigits(coeff)
    requires |n| > 0 && AllDigits(n) && ValueOf(n) >= 0
    ensures ParseUnsigned(ScientificText(coeff, n))
         == Some(BigDecimal(ValueOf(coeff), |coeff| - 1 + ValueOf(n)))
  {
    var ip, fp := coeff[..1], coeff[1..];
    assert ip + fp == coeff;
    AllDigitsAppend(ip, fp);
    NoExponentInPlain(ip, fp);
    NegativeExponent(PointText(ip, fp), n);
    PointMantissa(ip, fp, -ValueOf(n));
  }

  lemma {:induction false} ScientificParsesDigit(coeff: string, n: string)
    requires |coeff| == 1 && AllDigits(coeff)
    requires |n| > 0 && AllDigits(n) && ValueOf(n) >= 0
    ensures ParseUnsigned(ScientificText(coeff, n)) == Some(BigDecimal(ValueOf(coeff), ValueOf(n)))
  {
    DigitsHaveNoMarks(coeff);
    NegativeExponent(coeff, n);
    BareMantissa(coeff, -ValueOf(n));
  }

  lemma {:induction false} ScientificParses(coeff: string, n: string)
    requires |coeff| > 0 && AllDigits(coeff)
    requires |n| > 0 && AllDigits(n)
    ensures ValueOf(n) >= 0
    ensures ParseUnsigned(ScientificText(coeff, n))
         == Some(BigDecimal(ValueOf(coeff), |coeff| - 1 + ValueOf(n)))
  {
    ValueOfNonNegative(n);
    if |coeff| > 1 {
      ScientificParsesPoint(coeff, n);
    } else {
      ScientificParsesDigit(coeff, n);
    }
  }

  lemma {:induction false} LayoutParsesInteger(a: BigDecimal)
    requires a.scale == 0
    ensures ParseUnsigned(Layout(a)) == Some(BigDecimal(Abs(a.unscaled), a.scale))
  {
    var coeff := Coefficient(a);
    DigitsHaveNoMarks(coeff);
    NoExponent(coeff);
    BareMantissa(coeff, 0);
  }

  /** A value below one: `0.`, the zeros the scale calls for, then the coefficient. */
  lemma {:induction false} FractionParses(coeff: string, scale: nat)
    requires |coeff| > 0 && AllDigits(coeff) && scale >= |coeff|
    ensures ParseUnsigned(PointText("0", Zeros(scale - |coeff|) + coeff))
         == Some(BigDecimal(ValueOf(coeff), scale))
  {
    var fp := Zeros(scale - |coeff|) + coeff;
    LeadingZerosIgnored(scale - |coeff|, coeff);
    LeadingZerosIgnored(1, fp);
    ZeroDigit();
    PlainParses("0", fp);
  }

  lemma {:induction false} ZeroDigit()
    ensures Zeros(1) == "0"
  {
  }

  /** A value of at least one: the coefficient with a point `scale` digits from its end. */
  lemma {:induction false} PointInsideParses(coeff: string, scale: nat)
    requires AllDigits(coeff) && 0 < scale < |coeff|
    ensures ParseUnsigned(PointText(coeff[..|coeff| - scale], coeff[|coeff| - scale..]))
         == Some(BigDecimal(ValueOf(coeff), scale))
  {
    var ip, fp := coeff[..|coeff| - scale], coeff[|coeff| - scale..];
    assert ip + fp == coeff;
    AllDigitsAppend(ip, fp);
    PlainParses(ip, fp);
  }

  lemma {:induction false} LayoutParsesPlain(a: BigDecimal)
    requires a.scale > 0 && Adjusted(a) >= -6
    ensures ParseUnsigned(Layout(a)) == Some(BigDecimal(Abs(a.unscaled), a.scale))
  {
    var coeff := Coefficient(a);
    if a.scale >= |coeff| {
      FractionParses(coeff, a.scale);
    } else {
      PointInsideParses(coeff, a.scale);
    }
  }

  lemma {:induction false} LayoutParsesScientific(a: BigDecimal)
    requires a.scale > 0 && Adjusted(a) < -6
    ensures ParseUnsigned(Layout(a)) == Some(BigDecimal(Abs(a.unscaled), a.scale))
  {
    ScientificLayout(a);
    ScientificReadsBack(a);
  }

  /** The scientific text of a small value reads back as its magnitude with the same scale. */
  lemma {:induction false} ScientificReadsBack(a: BigDecimal)
    requires a.scale > 0 && Adjusted(a) < -6
    ensures ParseUnsigned(ScientificText(Coefficient(a), NatDigits(-Adjusted(a))))
         == Some(BigDecimal(Abs(a.unscaled), a.scale))
  {
    var coeff, n := Coefficient(a), NatDigits(-Adjusted(a));
    ScientificParses(coeff, n);
    assert |coeff| - 1 + ValueOf(n) == a.scale;
  }

  /** Past six leading zeros, `toString` switches to scientific notation. */
  lemma {:induction false} ScientificLayout(a: BigDecimal)
    requires a.scale > 0 && Adjusted(a) < -6
    ensures Layout(a) == ScientificText(Coefficient(a), NatDigits(-Adjusted(a)))
  {
  }

  /** The unsigned layout reads back as the magnitude with the same scale. */
  lemma {:induction false} LayoutParses(a: BigDecimal)
    ensures ParseUnsigned(Layout(a)) == Some(BigDecimal(Abs(a.unscaled), a.scale))
    ensures |Layout(a)| > 0 && IsDigit(Layout(a)[0])
  {
    if a.scale == 0 {
      LayoutParsesInteger(a);
    } else if Adjusted(a) >= -6 {
      LayoutParsesPlain(a);
    } else {
      LayoutParsesScientific(a);
    }
  }

  /** Reading back what `toString` wrote gives the same value with the same scale. */
  lemma {:induction false} ParseToString(a: BigDecimal)
    ensures Parse(ToString(a)) == Some(a)
  {
    LayoutParses(a);
    var body := Layout(a);
    if a.unscaled < 0 {
      assert ToString(a)[1..] == body;
    } else {
      assert ToString(a) == body;
    }
  }

  /**
   * `toString` is injective: two decimals with the same text are the same
   * value at the same scale, so equal numbers at different scales never share
   * a cache key.
   */
  lemma {:induction false} ToStringInjective(a: BigDecimal, b: BigDecimal)
    ensures ToString(a) == ToString(b) <==> a == b
  {
    if ToString(a) == ToString(b) {
      ParseToString(a);
      ParseToString(b);
    }
  }

  /** Ten rand as written with two and with one decimal place. */
  lemma {:induction false} TenAtTwoScales()
    ensures ToString(BigDecimal(1000, 2)) == "10.00"
    ensures ToString(BigDecimal(100, 1)) == "10.0"
    ensures ToString(BigDecimal(1000, 2)) != ToString(BigDecimal(100, 1))
  {
    assert NatDigits(1) == "1";
    assert NatDigits(10) == "10";
    assert NatDigits(100) == "100";
    assert NatDigits(1000) == "1000";
    assert "1000"[..2] == "10" && "1000"[2..] == "00";
    assert "100"[..2] == "10" && "100"[2..] == "0";
  }

  /** `toString` writes minus five hundred at scale two as `-500.00`. */
  lemma {:induction false} MinusFiveHundredText()
    ensures ToString(BigDecimal(-50000, 2)) == "-500.00"
  {
    assert NatDigits(5) == "5";
    assert NatDigits(50) == "50";
    assert NatDigits(500) == "500";
    assert NatDigits(5000) == "5000";
    assert NatDigits(50000) == "50000";
    assert "50000"[..3] == "500" && "50000"[3..] == "00";
  }

  /** The text `-500.00` reads as minus five hundred at scale two. */
  lemma {:induction false} MinusFiveHundred()
    ensures Parse("-500.00") == Some(BigDecimal(-50000, 2))
  {
    MinusFiveHundredText();
    ParseToString(BigDecimal(-50000, 2));
  }
}
