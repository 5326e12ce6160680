/**
  Cell values of the report table and the scalar operations the transform
  applies to them: two-decimal rounding, stripping of currency marks and
  parsing of decimal numerals into exact numbers.
 */
module Cells {

  datatype Option<T> = None | Some(value: T)

  /**
    One cell of the table as the CSV reader hands it over: text, a number,
    or an empty cell. An empty cell is pandas' NaN, and it stays NaN through
    every conversion and every arithmetic operation of the transform.
   */
  datatype Cell = Str(s: string) | Num(x: real) | Missing

  function Abs(x: real): real {
    if x < 0.0 then -x else x
  }

  // ---------------------------------------------------------------------------
  // Rounding to two decimal places
  // ---------------------------------------------------------------------------

  /** x is a whole number of hundredths. */
  predicate IsHundredths(x: real) {
    (x * 100.0).Floor as real == x * 100.0
  }

  /**
    round(x, 2): the nearest hundredth, a tie going to the even hundredth.
    The rule is applied to the exact value; Python applies it to the binary
    double, so the two can part on a tie that a double cannot represent.
   */
  function Round2(x: real): (r: real)
    ensures IsHundredths(r)
    ensures Abs(r - x) <= 0.005
  {
    var y := x * 100.0;
    var f := y.Floor;
    var d := y - f as real;
    var n := if d < 0.5 then f else if d > 0.5 then f + 1 else if f % 2 == 0 then f else f + 1;
    assert (n as real / 100.0) * 100.0 == n as real;
    n as real / 100.0
  }

  /** No hundredth is closer to x than Round2(x). */
  lemma Round2Nearest(x: real, m: int)
    ensures Abs(Round2(x) - x) <= Abs(m as real / 100.0 - x)
  {
    var y := x * 100.0;
    var f := y.Floor;
    assert f as real <= y < f as real + 1.0;
    var r := Round2(x);
    if m <= f {
      assert m as real / 100.0 <= f as real / 100.0;
    } else {
      assert m as real / 100.0 >= (f + 1) as real / 100.0;
    }
  }

  /** Rounding leaves a value that already has two decimals alone, so it is idempotent. */
  lemma Round2Exact(x: real)
    requires IsHundredths(x)
    ensures Round2(x) == x
  {
    var y := x * 100.0;
    assert y.Floor as real == y;
  }

  /** An exact tie goes to the even neighbour: 0.125 becomes 0.12 and 0.135 becomes 0.14. */
  lemma Round2HalfEven()
    ensures Round2(0.125) == 0.12
    ensures Round2(0.135) == 0.14
    ensures Round2(-0.125) == -0.12
  {
    assert (0.125 * 100.0).Floor == 12;
    assert (0.135 * 100.0).Floor == 13;
    assert (-0.125 * 100.0).Floor == -13;
  }

  /** In general: an exact tie lands on an even number of cents, half a cent from x. */
  lemma Round2Tie(x: real)
    requires x * 100.0 - (x * 100.0).Floor as real == 0.5
    ensures (Round2(x) * 100.0).Floor % 2 == 0
    ensures Abs(Round2(x) - x) == 0.005
  {
    var f := (x * 100.0).Floor;
    var n := if f % 2 == 0 then f else f + 1;
    assert Round2(x) == n as real / 100.0;
    assert Round2(x) * 100.0 == n as real;
  }

  // ---------------------------------------------------------------------------
  // Stripping currency marks: replace(r"[\$,)]", "", regex=True)
  // ---------------------------------------------------------------------------

  /** The characters of the class [\$,)]; an opening parenthesis is not one of them. */
  predicate IsCurrencyMark(c: char) {
    c == '$' || c == ',' || c == ')'
  }

  function StripCurrency(s: string): (r: string)
    ensures forall k :: 0 <= k < |r| ==> !IsCurrencyMark(r[k])
    ensures |r| <= |s|
  {
    if s == [] then []
    else (if IsCurrencyMark(s[0]) then [] else [s[0]]) + StripCurrency(s[1..])
  }

  /** Stripping works character by character: it distributes over concatenation ... */
  lemma {:induction false} StripCurrencyConcat(a: string, b: string)
    ensures StripCurrency(a + b) == StripCurrency(a) + StripCurrency(b)
  {
    if a == [] {
      assert a + b == b;
    } else {
      assert (a + b)[0] == a[0];
      assert (a + b)[1..] == a[1..] + b;
      StripCurrencyConcat(a[1..], b);
    }
  }

  /** ... deletes each currency mark and keeps every other character. */
  lemma StripCurrencyChar(c: char)
    ensures StripCurrency([c]) == if IsCurrencyMark(c) then [] else [c]
  {
    assert [c][1..] == [];
  }

  /** A string without currency marks comes back unchanged, so stripping is idempotent. */
  lemma {:induction false} StripCurrencyKeeps(s: string)
    requires forall k :: 0 <= k < |s| ==> !IsCurrencyMark(s[k])
    ensures StripCurrency(s) == s
  {
    if s != [] {
      StripCurrencyKeeps(s[1..]);
      assert [s[0]] + s[1..] == s;
    }
  }

  /** Every character that is not a currency mark survives: in particular '('. */
  lemma {:induction false} StripCurrencyKeepsChar(s: string, k: nat)
    requires k < |s| && !IsCurrencyMark(s[k])
    ensures s[k] in StripCurrency(s)
  {
    if k == 0 {
      assert StripCurrency(s)[0] == s[0];
    } else {
      StripCurrencyKeepsChar(s[1..], k - 1);
    }
  }

  // ---------------------------------------------------------------------------
  // Decimal numerals
  // ---------------------------------------------------------------------------

  predicate IsDigit(c: char) {
    '0' <= c <= '9'
  }

  function DigitValue(c: char): nat
    requires IsDigit(c)
  {
    c as int - '0' as int
  }

  predicate AllDigits(w: string) {
    forall k :: 0 <= k < |w| ==> IsDigit(w[k])
  }

  /** The number a string of decimal digits denotes. */
  function DigitsValue(w: string): nat
    requires AllDigits(w)
  {
    if w == [] then 0 else DigitsValue(w[..|w| - 1]) * 10 + DigitValue(w[|w| - 1])
  }

  function Pow10(n: nat): (p: nat)
    ensures p >= 1
  {
    if n == 0 then 1 else 10 * Pow10(n - 1)
  }

  /** The length of the run of digits that w starts with. */
  function LeadingDigits(w: string): (k: nat)
    ensures k <= |w|
    ensures forall j :: 0 <= j < k ==> IsDigit(w[j])
    ensures k < |w| ==> !IsDigit(w[k])
  {
    if |w| > 0 && IsDigit(w[0]) then 1 + LeadingDigits(w[1..]) else 0
  }

  /** The number whole.frac denotes, for two runs of digits. */
  function DecimalValue(whole: string, frac: string): (v: real)
    requires AllDigits(whole) && AllDigits(frac)
    ensures v >= 0.0
  {
    DigitsValue(whole) as real + DigitsValue(frac) as real / Pow10(|frac|) as real
  }

  /**
    The part of Python's float() that the transform relies on, without a
    sign: digits with an optional fraction ("12", "12.5", "12."), or a bare
    fraction (".5").
   */
  function ParseUnsigned(w: string): (r: Option<real>)
    ensures r.Some? ==> |w| > 0 && r.value >= 0.0
    ensures r.Some? ==> forall j :: 0 <= j < |w| ==> IsDigit(w[j]) || w[j] == '.'
  {
    var k := LeadingDigits(w);
    if k == |w| then
      if k == 0 then None
      else
        assert AllDigits(w);
        Some(DigitsValue(w) as real)
    else if w[k] == '.' && AllDigits(w[k + 1..]) && (k > 0 || k + 1 < |w|) then
      assert AllDigits(w[..k]);
      assert forall j :: k < j < |w| ==> w[j] == w[k + 1..][j - k - 1];
      Some(DecimalValue(w[..k], w[k + 1..]))
    else None
  }

  /** Characters a numeral accepted by ParseDecimal may consist of. */
  predicate IsNumeralChar(c: char) {
    IsDigit(c) || c == '.' || c == '-' || c == '+'
  }

  /**
    float(s) on a string, narrowed to plain signed decimals: an optional '+'
    or '-' followed by what ParseUnsigned accepts. None stands for the
    ValueError that float() raises on anything else.
   */
  function ParseDecimal(s: string): (r: Option<real>)
    ensures r.Some? ==> |s| > 0
    ensures r.Some? ==> forall j :: 0 <= j < |s| ==> IsNumeralChar(s[j])
    ensures r.Some? && s[0] != '-' ==> r.value >= 0.0
  {
    if |s| > 0 && (s[0] == '-' || s[0] == '+') then
      match ParseUnsigned(s[1..])
      case None => None
      case Some(v) =>
        assert forall j :: 0 < j < |s| ==> s[j] == s[1..][j - 1];
        Some(if s[0] == '-' then -v else v)
    else
      ParseUnsigned(s)
  }

  /** The decimal digit of d. */
  function DigitChar(d: nat): (c: char)
    requires d < 10
    ensures IsDigit(c) && DigitValue(c) == d
  {
    ('0' as int + d) as char
  }

  /** The decimal numeral of n, as str(n) writes it. */
  function NatDigits(n: nat): (s: string)
    ensures |s| > 0 && AllDigits(s)
  {
    if n < 10 then [DigitChar(n)] else NatDigits(n / 10) + [DigitChar(n % 10)]
  }

  /** DigitsValue reads back the number NatDigits writes. */
  lemma {:induction false} NatDigitsValue(n: nat)
    ensures DigitsValue(NatDigits(n)) == n
  {
    var s := NatDigits(n);
    if n < 10 {
      assert s[..0] == [];
    } else {
      NatDigitsValue(n / 10);
      assert s[..|s| - 1] == NatDigits(n / 10);
    }
  }

  /** A string of digits is accepted, with the value it denotes. */
  lemma ParseUnsignedDigits(w: string)
    requires |w| > 0 && AllDigits(w)
    ensures ParseUnsigned(w) == Some(DigitsValue(w) as real)
  {
    assert LeadingDigits(w) == |w|;
  }

  /** How a + "." + b splits at its first non-digit. */
  lemma FractionSplit(a: string, b: string)
    requires AllDigits(a)
    ensures LeadingDigits(a + "." + b) == |a|
    ensures (a + "." + b)[..|a|] == a && (a + "." + b)[|a|] == '.' && (a + "." + b)[|a| + 1..] == b
  {
    var w := a + "." + b;
    assert w[|a|] == '.';
    assert forall j :: 0 <= j < |a| ==> w[j] == a[j];
    assert w[..|a|] == a;
    assert w[|a| + 1..] == b;
  }

  /**
    Digits, a point and digits are accepted unless both runs are empty, with
    the value of the whole part plus the fraction.
   */
  lemma ParseUnsignedFraction(a: string, b: string)
    requires AllDigits(a) && AllDigits(b) && |a| + |b| > 0
    ensures ParseUnsigned(a + "." + b) == Some(DecimalValue(a, b))
  {
    FractionSplit(a, b);
  }

  /** Every string ParseUnsigned accepts has one of the two shapes above. */
  lemma ParseUnsignedShape(w: string) returns (a: string, b: string, point: bool)
    requires ParseUnsigned(w).Some?
    ensures AllDigits(a) && AllDigits(b)
    ensures point ==> w == a + "." + b && |a| + |b| > 0
    ensures !point ==> w == a && |a| > 0 && b == []
  {
    var k := LeadingDigits(w);
    a := w[..k];
    if k == |w| {
      assert a == w;
      b, point := [], false;
    } else {
      b, point := w[k + 1..], true;
      assert w == a + "." + b;
    }
  }

  /** float(str(n)) == n. */
  lemma ParseDecimalNat(n: nat)
    ensures ParseDecimal(NatDigits(n)) == Some(n as real)
  {
    ParseUnsignedDigits(NatDigits(n));
    NatDigitsValue(n);
  }

  /** The value of two digits. */
  lemma TwoDigitsValue(c: nat)
    requires c < 100
    ensures DigitsValue([DigitChar(c / 10), DigitChar(c % 10)]) == c
  {
    var w := [DigitChar(c / 10), DigitChar(c % 10)];
    assert w[..1] == [DigitChar(c / 10)];
    assert w[..1][..0] == [];
    assert DigitsValue(w[..1]) == c / 10;
    assert DigitsValue(w) == (c / 10) * 10 + c % 10;
  }

  /** Without a sign, float() is ParseUnsigned. */
  lemma ParseDecimalUnsigned(w: string)
    requires |w| > 0 && w[0] != '-' && w[0] != '+'
    ensures ParseDecimal(w) == ParseUnsigned(w)
  {
  }

  /** An amount written in whole units and two digits of cents parses to that amount. */
  lemma ParseDecimalCents(n: nat, c: nat)
    requires c < 100
    ensures ParseDecimal(NatDigits(n) + "." + [DigitChar(c / 10), DigitChar(c % 10)]) == Some(n as real + c as real / 100.0)
  {
    var a, b := NatDigits(n), [DigitChar(c / 10), DigitChar(c % 10)];
    assert (a + "." + b)[0] == a[0];
    ParseDecimalUnsigned(a + "." + b);
    ParseUnsignedFraction(a, b);
    CentsValue(a, b, n, c);
  }

  /** The number a whole part n and two digits of cents denote. */
  lemma CentsValue(a: string, b: string, n: nat, c: nat)
    requires c < 100 && a == NatDigits(n) && b == [DigitChar(c / 10), DigitChar(c % 10)]
    ensures DecimalValue(a, b) == n as real + c as real / 100.0
  {
    NatDigitsValue(n);
    TwoDigitsValue(c);
    assert Pow10(|b|) == 100;
  }

  /** A plus sign in front of an unsigned numeral changes nothing. */
  lemma ParseDecimalPlus(w: string)
    requires |w| > 0 && w[0] != '-' && w[0] != '+'
    ensures ParseDecimal("+" + w) == ParseDecimal(w)
  {
    assert ("+" + w)[1..] == w;
  }

  /** A minus sign in front of an unsigned numeral negates its value. */
  lemma ParseDecimalNegate(w: string)
    requires |w| > 0 && w[0] != '-' && w[0] != '+'
    ensures ParseDecimal("-" + w) == match ParseDecimal(w)
                                    case Some(v) => Some(-v)
                                    case None => None
  {
    assert ("-" + w)[1..] == w;
  }

  /** A string holding an opening parenthesis is not a number: float("(5.00") raises. */
  lemma ParseDecimalRejectsParen(s: string, k: nat)
    requires k < |s| && s[k] == '('
    ensures ParseDecimal(s) == None
  {
    assert !IsNumeralChar(s[k]);
  }
}
