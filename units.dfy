/**
 * Unit conversion and temperature display: `convert_f_to_c` and
 * `format_temperature`, with the one-decimal number text they rely on.
 */
module Units {
  import opened Wrappers
  import opened Decimal
  import opened Rounding

  /** The degree sign followed by C, appended with no space. */
  const DEGREE_SYMBOL: string := "\U{00B0}C"

  /** `convert_f_to_c`: (F - 32) * 5/9, rounded to one decimal. */
  function ConvertFToC(fahrenheit: real): (celsius: real)
    ensures OnGrid(celsius, 1)
    ensures -0.05 <= celsius - (fahrenheit - 32.0) * 5.0 / 9.0 <= 0.05
  {
    RoundTo((fahrenheit - 32.0) * 5.0 / 9.0, 1)
  }

  /** Freezing and boiling points of water, and the point where both scales meet. */
  lemma ConvertFixedPoints()
    ensures ConvertFToC(32.0) == 0.0
    ensures ConvertFToC(212.0) == 100.0
    ensures ConvertFToC(-40.0) == -40.0
  {
    assert Scale(0.0, 1) == 0.0;
    RoundOnGrid(0.0, 1);
    assert Scale(100.0, 1) == 1000.0;
    RoundOnGrid(100.0, 1);
    assert Scale(-40.0, 1) == -400.0;
    RoundOnGrid(-40.0, 1);
  }

  /** A warmer Fahrenheit reading never converts to a colder Celsius one. */
  lemma ConvertMonotone(f: real, g: real)
    requires f <= g
    ensures ConvertFToC(f) <= ConvertFToC(g)
  {
    RoundMonotone((f - 32.0) * 5.0 / 9.0, (g - 32.0) * 5.0 / 9.0, 1);
  }

  /**
   * How `str` prints a non-negative float with one decimal: the integer part
   * in digits without leading zeros, a point, and one digit.
   */
  predicate CanonicalUnsigned(u: string) {
    && |u| >= 3
    && IsDigits(u[..|u| - 2])
    && u[|u| - 2] == '.'
    && IsDigit(u[|u| - 1])
    && (|u| == 3 || u[0] != '0')
  }

  /**
   * `str(x)` for a float that has one decimal: a minus sign exactly when the
   * rounded value is negative, then the canonical unsigned text.
   */
  function ShowTenths(x: real): (s: string)
    ensures |s| >= 3 && s[|s| - 2] == '.' && IsDigit(s[|s| - 1])
    ensures s[0] == '-' || IsDigit(s[0])
    ensures s[0] == '-' <==> RoundTo(x, 1) < 0.0
    ensures CanonicalUnsigned(if s[0] == '-' then s[1..] else s)
  {
    var k := NearestEven(Scale(x, 1));
    assert RoundTo(x, 1) == k as real / 10.0;
    SignedTenths(k)
  }

  /** The text of `k / 10`: a minus sign exactly for negative `k`, then the unsigned tenths. */
  function SignedTenths(k: int): (s: string)
    ensures |s| >= 3 && s[|s| - 2] == '.' && IsDigit(s[|s| - 1])
    ensures s[0] == '-' || IsDigit(s[0])
    ensures s[0] == '-' <==> k < 0
    ensures CanonicalUnsigned(if k < 0 then s[1..] else s)
  {
    var m := if k < 0 then -k else k;
    var u := UnsignedTenths(m);
    assert "" + u == u;
    assert k < 0 ==> ("-" + u)[1..] == u;
    (if k < 0 then "-" else "") + u
  }

  function ReadUnsignedTenths(s: string): Option<real> {
    if |s| < 3 || s[|s| - 2] != '.' || !IsDigit(s[|s| - 1]) then None
    else match ParseNat(s[..|s| - 2])
      case None => None
      case Some(n) => Some(n as real + DigitValue(s[|s| - 1]) as real / 10.0)
  }

  /** Reads back a number written with one decimal, as `float(s)` would. */
  function ReadTenths(s: string): Option<real> {
    if |s| > 0 && s[0] == '-' then
      match ReadUnsignedTenths(s[1..])
      case None => None
      case Some(v) => Some(-v)
    else ReadUnsignedTenths(s)
  }

  /** The unsigned part of the text: digits of m / 10, a point, the digit m % 10. */
  function UnsignedTenths(m: nat): (u: string)
    ensures CanonicalUnsigned(u) && IsDigit(u[0])
  {
    var digits := DigitsOf(m / 10);
    var u := digits + "." + [DigitChar(m % 10)];
    assert u[..|u| - 2] == digits;
    u
  }

  lemma ReadUnsignedTenthsBack(m: nat)
    ensures ReadUnsignedTenths(UnsignedTenths(m)) == Some(m as real / 10.0)
  {
    var digits := DigitsOf(m / 10);
    var u := UnsignedTenths(m);
    ParseDigitsOf(m / 10);
    assert u[..|u| - 2] == digits;
    assert (m / 10) as real + (m % 10) as real / 10.0 == m as real / 10.0;
  }

  /** The text of `k / 10` reads back as `k / 10`, whatever the sign of `k`. */
  lemma ReadSignedTenths(k: int)
    ensures ReadTenths(SignedTenths(k)) == Some(k as real / 10.0)
  {
    var m := if k < 0 then -k else k;
    var u := UnsignedTenths(m);
    ReadUnsignedTenthsBack(m);
    if k < 0 {
      ReadNegated(u);
      assert SignedTenths(k) == "-" + u;
    } else {
      assert SignedTenths(k) == "" + u == u;
    }
  }

  /** A minus sign in front of an unsigned text negates the value read. */
  lemma ReadNegated(u: string)
    requires ReadUnsignedTenths(u).Some?
    ensures ReadTenths("-" + u) == Some(-ReadUnsignedTenths(u).value)
  {
    assert ("-" + u)[1..] == u;
  }

  /** The one-decimal text of `x` reads back as `x` rounded to one decimal. */
  lemma ShowTenthsReadsBack(x: real)
    ensures ReadTenths(ShowTenths(x)) == Some(RoundTo(x, 1))
  {
    var k := NearestEven(Scale(x, 1));
    assert RoundTo(x, 1) == k as real / 10.0;
    ReadSignedTenths(k);
  }

  /**
   * `format_temperature`: the number followed immediately by the degree
   * symbol. The text ends in the symbol with a digit right before it; the
   * number is in canonical form, negative exactly when the rounded
   * temperature is, and reads back as the temperature rounded to one decimal.
   */
  function FormatTemperature(temp: real): (s: string)
    ensures |s| >= 5 && s[|s| - 2..] == DEGREE_SYMBOL && IsDigit(s[|s| - 3])
    ensures ReadTenths(s[..|s| - 2]) == Some(RoundTo(temp, 1))
    ensures s[0] == '-' <==> RoundTo(temp, 1) < 0.0
    ensures CanonicalUnsigned(if s[0] == '-' then s[1..|s| - 2] else s[..|s| - 2])
  {
    var shown := ShowTenths(temp);
    ShowTenthsReadsBack(temp);
    var s := shown + DEGREE_SYMBOL;
    assert s[..|shown|] == shown && s[0] == shown[0];
    assert shown[0] == '-' ==> s[1..|s| - 2] == shown[1..];
    s
  }

  /** A temperature that already has one decimal reads back exactly. */
  lemma FormatTemperatureReadsBack(temp: real)
    requires OnGrid(temp, 1)
    ensures var s := FormatTemperature(temp);
      ReadTenths(s[..|s| - 2]) == Some(temp)
  {
    RoundOnGrid(temp, 1);
  }
}
