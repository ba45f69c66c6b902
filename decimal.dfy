/**
 * Decimal text of integers: what `str(n)` prints for a Python int and what
 * `int(text)` accepts, restricted to ASCII digits.
 */
module Decimal {
  import opened Wrappers

  predicate IsDigit(c: char) {
    '0' <= c <= '9'
  }

  /** The characters `str.strip()` and `int()` drop at both ends (ASCII whitespace). */
  predicate IsSpace(c: char) {
    c == ' ' || c == '\t' || c == '\n' || c == '\r' || c == '\U{000B}' || c == '\U{000C}'
  }

  function DigitValue(c: char): (v: nat)
    requires IsDigit(c)
    ensures v < 10
  {
    c as int - '0' as int
  }

  function DigitChar(v: nat): (c: char)
    requires v < 10
    ensures IsDigit(c) && DigitValue(c) == v
  {
    ('0' as int + v) as char
  }

  /** A non-empty run of decimal digits. */
  predicate IsDigits(s: string) {
    |s| > 0 && forall i :: 0 <= i < |s| ==> IsDigit(s[i])
  }

  /** The decimal digits of `n`, without leading zeros. */
  function DigitsOf(n: nat): (s: string)
    ensures IsDigits(s)
    ensures s[0] == '0' <==> n == 0
    ensures |s| == 1 || s[0] != '0'
  {
    if n < 10 then [DigitChar(n)] else DigitsOf(n / 10) + [DigitChar(n % 10)]
  }

  /** The value of a non-empty string of decimal digits (leading zeros allowed). */
  function ParseNat(s: string): (r: Option<nat>)
    ensures r.Some? <==> IsDigits(s)
  {
    if |s| == 0 || !IsDigit(s[|s| - 1]) then None
    else if |s| == 1 then Some(DigitValue(s[0]))
    else match ParseNat(s[..|s| - 1])
      case None => None
      case Some(v) => Some(10 * v + DigitValue(s[|s| - 1]))
  }

  /** `str(n)` for a Python int: a minus sign exactly for negatives, then the digits without leading zeros. */
  function IntText(n: int): (s: string)
    ensures |s| >= 1 && (s[0] == '-' <==> n < 0)
    ensures var digits := if n < 0 then s[1..] else s;
      IsDigits(digits) && (digits[0] == '0' <==> n == 0) && (|digits| == 1 || digits[0] != '0')
  {
    if n < 0 then "-" + DigitsOf(-n) else DigitsOf(n)
  }

  /** The number of whitespace characters `s` starts with. */
  function LeadingSpaces(s: string): (k: nat)
    ensures k <= |s|
    ensures forall i :: 0 <= i < k ==> IsSpace(s[i])
    ensures k < |s| ==> !IsSpace(s[k])
  {
    if |s| > 0 && IsSpace(s[0]) then 1 + LeadingSpaces(s[1..]) else 0
  }

  /** The number of whitespace characters `s` ends with. */
  function TrailingSpaces(s: string): (k: nat)
    ensures k <= |s|
    ensures forall i :: |s| - k <= i < |s| ==> IsSpace(s[i])
    ensures k < |s| ==> !IsSpace(s[|s| - 1 - k])
  {
    if |s| > 0 && IsSpace(s[|s| - 1]) then 1 + TrailingSpaces(s[..|s| - 1]) else 0
  }

  /** `s[a..b]` is what remains of `s` once whitespace is cut from both ends. */
  predicate TrimmedAt(s: string, a: int, b: int) {
    && 0 <= a <= b <= |s|
    && (forall i :: 0 <= i < a ==> IsSpace(s[i]))
    && (forall i :: b <= i < |s| ==> IsSpace(s[i]))
  }

  /** `s.strip()`: the text without its leading and trailing whitespace. */
  function Strip(s: string): (t: string)
    ensures exists a, b :: TrimmedAt(s, a, b) && t == s[a..b]
    ensures |t| > 0 ==> !IsSpace(t[0]) && !IsSpace(t[|t| - 1])
    ensures (|s| == 0 || (!IsSpace(s[0]) && !IsSpace(s[|s| - 1]))) ==> t == s
  {
    var a := LeadingSpaces(s);
    var k := TrailingSpaces(s[a..]);
    var b := |s| - k;
    assert TrimmedAt(s, a, b) by {
      assert forall i :: b <= i < |s| ==> s[i] == s[a..][i - a];
    }
    assert a < b ==> !IsSpace(s[a]) && !IsSpace(s[b - 1]) by {
      assert a < b ==> s[b - 1] == s[a..][|s| - a - 1 - k];
    }
    assert (|s| == 0 || (!IsSpace(s[0]) && !IsSpace(s[|s| - 1]))) ==> a == 0 && b == |s| by {
      assert a < |s| ==> s[a..][|s| - a - 1] == s[|s| - 1];
    }
    s[a..b]
  }

  /** `int(s)` on a text: optional surrounding whitespace, an optional sign, decimal digits. */
  function ParseInt(s: string): (r: Option<int>)
    ensures var t := Strip(s);
      r.Some? <==> IsDigits(t) || (|t| > 0 && (t[0] == '-' || t[0] == '+') && IsDigits(t[1..]))
    ensures r.Some? && r.value < 0 ==> Strip(s)[0] == '-'
  {
    ParseSigned(Strip(s))
  }

  /** An optional sign followed by decimal digits, with nothing around them. */
  function ParseSigned(t: string): (r: Option<int>)
    ensures r.Some? <==> IsDigits(t) || (|t| > 0 && (t[0] == '-' || t[0] == '+') && IsDigits(t[1..]))
    ensures r.Some? && r.value < 0 ==> t[0] == '-'
  {
    if |t| > 0 && t[0] == '-' then
      match ParseNat(t[1..])
      case None => None
      case Some(v) => var n: int := v; Some(-n)
    else if |t| > 0 && t[0] == '+' then
      match ParseNat(t[1..])
      case None => None
      case Some(v) => Some(v)
    else
      match ParseNat(t)
      case None => None
      case Some(v) => Some(v)
  }

  lemma {:induction false} ParseDigitsOf(n: nat)
    ensures ParseNat(DigitsOf(n)) == Some(n)
  {
    if n >= 10 {
      var s := DigitsOf(n);
      assert s[..|s| - 1] == DigitsOf(n / 10);
      ParseDigitsOf(n / 10);
    }
  }

  /** A leading zero does not change the value read: `int("050") == 50`. */
  lemma {:induction false} ParseLeadingZero(s: string)
    requires |s| > 0
    ensures ParseNat("0" + s) == ParseNat(s)
  {
    var z := "0" + s;
    if IsDigits(s) {
      assert IsDigits(z) by {
        forall i | 0 <= i < |z| ensures IsDigit(z[i]) {
          if i > 0 { assert z[i] == s[i - 1]; }
        }
      }
      assert z[..|z| - 1] == "0" + s[..|s| - 1];
      if |s| > 1 {
        ParseLeadingZero(s[..|s| - 1]);
      }
    } else {
      assert !IsDigits(z) by {
        var i :| 0 <= i < |s| && !IsDigit(s[i]);
        assert z[i + 1] == s[i];
      }
    }
  }

  /** `int()` ignores surrounding whitespace: the value depends only on the stripped text. */
  lemma ParseIntStrip(s: string)
    ensures ParseInt(s) == ParseInt(Strip(s))
  {
    var t := Strip(s);
    assert Strip(t) == t;
  }

  /** Bare digits: `int(d)` is their value. */
  lemma ParseIntDigits(d: string)
    requires IsDigits(d)
    ensures ParseInt(d) == Some(ParseNat(d).value as int)
  {
    assert !IsSpace(d[0]) && !IsSpace(d[|d| - 1]);
    assert Strip(d) == d;
  }

  /** A plus sign in front of digits leaves their value: `int("+7") == 7`. */
  lemma ParseIntPlus(t: string)
    requires |t| > 1 && t[0] == '+' && IsDigits(t[1..])
    ensures ParseInt(t) == Some(ParseNat(t[1..]).value as int)
  {
    assert t[|t| - 1] == t[1..][|t| - 2];
    assert Strip(t) == t;
  }

  /** A minus sign in front of digits negates their value: `int("-007") == -7`. */
  lemma ParseIntMinus(t: string)
    requires |t| > 1 && t[0] == '-' && IsDigits(t[1..])
    ensures ParseInt(t) == Some(-(ParseNat(t[1..]).value as int))
  {
    assert t[|t| - 1] == t[1..][|t| - 2];
    assert Strip(t) == t;
  }

  /** One blank on each side of a text that does not itself start or end with whitespace is cut off. */
  lemma StripPadded(d: string)
    requires |d| > 0 && !IsSpace(d[0]) && !IsSpace(d[|d| - 1])
    ensures Strip(" " + d + " ") == d
  {
    var s := " " + d + " ";
    var inner := s[1..];
    assert inner[0] == d[0] && inner[|inner| - 1] == ' ';
    assert LeadingSpaces(inner) == 0;
    assert inner[..|inner| - 1] == d;
    assert TrailingSpaces(d) == 0;
    assert TrailingSpaces(inner) == 1;
    assert s[1..|s| - 1] == d;
  }

  /** `int(" 0" + d + " ")` is the value of `d`: surrounding blanks and a leading zero are ignored, as in `int(" 050 ") == 50`. */
  lemma ParsePaddedField(d: string)
    requires IsDigits(d)
    ensures ParseInt(" 0" + d + " ") == Some(ParseNat(d).value as int)
  {
    var z := "0" + d;
    var padded := " 0" + d + " ";
    assert padded == " " + z + " ";
    assert z[|z| - 1] == d[|d| - 1];
    StripPadded(z);
    ParseIntStrip(padded);
    ParseLeadingZero(d);
    ParseIntDigits(z);
  }

  /** `int("-7")` is -7. */
  lemma ParseSignedField()
    ensures ParseInt("-7") == Some(-7)
  {
    var minus := "-7";
    assert !IsSpace(minus[0]) && !IsSpace(minus[1]);
    assert Strip(minus) == minus;
    assert minus[1..] == "7";
  }

  /** `int("5x")` fails. */
  lemma ParseBadField()
    ensures ParseInt("5x") == None
  {
    var bad := "5x";
    assert !IsSpace(bad[0]) && !IsSpace(bad[1]);
    assert Strip(bad) == bad;
    assert !IsDigit(bad[1]);
  }

  /** `int(str(n)) == n`: the text written for an integer reads back as that integer. */
  lemma ParseIntText(n: int)
    ensures ParseInt(IntText(n)) == Some(n)
  {
    var m: nat := if n < 0 then -n else n;
    var d := DigitsOf(m);
    ParseDigitsOf(m);
    var s := IntText(n);
    assert !IsSpace(s[0]) && !IsSpace(s[|s| - 1]);
    assert Strip(s) == s;
    if n < 0 {
      assert s[1..] == d;
    } else {
      assert s == d;
    }
  }
}
