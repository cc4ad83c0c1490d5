/**
 * Python's integer conversion of request fields, restricted to plain decimal literals: an optional
 * `+` or `-` followed by one or more ASCII digits.
 */
module Decimal {
  import opened Wrappers

  predicate IsDigit(c: char) {
    '0' <= c <= '9'
  }

  predicate AllDigits(s: string) {
    forall i :: 0 <= i < |s| ==> IsDigit(s[i])
  }

  function DigitValue(c: char): (d: nat)
    requires IsDigit(c)
    ensures d < 10
  {
    (c as int) - ('0' as int)
  }

  function DigitChar(d: nat): (c: char)
    requires d < 10
    ensures IsDigit(c) && DigitValue(c) == d
  {
    (d + '0' as int) as char
  }

  /** The value of a digit string read most significant digit first. */
  function DigitsValue(s: string): nat
    requires AllDigits(s)
  {
    if |s| == 0 then 0 else DigitsValue(s[..|s| - 1]) * 10 + DigitValue(s[|s| - 1])
  }

  /** The literals `int` accepts here: an optional sign and a non-empty run of digits. */
  predicate IsDecimalLiteral(s: string) {
    var digits := if |s| > 0 && (s[0] == '+' || s[0] == '-') then s[1..] else s;
    |digits| > 0 && AllDigits(digits)
  }

  /** The integer a decimal literal denotes, or None where Python's conversion raises ValueError. */
  function ParseInt(s: string): (r: Option<int>)
    ensures r.Some? <==> IsDecimalLiteral(s)
  {
    if |s| > 0 && (s[0] == '+' || s[0] == '-') then
      var digits := s[1..];
      if |digits| > 0 && AllDigits(digits) then
        var v: int := DigitsValue(digits);
        Some(if s[0] == '-' then -v else v)
      else None
    else if |s| > 0 && AllDigits(s) then Some(DigitsValue(s))
    else None
  }

  /** The shortest digit string of `n`, with no leading zero. */
  function NatToDigits(n: nat): (s: string)
    ensures |s| > 0 && AllDigits(s)
    ensures |s| > 1 ==> s[0] != '0'
  {
    if n < 10 then [DigitChar(n)] else NatToDigits(n / 10) + [DigitChar(n % 10)]
  }

  /** How Python writes an integer in decimal. */
  function IntToString(n: int): string {
    if n < 0 then "-" + NatToDigits(-n) else NatToDigits(n)
  }

  /** A canonical decimal literal: no `+`, no leading zero, and no `-0`. */
  predicate IsCanonical(s: string) {
    var digits := if |s| > 0 && s[0] == '-' then s[1..] else s;
    && |digits| > 0 && AllDigits(digits)
    && (|digits| > 1 ==> digits[0] != '0')
    && (|s| > 0 && s[0] == '-' ==> digits != "0")
  }

  lemma {:induction false} DigitsOfValue(n: nat)
    ensures DigitsValue(NatToDigits(n)) == n
  {
    if n >= 10 {
      var s := NatToDigits(n);
      DigitsOfValue(n / 10);
      assert s[..|s| - 1] == NatToDigits(n / 10);
    }
  }

  lemma {:induction false} DigitsValuePositive(s: string)
    requires |s| > 0 && AllDigits(s) && s[0] != '0'
    ensures DigitsValue(s) > 0
  {
    if |s| > 1 {
      DigitsValuePositive(s[..|s| - 1]);
    }
  }

  lemma {:induction false} ValueOfDigits(s: string)
    requires |s| > 0 && AllDigits(s) && (|s| > 1 ==> s[0] != '0')
    ensures NatToDigits(DigitsValue(s)) == s
  {
    var init, last := s[..|s| - 1], s[|s| - 1];
    if |s| > 1 {
      DigitsValuePositive(init);
      ValueOfDigits(init);
      assert DigitsValue(s) / 10 == DigitsValue(init);
      assert DigitsValue(s) % 10 == DigitValue(last);
      assert DigitChar(DigitValue(last)) == last;
      assert s == init + [last];
    } else {
      assert DigitChar(DigitValue(last)) == last;
    }
  }

  /** Writing an integer and reading it back gives the integer again. */
  lemma ParseIntToString(n: int)
    ensures IsCanonical(IntToString(n))
    ensures ParseInt(IntToString(n)) == Some(n)
  {
    var m: nat := if n < 0 then -n else n;
    var digits := NatToDigits(m);
    DigitsOfValue(m);
    ParseIntDigits(digits);
    ParseIntMinus(digits);
    if n < 0 {
      assert IntToString(n) == "-" + digits;
      assert ("-" + digits)[1..] == digits;
      assert DigitsValue("0") == 0;
    } else {
      assert IntToString(n) == digits;
    }
  }

  /** Reading a canonical literal and writing the integer back gives the literal again. */
  lemma ToStringParseInt(s: string)
    requires IsCanonical(s)
    ensures ParseInt(s).Some? && IntToString(ParseInt(s).value) == s
  {
    if |s| > 0 && s[0] == '-' {
      var digits := s[1..];
      ValueOfDigits(digits);
      if |digits| == 1 {
        assert digits == [digits[0]];
      }
      DigitsValuePositive(digits);
      assert s == "-" + digits;
    } else {
      ValueOfDigits(s);
    }
  }

  /** A plain digit string denotes its digits' value. */
  lemma ParseIntDigits(d: string)
    requires |d| > 0 && AllDigits(d)
    ensures ParseInt(d) == Some(DigitsValue(d))
  {
    assert IsDigit(d[0]);
  }

  /** A leading `+` changes nothing: `int("+" + d)` is `int(d)`. */
  lemma ParseIntPlus(d: string)
    requires |d| > 0 && AllDigits(d)
    ensures ParseInt("+" + d) == ParseInt(d) == Some(DigitsValue(d))
  {
    ParseIntDigits(d);
    var s := "+" + d;
    assert s[0] == '+' && s[1..] == d;
  }

  /** A leading `-` negates: `int("-" + d)` is `-int(d)`, so `int("-0")` is 0. */
  lemma ParseIntMinus(d: string)
    requires |d| > 0 && AllDigits(d)
    ensures ParseInt("-" + d) == Some(-ParseInt(d).value)
  {
    ParseIntDigits(d);
    var s := "-" + d;
    assert s[0] == '-' && s[1..] == d;
    var v: int := DigitsValue(d);
    assert ParseInt(s) == Some(-v);
  }

  lemma {:induction false} DigitsValueLeadingZero(d: string)
    requires AllDigits(d)
    ensures AllDigits("0" + d) && DigitsValue("0" + d) == DigitsValue(d)
  {
    if |d| > 0 {
      var init := d[..|d| - 1];
      DigitsValueLeadingZero(init);
      assert ("0" + d)[..|d|] == "0" + init;
      assert ("0" + d)[|d|] == d[|d| - 1];
    }
  }

  /** A leading zero changes nothing: `int("0" + d)` is `int(d)`. */
  lemma ParseIntLeadingZero(d: string)
    requires |d| > 0 && AllDigits(d)
    ensures ParseInt("0" + d) == ParseInt(d)
  {
    DigitsValueLeadingZero(d);
  }
}
