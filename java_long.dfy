/**
 * The decimal text form of a Java `long`: Long.parseLong(s) and Long.toString(n)
 * in radix 10. The account service turns an identity id into a user-store key
 * by parsing it and printing it again.
 */
module JavaLong {
  import opened Wrappers

  const LONG_MIN: int := -0x8000_0000_0000_0000
  const LONG_MAX: int := 0x7FFF_FFFF_FFFF_FFFF

  /** The value fits a signed 64-bit `long`. */
  predicate IsLong(n: int) {
    LONG_MIN <= n <= LONG_MAX
  }

  predicate IsDigit(c: char) {
    '0' <= c <= '9'
  }

  predicate AllDigits(s: string) {
    forall i :: 0 <= i < |s| ==> IsDigit(s[i])
  }

  function DigitValue(c: char): (d: nat)
    requires IsDigit(c)
    ensures d < 10
  {
    c as int - '0' as int
  }

  function DigitChar(d: nat): (c: char)
    requires d < 10
    ensures IsDigit(c) && DigitValue(c) == d
  {
    ('0' as int + d) as char
  }

  /** The value of a run of decimal digits, accumulated left to right. */
  function DigitsValue(s: string): nat
    requires AllDigits(s)
  {
    if |s| == 0 then 0 else DigitsValue(s[..|s| - 1]) * 10 + DigitValue(s[|s| - 1])
  }

  /**
   * Long.parseLong(s): an optional '+' or '-', then at least one decimal digit,
   * and a value inside the range of `long`; anything else is a
   * NumberFormatException, here None.
   */
  function ParseLong(s: string): (r: Option<int>)
    ensures r.Some? ==> IsLong(r.value) && |s| > 0
    ensures r.Some? && s[0] == '-' ==> r.value <= 0
    ensures r.Some? && s[0] != '-' ==> r.value >= 0
  {
    var negative := |s| > 0 && s[0] == '-';
    var digits := if |s| > 0 && (s[0] == '-' || s[0] == '+') then s[1..] else s;
    if |digits| == 0 || !AllDigits(digits) then None
    else
      var v: int := DigitsValue(digits);
      var n := if negative then -v else v;
      if IsLong(n) then Some(n) else None
  }

  /** The decimal digits of n, most significant first, with no leading zero. */
  function NatToString(n: nat): (s: string)
    ensures |s| > 0 && AllDigits(s)
    ensures s[0] == '0' ==> n == 0
  {
    if n < 10 then [DigitChar(n)] else NatToString(n / 10) + [DigitChar(n % 10)]
  }

  /** Long.toString(n): a '-' for negative values, then the digits of the magnitude. */
  function LongToString(n: int): (t: string)
    ensures |t| > 0 && (t[0] == '-' <==> n < 0)
    ensures AllDigits(if n < 0 then t[1..] else t)
  {
    if n < 0 then "-" + NatToString(-n) else NatToString(n)
  }

  /** The text Long.toString produces: "0", or an optional '-' and digits not starting with '0'. */
  predicate IsCanonical(s: string) {
    || s == "0"
    || (|s| > 0 && s[0] != '-' && AllDigits(s) && s[0] != '0')
    || (|s| > 1 && s[0] == '-' && AllDigits(s[1..]) && s[1] != '0')
  }

  lemma {:induction false} DigitsValueOfNatToString(n: nat)
    ensures DigitsValue(NatToString(n)) == n
  {
    if n >= 10 {
      DigitsValueOfNatToString(n / 10);
      var s := NatToString(n);
      assert s[..|s| - 1] == NatToString(n / 10);
    }
  }

  /** A digit run that does not start with '0' has a positive value. */
  lemma {:induction false} DigitsValuePositive(s: string)
    requires |s| > 0 && AllDigits(s) && s[0] != '0'
    ensures DigitsValue(s) > 0
  {
    if |s| > 1 {
      DigitsValuePositive(s[..|s| - 1]);
    }
  }

  /** Printing the value of a digit run without a leading zero gives the run back. */
  lemma {:induction false} NatToStringOfDigitsValue(s: string)
    requires |s| > 0 && AllDigits(s) && (s[0] == '0' ==> |s| == 1)
    ensures NatToString(DigitsValue(s)) == s
  {
    var p := s[..|s| - 1];
    if |s| > 1 {
      DigitsValuePositive(p);
      NatToStringOfDigitsValue(p);
      assert s == p + [s[|s| - 1]];
    }
  }

  /** Long.toString always yields the canonical text, and Long.parseLong reads it back. */
  lemma ParseLongOfLongToString(n: int)
    requires IsLong(n)
    ensures IsCanonical(LongToString(n))
    ensures ParseLong(LongToString(n)) == Some(n)
  {
    var m: nat := if n < 0 then -n else n;
    DigitsValueOfNatToString(m);
    var digits := NatToString(m);
    if n < 0 {
      assert LongToString(n)[1..] == digits;
    }
  }

  /** A canonical text is the only one Long.toString gives for its value. */
  lemma LongToStringOfParseLong(s: string)
    requires IsCanonical(s) && ParseLong(s).Some?
    ensures LongToString(ParseLong(s).value) == s
  {
    if s[0] == '-' {
      NatToStringOfDigitsValue(s[1..]);
      DigitsValuePositive(s[1..]);
      assert s == "-" + s[1..];
    } else {
      NatToStringOfDigitsValue(s);
    }
  }

  /** A leading zero does not change the value: "007" and "7" parse alike. */
  lemma {:induction false} LeadingZeroIgnored(s: string)
    requires AllDigits(s)
    ensures AllDigits("0" + s) && DigitsValue("0" + s) == DigitsValue(s)
  {
    var z := "0" + s;
    assert AllDigits(z) by {
      forall i | 0 <= i < |z| ensures IsDigit(z[i]) {
        if i > 0 { assert z[i] == s[i - 1]; }
      }
    }
    if |s| > 0 {
      LeadingZeroIgnored(s[..|s| - 1]);
      assert z[..|z| - 1] == "0" + s[..|s| - 1];
    }
  }

  /** The lookup key of an identity id: "007" and "+7" both become "7"; "abc" has none. */
  lemma LookupKeyExamples()
    ensures ParseLong("007") == Some(7) && LongToString(7) == "7"
    ensures ParseLong("+7") == Some(7)
    ensures ParseLong("-0") == Some(0) && LongToString(0) == "0"
    ensures ParseLong("abc") == None && ParseLong("") == None && ParseLong("-") == None
  {
    LeadingZeroIgnored("07");
    LeadingZeroIgnored("7");
    assert "0" + "07" == "007";
    assert "0" + "7" == "07";
    assert !AllDigits("abc") by { assert !IsDigit("abc"[0]); }
  }
}
