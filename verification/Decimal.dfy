/** Decimal text of integers, as the formatting macros print it, and its value. */
module Decimal {
  import opened Wrappers

  predicate IsDigit(c: char) {
    '0' <= c <= '9'
  }

  function DigitValue(c: char): nat
    requires IsDigit(c)
  {
    c as int - '0' as int
  }

  function Digit(d: nat): (c: char)
    requires d < 10
    ensures IsDigit(c) && DigitValue(c) == d
  {
    (d + '0' as int) as char
  }

  predicate AllDigits(s: string) {
    forall i | 0 <= i < |s| :: IsDigit(s[i])
  }

  lemma DigitsAre(s: string)
    ensures AllDigits(s) <==> forall c | c in s :: c in "0123456789"
  {
    forall i | 0 <= i < |s| ensures IsDigit(s[i]) <==> s[i] in "0123456789" {
    }
  }

  function Pow10(n: nat): (p: nat)
    ensures p > 0
  {
    if n == 0 then 1 else 10 * Pow10(n - 1)
  }

  /** `v` followed by so many zeros. */
  function Shift(v: nat, zeros: nat): nat {
    if zeros == 0 then v else 10 * Shift(v, zeros - 1)
  }

  /** The value of a string of digits. */
  function Value(s: string): nat
    requires AllDigits(s)
  {
    if s == "" then 0 else Value(s[..|s| - 1]) * 10 + DigitValue(s[|s| - 1])
  }

  /** `{}` of an unsigned integer: no leading zeros. */
  function Natural(n: nat): (s: string)
    ensures AllDigits(s) && s != ""
    ensures Value(s) == n
  {
    if n < 10 then
      var s := [Digit(n)];
      assert s[..0] == "";
      s
    else
      var high := Natural(n / 10);
      var s := high + [Digit(n % 10)];
      assert s[..|s| - 1] == high;
      s
  }

  /** `{}` of a signed integer. */
  function Integer(i: int): string {
    if i < 0 then "-" + Natural(-i) else Natural(i)
  }

  /** `{:0width}`: zeros in front until the text is `width` long. */
  function ZeroPadded(s: string, width: nat): string
    decreases width - |s|
  {
    if width <= |s| then s else ZeroPadded("0" + s, width)
  }

  lemma {:induction false} LeadingZero(s: string)
    requires AllDigits(s)
    ensures AllDigits("0" + s) && Value("0" + s) == Value(s)
  {
    var t := "0" + s;
    if s == "" {
      assert t[..0] == "";
    } else {
      LeadingZero(s[..|s| - 1]);
      assert t[..|t| - 1] == "0" + s[..|s| - 1];
    }
  }

  lemma {:induction false} PaddedValue(s: string, width: nat)
    requires AllDigits(s) && |s| <= width
    ensures AllDigits(ZeroPadded(s, width)) && |ZeroPadded(s, width)| == width
    ensures Value(ZeroPadded(s, width)) == Value(s)
    decreases width - |s|
  {
    if |s| < width {
      LeadingZero(s);
      PaddedValue("0" + s, width);
    }
  }

  lemma {:induction false} NaturalLength(n: nat, width: nat)
    requires n < Pow10(width) && 0 < width
    ensures |Natural(n)| <= width
  {
    assert Pow10(width) == 10 * Pow10(width - 1);
    if n >= 10 {
      NaturalLength(n / 10, width - 1);
    }
  }

  /** The value of a padded field: exactly `width` digits, worth `n`. */
  lemma PaddedNatural(n: nat, width: nat)
    requires n < Pow10(width) && 0 < width
    ensures AllDigits(ZeroPadded(Natural(n), width)) && |ZeroPadded(Natural(n), width)| == width
    ensures Value(ZeroPadded(Natural(n), width)) == n
  {
    NaturalLength(n, width);
    PaddedValue(Natural(n), width);
  }

  /** A decimal with an optional minus sign. */
  function ReadInteger(s: string): Option<int> {
    if s != "" && s[0] == '-' then if s != "-" && AllDigits(s[1..]) then Some(0 - Value(s[1..])) else None
    else if s != "" && AllDigits(s) then Some(Value(s))
    else None
  }

  lemma IntegerReadsBack(i: int)
    ensures ReadInteger(Integer(i)) == Some(i)
  {
    if i < 0 {
      assert Integer(i)[1..] == Natural(-i);
    } else {
      assert IsDigit(Natural(i)[0]);
    }
  }

  /** Different integers print differently. */
  lemma IntegerInjective(a: int, b: int)
    requires Integer(a) == Integer(b)
    ensures a == b
  {
    IntegerReadsBack(a);
    IntegerReadsBack(b);
  }
}
