/** Decimal rendering of integers, as Python's `str(int)` and f-string `{n}` write them,
    together with a prefix reader that undoes it. The reader is the partner definition
    used to show that the score strings of the match model lose no information. */
module Decimal {
  import opened Basics

  predicate IsDigit(c: char) {
    '0' <= c <= '9'
  }

  predicate AllDigits(s: string) {
    forall i :: 0 <= i < |s| ==> IsDigit(s[i])
  }

  function DigitChar(d: nat): (c: char)
    requires d < 10
    ensures IsDigit(c)
  {
    "0123456789"[d]
  }

  function DigitValue(c: char): (d: nat)
    requires IsDigit(c)
    ensures d < 10
  {
    c as int - '0' as int
  }

  /** `str(n)` for a non-negative integer: no sign, no leading zeros. */
  function NatToString(n: nat): (s: string)
    ensures |s| > 0 && AllDigits(s)
    ensures s[0] == '0' ==> n == 0
  {
    if n < 10 then [DigitChar(n)] else NatToString(n / 10) + [DigitChar(n % 10)]
  }

  /** `str(i)` for any integer: a minus sign before the magnitude when negative. */
  function IntToString(i: int): (s: string)
    ensures |s| > 0
    ensures forall k :: 0 <= k < |s| ==> IsDigit(s[k]) || s[k] == '-'
    ensures i < 0 <==> s[0] == '-'
  {
    if i < 0 then "-" + NatToString(-i) else NatToString(i)
  }

  /** The value of a string of decimal digits, most significant first. */
  function DigitsValue(s: string): nat
    requires AllDigits(s)
  {
    if |s| == 0 then 0 else DigitsValue(s[..|s| - 1]) * 10 + DigitValue(s[|s| - 1])
  }

  /** Length of the longest all-digit prefix of `s`. */
  function SpanDigits(s: string): (k: nat)
    ensures k <= |s|
    ensures AllDigits(s[..k])
    ensures k < |s| ==> !IsDigit(s[k])
  {
    if |s| == 0 || !IsDigit(s[0]) then 0 else 1 + SpanDigits(s[1..])
  }

  /** Reads a non-negative integer from the front of `s`: the value and what follows it. */
  function ReadNat(s: string): (r: Option<(nat, string)>)
    ensures r.Some? ==> |r.value.1| < |s|
  {
    var k := SpanDigits(s);
    if k == 0 then None else Some((DigitsValue(s[..k]), s[k..]))
  }

  /** Reads an optionally negative integer from the front of `s`. */
  function ReadInt(s: string): (r: Option<(int, string)>)
    ensures r.Some? ==> |r.value.1| < |s|
  {
    if |s| > 0 && s[0] == '-' then
      match ReadNat(s[1..])
      case None => None
      case Some((n, rest)) => Some((0 - n as int, rest))
    else
      match ReadNat(s)
      case None => None
      case Some((n, rest)) => Some((n as int, rest))
  }

  /** A reader may stop here: the end of the string, or a character that is not a digit. */
  predicate StopsReading(rest: string) {
    |rest| == 0 || !IsDigit(rest[0])
  }

  lemma {:induction false} DigitsValueOfNatToString(n: nat)
    ensures DigitsValue(NatToString(n)) == n
  {
    if n >= 10 {
      var s := NatToString(n);
      DigitsValueOfNatToString(n / 10);
      assert s[..|s| - 1] == NatToString(n / 10);
    }
  }

  lemma {:induction false} SpanDigitsOfDigitsThen(d: string, rest: string)
    requires AllDigits(d) && StopsReading(rest)
    ensures SpanDigits(d + rest) == |d|
  {
    if |d| > 0 {
      assert (d + rest)[1..] == d[1..] + rest;
      SpanDigitsOfDigitsThen(d[1..], rest);
    }
  }

  /** Reading back the rendering of a natural number recovers it and the untouched rest. */
  lemma ReadNatOfNatToString(n: nat, rest: string)
    requires StopsReading(rest)
    ensures ReadNat(NatToString(n) + rest) == Some((n, rest))
  {
    var d := NatToString(n);
    SpanDigitsOfDigitsThen(d, rest);
    assert (d + rest)[..|d|] == d;
    assert (d + rest)[|d|..] == rest;
    DigitsValueOfNatToString(n);
  }

  /** Reading back the rendering of any integer recovers it and the untouched rest. */
  lemma ReadIntOfIntToString(i: int, rest: string)
    requires StopsReading(rest)
    ensures ReadInt(IntToString(i) + rest) == Some((i, rest))
  {
    var s := IntToString(i) + rest;
    if i < 0 {
      var d := NatToString(-i);
      assert s == "-" + (d + rest);
      assert s[1..] == d + rest;
      ReadNatOfNatToString(-i, rest);
    } else {
      var d := NatToString(i);
      assert s == d + rest;
      assert s[0] == d[0] && IsDigit(d[0]);
      ReadNatOfNatToString(i, rest);
    }
  }

  /** Distinct integers render to distinct strings. */
  lemma IntToStringInjective(i: int, j: int)
    requires IntToString(i) == IntToString(j)
    ensures i == j
  {
    ReadIntOfIntToString(i, "");
    ReadIntOfIntToString(j, "");
    assert IntToString(i) + "" == IntToString(i);
    assert IntToString(j) + "" == IntToString(j);
  }
}
