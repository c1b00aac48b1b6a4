/**
 * Decimal text of integers, as Go's strconv.Itoa renders them (an optional
 * leading '-' followed by the digits of the magnitude, which start with '0'
 * only for zero itself), and
 * the parse that undoes it.
 */
module Decimal {
  import opened Wrappers

  predicate IsDigit(c: char) {
    '0' <= c <= '9'
  }

  function DigitChar(d: nat): (c: char)
    requires d < 10
    ensures IsDigit(c)
  {
    (('0' as int) + d) as char
  }

  function DigitValue(c: char): (d: nat)
    requires IsDigit(c)
    ensures d < 10 && DigitChar(d) == c
  {
    (c as int) - ('0' as int)
  }

  /** True when every character of `s` is a decimal digit. */
  predicate AllDigits(s: string) {
    forall i :: 0 <= i < |s| ==> IsDigit(s[i])
  }

  /** The decimal digits of `n`, most significant first. */
  function NatToDecimal(n: nat): (r: string)
    ensures |r| > 0 && AllDigits(r)
    ensures n < 10 <==> |r| == 1
    ensures r[0] == '0' <==> n == 0
    decreases n
  {
    if n < 10 then [DigitChar(n)] else NatToDecimal(n / 10) + [DigitChar(n % 10)]
  }

  /** strconv.Itoa: a '-' before the magnitude's digits for negative numbers. */
  function Itoa(n: int): (r: string)
    ensures |r| > 0
    ensures r[0] == '-' <==> n < 0
    ensures forall i :: 0 <= i < |r| && (i > 0 || n >= 0) ==> IsDigit(r[i])
  {
    if n < 0 then "-" + NatToDecimal(-n) else NatToDecimal(n)
  }

  /** The value of a non-empty run of digits, or None if `s` is empty or holds a non-digit. */
  function ParseDigits(s: string): (r: Option<nat>)
    ensures r.Some? <==> |s| > 0 && AllDigits(s)
  {
    if |s| == 0 || !IsDigit(s[|s| - 1]) then None
    else if |s| == 1 then Some(DigitValue(s[0]))
    else match ParseDigits(s[..|s| - 1])
      case None => None
      case Some(v) => Some(10 * v + DigitValue(s[|s| - 1]))
  }

  /** The inverse of Itoa: an optional '-' followed by digits. */
  function ParseInt(s: string): Option<int>
  {
    if |s| > 0 && s[0] == '-' then
      match ParseDigits(s[1..])
      case None => None
      case Some(v) => Some(-(v as int))
    else
      match ParseDigits(s)
      case None => None
      case Some(v) => Some(v)
  }

  lemma {:induction false} DigitsRoundTrip(n: nat)
    ensures ParseDigits(NatToDecimal(n)) == Some(n)
    decreases n
  {
    var s := NatToDecimal(n);
    if n >= 10 {
      assert s[..|s| - 1] == NatToDecimal(n / 10);
      DigitsRoundTrip(n / 10);
    }
  }

  /** Parsing the text strconv.Itoa produces gives back the number. */
  lemma {:induction false} ItoaRoundTrip(n: int)
    ensures ParseInt(Itoa(n)) == Some(n)
  {
    if n < 0 {
      assert Itoa(n)[1..] == NatToDecimal(-n);
      DigitsRoundTrip(-n);
    } else {
      DigitsRoundTrip(n);
    }
  }
}
