/** C# `int` arithmetic and `int.ToString()`: 32-bit two's-complement values, products that
    wrap around (the default unchecked context), and the decimal text of a value with a
    leading `-` for negatives and no leading zeros. */
module Decimal {

  const TwoTo32: int := 0x1_0000_0000
  const Int32Min: int := -0x8000_0000
  const Int32Max: int := 0x7FFF_FFFF

  predicate IsInt32(x: int)
  {
    Int32Min <= x <= Int32Max
  }

  /** The `int` that an unbounded result wraps to: the one value in range congruent to it
      modulo 2^32. */
  function Wrap32(x: int): (r: int)
    ensures IsInt32(r)
    ensures (x - r) % TwoTo32 == 0
    ensures IsInt32(x) ==> r == x
  {
    var m := x % TwoTo32;
    if m > Int32Max then m - TwoTo32 else m
  }

  predicate IsDigit(c: char)
  {
    '0' <= c <= '9'
  }

  function DigitChar(d: int): (c: char)
    requires 0 <= d < 10
    ensures IsDigit(c) && (c - '0') as int == d
  {
    '0' + d as char
  }

  /** The decimal digits of `n`, most significant first, without leading zeros. */
  function Digits(n: nat): (r: string)
    ensures |r| >= 1
    ensures forall i :: 0 <= i < |r| ==> IsDigit(r[i])
    ensures |r| > 1 ==> r[0] != '0'
  {
    if n < 10 then [DigitChar(n)] else Digits(n / 10) + [DigitChar(n % 10)]
  }

  /** `x.ToString()`, taking the current culture's negative sign to be `-`. */
  function DecimalString(x: int): (r: string)
    ensures r != []
    ensures r[0] == '-' <==> x < 0
  {
    if x < 0 then "-" + Digits(-x) else Digits(x)
  }

  /** Reads a run of decimal digits back. */
  function DigitsValue(s: string): nat
    requires forall i :: 0 <= i < |s| ==> IsDigit(s[i])
  {
    if s == [] then 0
    else
      var last := s[|s| - 1];
      assert IsDigit(last);
      10 * DigitsValue(s[..|s| - 1]) + (last as int - '0' as int)
  }

  /** The shape `int.ToString()` produces: an optional `-`, then at least one digit. */
  predicate IsDecimalText(s: string)
  {
    s != [] && (s[0] == '-' ==> |s| > 1) && (s[0] != '-' ==> IsDigit(s[0])) &&
    forall i :: 0 < i < |s| ==> IsDigit(s[i])
  }

  /** Reads an optional `-` and a run of decimal digits back. */
  function ParseDecimal(s: string): int
    requires IsDecimalText(s)
  {
    if s[0] == '-' then -(DigitsValue(s[1..]) as int) else DigitsValue(s)
  }

  lemma {:induction false} DigitsRoundTrip(n: nat)
    ensures DigitsValue(Digits(n)) == n
  {
    if n >= 10 {
      var r := Digits(n);
      assert r[..|r| - 1] == Digits(n / 10);
      DigitsRoundTrip(n / 10);
    }
  }

  /** Reading the text of a value gives the value back, so distinct values print
      differently. */
  lemma DecimalRoundTrip(x: int)
    ensures IsDecimalText(DecimalString(x)) && ParseDecimal(DecimalString(x)) == x
  {
    var s := DecimalString(x);
    if x < 0 {
      assert s[1..] == Digits(-x);
      DigitsRoundTrip(-x);
    } else {
      DigitsRoundTrip(x);
    }
  }
}
