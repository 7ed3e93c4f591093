/** Bytes, and decimal numbers written in them. */
module Digits {

  type byte = b: int | 0 <= b < 256

  const SOH: byte := 1
  const ZERO: byte := 48
  const MINUS: byte := 45

  /** `val - '0'` for a C++ `char`, which is signed. */
  function DigitValue(b: byte): int {
    (if b < 128 then b else b - 256) - ZERO
  }

  /** What a reading loop accumulates: each byte, digit or not, shifts and adds. */
  function Value(s: seq<byte>): int {
    if s == [] then 0 else Value(s[..|s| - 1]) * 10 + DigitValue(s[|s| - 1])
  }

  predicate IsDigit(b: byte) { 48 <= b <= 57 }

  predicate AllDigits(s: seq<byte>) {
    forall i :: 0 <= i < |s| ==> IsDigit(s[i])
  }

  /** What `std::to_chars` writes for a non-negative number. */
  function Decimal(n: nat): (s: seq<byte>)
    ensures |s| > 0 && AllDigits(s)
  {
    if n < 10 then [48 + n] else Decimal(n / 10) + [48 + n % 10]
  }

  /** What `std::to_chars` writes for a signed number. */
  function Signed(n: int): (s: seq<byte>)
    ensures |s| > 0
  {
    if n < 0 then [MINUS] + Decimal(-n) else Decimal(n)
  }

  function Zeros(k: nat): (s: seq<byte>)
    ensures |s| == k && AllDigits(s)
  {
    seq(k, _ => ZERO)
  }

  /** `n` right-aligned in a field of `width` zeros. */
  function Padded(n: nat, width: nat): (s: seq<byte>)
    ensures AllDigits(s)
  {
    if |Decimal(n)| <= width then Zeros(width - |Decimal(n)|) + Decimal(n) else Decimal(n)
  }

  function Pow10(k: nat): (p: nat)
    ensures p > 0
  {
    if k == 0 then 1 else 10 * Pow10(k - 1)
  }

  lemma ValueSnoc(s: seq<byte>, b: byte)
    ensures Value(s + [b]) == Value(s) * 10 + DigitValue(b)
  {
    assert (s + [b])[..|s|] == s;
  }

  /** Writing a number and reading it back. */
  lemma {:induction false} ValueOfDecimal(n: nat)
    ensures Value(Decimal(n)) == n
  {
    if n >= 10 {
      ValueOfDecimal(n / 10);
      ValueSnoc(Decimal(n / 10), 48 + n % 10);
    } else {
      ValueSnoc([], 48 + n);
    }
  }

  lemma {:induction false} ValueOfZerosThen(k: nat, s: seq<byte>)
    ensures Value(Zeros(k) + s) == Value(s)
    decreases k + |s|
  {
    if s == [] {
      assert Zeros(k) + s == Zeros(k);
      if k > 0 {
        assert Zeros(k)[..k - 1] == Zeros(k - 1);
        ValueOfZerosThen(k - 1, []);
        assert Zeros(k - 1) + [] == Zeros(k - 1);
      }
    } else {
      ValueOfZerosThen(k, s[..|s| - 1]);
      assert (Zeros(k) + s)[..k + |s| - 1] == Zeros(k) + s[..|s| - 1];
    }
  }

  lemma ValueOfPadded(n: nat, width: nat)
    ensures Value(Padded(n, width)) == n
  {
    ValueOfDecimal(n);
    if |Decimal(n)| <= width {
      ValueOfZerosThen(width - |Decimal(n)|, Decimal(n));
    }
  }

  lemma {:induction false} DecimalLength(n: nat, k: nat)
    requires k > 0
    ensures |Decimal(n)| <= k <==> n < Pow10(k)
    decreases k
  {
    if k == 1 {
      assert Pow10(1) == 10 by { assert Pow10(0) == 1; }
    } else if n >= 10 {
      DecimalLength(n / 10, k - 1);
    } else {
      Pow10Grows(1, k);
      assert Pow10(1) == 10 by { assert Pow10(0) == 1; }
    }
  }

  lemma {:induction false} Pow10Grows(a: nat, b: nat)
    requires a <= b
    ensures Pow10(a) <= Pow10(b)
    decreases b
  {
    if a < b { Pow10Grows(a, b - 1); }
  }

  lemma PaddedLength(n: nat, width: nat)
    requires width > 0
    ensures |Padded(n, width)| == width <==> n < Pow10(width)
  {
    DecimalLength(n, width);
  }

  /** Only as many digits as the field has can be read from it. */
  lemma {:induction false} ValueBound(s: seq<byte>)
    requires AllDigits(s)
    ensures 0 <= Value(s) < Pow10(|s|)
  {
    if s != [] { ValueBound(s[..|s| - 1]); }
  }
}
