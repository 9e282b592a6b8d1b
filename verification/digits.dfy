/** Decimal rendering of natural numbers, as Python's `str(n)` and the
    zero-padded `%0Nd` / `{n:0Nd}` formats produce it, together with the
    digit-string value that undoes both renderings. */
module Digits {

  predicate IsDigit(c: char) {
    '0' <= c <= '9'
  }

  predicate AllDigits(s: string) {
    forall i :: 0 <= i < |s| ==> IsDigit(s[i])
  }

  function DigitChar(d: int): (c: char)
    requires 0 <= d < 10
    ensures IsDigit(c)
  {
    (('0' as int) + d) as char
  }

  function DigitValue(c: char): (d: int)
    requires IsDigit(c)
    ensures 0 <= d < 10
  {
    (c as int) - ('0' as int)
  }

  function Pow10(k: nat): (p: nat)
    ensures p >= 1
  {
    if k == 0 then 1 else 10 * Pow10(k - 1)
  }

  /** The number a string of decimal digits denotes (most significant first). */
  function Value(s: string): nat
    requires AllDigits(s)
  {
    if |s| == 0 then 0 else 10 * Value(s[..|s| - 1]) + DigitValue(s[|s| - 1])
  }

  /** The `width` low-order decimal digits of `n`, zero-padded on the left:
      Python's `f"{n:0{width}d}"` for `n < 10^width`. */
  function PadDigits(n: nat, width: nat): (s: string)
    ensures |s| == width
    ensures AllDigits(s)
  {
    if width == 0 then "" else PadDigits(n / 10, width - 1) + [DigitChar(n % 10)]
  }

  /** Python's `str(n)` for a non-negative integer: no leading zeros. */
  function NatToString(n: nat): (s: string)
    ensures |s| >= 1
    ensures AllDigits(s)
  {
    if n < 10 then [DigitChar(n)] else NatToString(n / 10) + [DigitChar(n % 10)]
  }

  lemma DigitRoundTrip(d: int)
    requires 0 <= d < 10
    ensures DigitValue(DigitChar(d)) == d
  {
  }

  /** Zero-padding loses nothing when the number fits in the width. */
  lemma {:induction false} PadDigitsValue(n: nat, width: nat)
    requires n < Pow10(width)
    ensures Value(PadDigits(n, width)) == n
  {
    if width > 0 {
      var s := PadDigits(n, width);
      assert s[..|s| - 1] == PadDigits(n / 10, width - 1);
      PadDigitsValue(n / 10, width - 1);
      DigitRoundTrip(n % 10);
    }
  }

  /** `str(n)` denotes `n`. */
  lemma {:induction false} NatToStringValue(n: nat)
    ensures Value(NatToString(n)) == n
  {
    var s := NatToString(n);
    if n < 10 {
      assert s[..|s| - 1] == "";
      DigitRoundTrip(n);
    } else {
      assert s[..|s| - 1] == NatToString(n / 10);
      NatToStringValue(n / 10);
      DigitRoundTrip(n % 10);
    }
  }

  /** Different widths-fitting numbers never share a zero-padded rendering. */
  lemma PadDigitsInjective(a: nat, b: nat, width: nat)
    requires a < Pow10(width) && b < Pow10(width)
    requires PadDigits(a, width) == PadDigits(b, width)
    ensures a == b
  {
    PadDigitsValue(a, width);
    PadDigitsValue(b, width);
  }

  /** Different numbers never share a `str` rendering. */
  lemma NatToStringInjective(a: nat, b: nat)
    requires NatToString(a) == NatToString(b)
    ensures a == b
  {
    NatToStringValue(a);
    NatToStringValue(b);
  }

  /** A digit string is the zero-padded rendering of its own value. */
  lemma {:induction false} ValuePadDigits(s: string)
    requires AllDigits(s)
    ensures Value(s) < Pow10(|s|)
    ensures PadDigits(Value(s), |s|) == s
  {
    if |s| > 0 {
      var init, c := s[..|s| - 1], s[|s| - 1];
      assert AllDigits(init) by {
        assert forall i :: 0 <= i < |init| ==> init[i] == s[i];
      }
      ValuePadDigits(init);
      var v := Value(s);
      assert v / 10 == Value(init) && v % 10 == DigitValue(c);
      assert DigitChar(DigitValue(c)) == c;
      assert s == init + [c];
    }
  }

  /** `str(n)` for any integer: a minus sign before the digits of a negative one. */
  function IntToString(n: int): (s: string)
    ensures n >= 0 ==> s == NatToString(n)
    ensures n < 0 ==> s == "-" + NatToString(-n)
  {
    if n < 0 then "-" + NatToString(-n) else NatToString(n)
  }
}
