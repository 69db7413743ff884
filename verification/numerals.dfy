/**
 * Decimal numerals as Python writes them: `str(n)` and the zero-padded
 * `format(n, '08d')`, with the value they are read back as.
 */
module Numerals {

  predicate IsDigitChar(c: char) {
    '0' <= c <= '9'
  }

  predicate Digits(s: string) {
    forall k :: 0 <= k < |s| ==> IsDigitChar(s[k])
  }

  function DigitChar(d: nat): (c: char)
    requires d < 10
    ensures IsDigitChar(c)
  {
    (48 + d) as char
  }

  /** The value of a digit string; the empty string reads as 0. */
  function Value(s: string): nat
    requires Digits(s)
  {
    if s == [] then 0 else 10 * Value(s[..|s| - 1]) + (s[|s| - 1] as int - 48)
  }

  /** `str(n)`: the digits of n, with no leading zero unless n is 0. */
  function Decimal(n: nat): (r: string)
    ensures r != [] && Digits(r)
    ensures |r| > 1 ==> r[0] != '0'
  {
    if n < 10 then [DigitChar(n)] else Decimal(n / 10) + [DigitChar(n % 10)]
  }

  function Pow10(w: nat): (p: nat)
    ensures p >= 1
  {
    if w == 0 then 1 else 10 * Pow10(w - 1)
  }

  /** `str(n)` reads back as n. */
  lemma {:induction false} DecimalValue(n: nat)
    ensures Value(Decimal(n)) == n
  {
    if n >= 10 {
      DecimalValue(n / 10);
      var r := Decimal(n);
      assert r[..|r| - 1] == Decimal(n / 10);
    }
  }

  /** A number has at most w digits exactly when it is below 10^w. */
  lemma {:induction false} DecimalLength(n: nat, w: nat)
    requires w >= 1
    ensures |Decimal(n)| <= w <==> n < Pow10(w)
  {
    if n >= 10 {
      if w == 1 {
        assert |Decimal(n / 10)| >= 1;
      } else {
        DecimalLength(n / 10, w - 1);
        assert n / 10 < Pow10(w - 1) <==> n < 10 * Pow10(w - 1);
      }
    } else if w > 1 {
      assert Pow10(w) == 10 * Pow10(w - 1);
    }
  }

  function Zeros(k: nat): (r: string)
    ensures |r| == k && Digits(r)
  {
    if k == 0 then [] else Zeros(k - 1) + ['0']
  }

  /** `format(n, '0<w>d')`: the digits of n, left-padded with zeros to at least w characters. */
  function ZeroPad(n: nat, w: nat): (r: string)
    ensures Digits(r)
  {
    var d := Decimal(n);
    (if |d| < w then Zeros(w - |d|) else []) + d
  }

  /** Leading zeros do not change the value. */
  lemma {:induction false} ZerosValue(k: nat, s: string)
    requires Digits(s)
    decreases |s|
    ensures Value(Zeros(k) + s) == Value(s)
  {
    if s == [] {
      ZerosZero(k);
      assert Zeros(k) + s == Zeros(k);
    } else {
      var t := Zeros(k) + s;
      assert t[..|t| - 1] == Zeros(k) + s[..|s| - 1];
      ZerosValue(k, s[..|s| - 1]);
    }
  }

  lemma {:induction false} ZerosZero(k: nat)
    ensures Value(Zeros(k)) == 0
  {
    if k > 0 {
      assert Zeros(k)[..k - 1] == Zeros(k - 1);
      ZerosZero(k - 1);
    }
  }

  /**
   * The padded numeral reads back as n; it is exactly w characters long when
   * n is below 10^w, and longer otherwise.
   */
  lemma ZeroPadSpec(n: nat, w: nat)
    requires w >= 1
    ensures Value(ZeroPad(n, w)) == n
    ensures n < Pow10(w) ==> |ZeroPad(n, w)| == w
    ensures n >= Pow10(w) ==> |ZeroPad(n, w)| > w
  {
    var d := Decimal(n);
    DecimalValue(n);
    DecimalLength(n, w);
    if |d| < w {
      ZerosValue(w - |d|, d);
    } else {
      assert ZeroPad(n, w) == d;
    }
  }
}
