/**
 * Decimal digit strings: the conversions between numbers and their
 * base-ten text that JavaScript performs implicitly (`Number(s)` on a
 * string of digits, `String(n)` and template literals on a non-negative
 * integer).
 */
module Decimal {

  predicate IsDigit(c: char) {
    '0' <= c <= '9'
  }

  predicate AllDigits(s: string) {
    forall i :: 0 <= i < |s| ==> IsDigit(s[i])
  }

  function CharValue(c: char): nat
    requires IsDigit(c)
  {
    c as int - '0' as int
  }

  function DigitChar(d: nat): (c: char)
    requires d < 10
    ensures IsDigit(c) && CharValue(c) == d
  {
    ('0' as int + d) as char
  }

  function Pow10(k: nat): (p: nat)
    ensures p >= 1
  {
    if k == 0 then 1 else 10 * Pow10(k - 1)
  }

  /** The number a digit string denotes, most significant digit first; the empty string denotes 0, as `Number("")` does. */
  function DigitValue(ds: string): nat
    requires AllDigits(ds)
  {
    if ds == [] then 0 else 10 * DigitValue(ds[..|ds| - 1]) + CharValue(ds[|ds| - 1])
  }

  lemma {:induction false} DigitValueAppend(a: string, b: string)
    requires AllDigits(a) && AllDigits(b)
    ensures AllDigits(a + b)
    ensures DigitValue(a + b) == DigitValue(a) * Pow10(|b|) + DigitValue(b)
  {
    if b == [] {
      assert a + b == a;
    } else {
      var b' := b[..|b| - 1];
      assert (a + b)[..|a + b| - 1] == a + b';
      DigitValueAppend(a, b');
      var x, p, v, c := DigitValue(a), Pow10(|b'|), DigitValue(b'), CharValue(b[|b| - 1]);
      assert Pow10(|b|) == 10 * p;
      assert DigitValue(b) == 10 * v + c;
      assert x * (10 * p) == 10 * (x * p) by { MulAssoc(x, 10, p); }
      assert DigitValue(a + b) == 10 * (x * p + v) + c;
    }
  }

  lemma MulAssoc(x: nat, y: nat, z: nat)
    ensures x * (y * z) == y * (x * z)
  {
  }

  /**
   * The shortest base-ten text of n (JavaScript's `String(n)` for a
   * non-negative integer below 10^21): it reads back as n and has no
   * leading zero unless it is the lone "0".
   */
  function NatToString(n: nat): (s: string)
    ensures AllDigits(s) && |s| >= 1
    ensures DigitValue(s) == n
    ensures s[0] == '0' ==> n == 0 && |s| == 1
  {
    if n < 10 then
      [DigitChar(n)]
    else
      var s := NatToString(n / 10) + [DigitChar(n % 10)];
      assert s[..|s| - 1] == NatToString(n / 10);
      s
  }

  /** Different numbers print differently: the text identifies the number. */
  lemma NatToStringInjective(m: nat, n: nat)
    requires NatToString(m) == NatToString(n)
    ensures m == n
  {
  }
}
