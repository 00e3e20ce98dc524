/**
 * The two JavaScript string built-ins the handlers rely on:
 * `String.prototype.trim` (auth.service.js) and `parseInt` with no radix
 * (the quantity fields of page.js and RankingCard.js), following sections
 * 22.1.3.32 and 19.2.5 of ECMA-262.
 */
module JsText {
  import opened Wrappers
  import opened Decimal

  /** WhiteSpace and LineTerminator code points (sections 12.2 and 12.3 of ECMA-262). */
  predicate IsJsSpace(c: char) {
    var n := c as int;
    (0x09 <= n <= 0x0D) || n == 0x20 || n == 0xA0 || n == 0x1680
    || (0x2000 <= n <= 0x200A) || n == 0x2028 || n == 0x2029
    || n == 0x202F || n == 0x205F || n == 0x3000 || n == 0xFEFF
  }

  /** The text without its leading white space. */
  function TrimStart(s: string): (r: string)
    ensures |r| <= |s| && r == s[|s| - |r|..]
    ensures r == [] || !IsJsSpace(r[0])
    ensures forall k :: 0 <= k < |s| - |r| ==> IsJsSpace(s[k])
  {
    if s != [] && IsJsSpace(s[0]) then TrimStart(s[1..]) else s
  }

  /** The text without its trailing white space. */
  function TrimEnd(s: string): (r: string)
    ensures |r| <= |s| && r == s[..|r|]
    ensures r == [] || !IsJsSpace(r[|r| - 1])
    ensures forall k :: |r| <= k < |s| ==> IsJsSpace(s[k])
  {
    if s != [] && IsJsSpace(s[|s| - 1]) then TrimEnd(s[..|s| - 1]) else s
  }

  /** `s.trim()`. */
  function Trim(s: string): string {
    TrimEnd(TrimStart(s))
  }

  /**
   * trim keeps a contiguous piece of s, cuts only white space around it, and
   * leaves no white space at either end.
   */
  lemma TrimSpec(s: string)
    ensures exists i, j ::
      && 0 <= i <= j <= |s| && Trim(s) == s[i..j]
      && (forall k :: 0 <= k < i ==> IsJsSpace(s[k]))
      && (forall k :: j <= k < |s| ==> IsJsSpace(s[k]))
    ensures Trim(s) == [] || (!IsJsSpace(Trim(s)[0]) && !IsJsSpace(Trim(s)[|Trim(s)| - 1]))
  {
    var t := TrimStart(s);
    var i := |s| - |t|;
    var r := TrimEnd(t);
    assert r == s[i..i + |r|];
    if r != [] {
      assert r[0] == t[0];
    }
  }

  /** Trimming twice trims nothing more. */
  lemma TrimIdempotent(s: string)
    ensures Trim(Trim(s)) == Trim(s)
  {
    var r := Trim(s);
    if r != [] {
      TrimSpec(s);
      assert TrimStart(r) == r;
    }
  }

  // ---------------------------------------------------------------------
  // parseInt
  // ---------------------------------------------------------------------

  predicate IsHexDigit(c: char) {
    IsDigit(c) || 'a' <= c <= 'f' || 'A' <= c <= 'F'
  }

  function HexCharValue(c: char): (v: nat)
    requires IsHexDigit(c)
    ensures v < 16
  {
    if IsDigit(c) then CharValue(c)
    else if 'a' <= c <= 'f' then c as int - 'a' as int + 10
    else c as int - 'A' as int + 10
  }

  /** The longest prefix of s whose characters satisfy the digit test of the radix. */
  function DigitPrefix(s: string, hex: bool): (r: string)
    ensures |r| <= |s| && r == s[..|r|]
    ensures forall k :: 0 <= k < |r| ==> (if hex then IsHexDigit(r[k]) else IsDigit(r[k]))
    ensures |r| < |s| ==> !(if hex then IsHexDigit(s[|r|]) else IsDigit(s[|r|]))
  {
    if s != [] && (if hex then IsHexDigit(s[0]) else IsDigit(s[0])) then [s[0]] + DigitPrefix(s[1..], hex) else []
  }

  /** The value of hexadecimal digits, most significant first. */
  function HexValue(ds: string): nat
    requires forall k :: 0 <= k < |ds| ==> IsHexDigit(ds[k])
  {
    if ds == [] then 0 else 16 * HexValue(ds[..|ds| - 1]) + HexCharValue(ds[|ds| - 1])
  }

  /** After the sign: "0x"/"0X" switches to radix 16, otherwise radix 10; no digit at all is NaN. */
  function ParseMagnitude(t: string): Option<nat> {
    if |t| >= 2 && t[0] == '0' && (t[1] == 'x' || t[1] == 'X') then
      var ds := DigitPrefix(t[2..], true);
      if ds == [] then None else Some(HexValue(ds))
    else
      var ds := DigitPrefix(t, false);
      if ds == [] then None else Some(DigitValue(ds))
  }

  /** `parseInt(s)`: NaN is None. */
  function ParseInt(s: string): (r: Option<int>)
    ensures r.Some? ==> exists k :: 0 <= k < |s| && IsDigit(s[k])
  {
    var t := TrimStart(s);
    var r := ParseSigned(t);
    assert r.Some? ==> exists k :: 0 <= k < |t| && IsDigit(t[k]);
    r
  }

  /** An optional sign, then the magnitude. */
  function ParseSigned(t: string): (r: Option<int>)
    ensures r.Some? ==> exists k :: 0 <= k < |t| && IsDigit(t[k])
  {
    var neg := t != [] && t[0] == '-';
    var body := if t != [] && (t[0] == '-' || t[0] == '+') then t[1..] else t;
    match ParseMagnitude(body)
    case None => None
    case Some(m) =>
      MagnitudeHasDigit(body);
      Some(if neg then -(m as int) else m)
  }

  lemma MagnitudeHasDigit(t: string)
    requires ParseMagnitude(t).Some?
    ensures exists k :: 0 <= k < |t| && IsDigit(t[k])
  {
    if |t| >= 2 && t[0] == '0' && (t[1] == 'x' || t[1] == 'X') {
      assert IsDigit(t[0]);
    } else {
      assert IsDigit(DigitPrefix(t, false)[0]);
    }
  }

  /** A number's own decimal text parses back to it, with or without a minus sign. */
  lemma ParseIntOfDecimal(n: nat)
    ensures ParseInt(NatToString(n)) == Some(n)
    ensures ParseInt("-" + NatToString(n)) == Some(-(n as int))
  {
    var s := NatToString(n);
    MagnitudeOfDecimal(n);
    assert !IsJsSpace(s[0]);
    assert ParseSigned(s) == Some(n);
    var m := "-" + s;
    assert m[1..] == s;
    assert !IsJsSpace(m[0]);
    assert ParseSigned(m) == Some(-(n as int));
  }

  lemma MagnitudeOfDecimal(n: nat)
    ensures ParseMagnitude(NatToString(n)) == Some(n)
  {
    var s := NatToString(n);
    DigitPrefixAll(s);
    assert !(|s| >= 2 && s[0] == '0');
  }

  /** parseInt stops at the first character that is not a digit: a number's text followed by such a character still reads as the number. */
  lemma ParseIntOfDecimalPrefix(n: nat, rest: string)
    requires rest != [] && !IsDigit(rest[0]) && rest[0] != 'x' && rest[0] != 'X'
    ensures ParseInt(NatToString(n) + rest) == Some(n)
  {
    var s := NatToString(n);
    var t := s + rest;
    DigitPrefixStops(s, rest);
    assert t[0] == s[0];
    assert TrimStart(t) == t;
    if |t| >= 2 && t[0] == '0' {
      assert t[1] == rest[0];
    }
    assert ParseMagnitude(t) == Some(n);
  }

  lemma {:induction false} DigitPrefixStops(ds: string, rest: string)
    requires AllDigits(ds) && rest != [] && !IsDigit(rest[0])
    ensures DigitPrefix(ds + rest, false) == ds
  {
    if ds == [] {
      assert ds + rest == rest;
    } else {
      assert (ds + rest)[1..] == ds[1..] + rest;
      DigitPrefixStops(ds[1..], rest);
    }
  }

  lemma {:induction false} DigitPrefixAll(s: string)
    requires AllDigits(s)
    ensures DigitPrefix(s, false) == s
  {
    if s != [] {
      DigitPrefixAll(s[1..]);
    }
  }
}
