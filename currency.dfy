/**
 * The price-field text format of the app (src/utils/currency.js, and the
 * identical inline copy of formatCurrencyInput in src/app/page.js):
 * keystrokes are reduced to their digits, read as a number of cents and
 * shown as "R$ <integer part>,<two digits>", with a '.' between groups of
 * three integer digits; parseCurrency reads such text back as a number.
 *
 * Each JavaScript step is a function of its own. JavaScript numbers are
 * modelled exactly: cents as `nat`, the parsed price as `real`.
 */
module Currency {
  import opened Wrappers
  import opened Decimal

  /** Largest digit value (exclusive) for which `(v / 100).toFixed(2)` on a binary double yields exactly the cents v. */
  const MaxExactCents: nat := 1_000_000_000_000_000

  // ---------------------------------------------------------------------
  // Character-class filters (`String.prototype.replace` with a global regex)
  // ---------------------------------------------------------------------

  /** `s.replace(/\D/g, '')`: the digits of s, in order. */
  function StripNonDigits(s: string): (r: string)
    ensures AllDigits(r) && |r| <= |s|
    ensures AllDigits(s) ==> r == s
  {
    if s == [] then [] else (if IsDigit(s[0]) then [s[0]] else []) + StripNonDigits(s[1..])
  }

  lemma {:induction false} StripNonDigitsAppend(a: string, b: string)
    ensures StripNonDigits(a + b) == StripNonDigits(a) + StripNonDigits(b)
  {
    if a != [] {
      assert (a + b)[1..] == a[1..] + b;
      StripNonDigitsAppend(a[1..], b);
    } else {
      assert a + b == b;
    }
  }

  /** Removing the non-digits twice is removing them once. */
  lemma StripNonDigitsIdempotent(s: string)
    ensures StripNonDigits(StripNonDigits(s)) == StripNonDigits(s)
  {
  }

  predicate IsDigitOrComma(c: char) {
    IsDigit(c) || c == ','
  }

  /** `s.replace(/[^\d,]/g, '')`: the digits and commas of s, in order. */
  function KeepDigitsAndCommas(s: string): (r: string)
    ensures |r| <= |s|
    ensures forall i :: 0 <= i < |r| ==> IsDigitOrComma(r[i])
  {
    if s == [] then [] else (if IsDigitOrComma(s[0]) then [s[0]] else []) + KeepDigitsAndCommas(s[1..])
  }

  lemma {:induction false} KeepDigitsAndCommasAppend(a: string, b: string)
    ensures KeepDigitsAndCommas(a + b) == KeepDigitsAndCommas(a) + KeepDigitsAndCommas(b)
  {
    if a != [] {
      assert (a + b)[1..] == a[1..] + b;
      KeepDigitsAndCommasAppend(a[1..], b);
    } else {
      assert a + b == b;
    }
  }

  lemma {:induction false} KeepDigitsAndCommasOfDigits(s: string)
    requires AllDigits(s)
    ensures KeepDigitsAndCommas(s) == s
  {
    if s != [] {
      KeepDigitsAndCommasOfDigits(s[1..]);
    }
  }

  /** Without commas, keeping digits and commas is keeping digits. */
  lemma {:induction false} KeepWithoutCommas(s: string)
    requires forall i :: 0 <= i < |s| ==> s[i] != ','
    ensures KeepDigitsAndCommas(s) == StripNonDigits(s)
  {
    if s != [] {
      KeepWithoutCommas(s[1..]);
    }
  }

  /** `s.replace(c, d)` with a one-character string pattern: only the first occurrence is replaced. */
  function ReplaceFirst(s: string, c: char, d: char): (r: string)
    ensures |r| == |s|
  {
    if s == [] then []
    else if s[0] == c then [d] + s[1..]
    else [s[0]] + ReplaceFirst(s[1..], c, d)
  }

  lemma {:induction false} ReplaceFirstAfterDigits(ds: string, c: char, d: char, rest: string)
    requires AllDigits(ds) && !IsDigit(c)
    ensures ReplaceFirst(ds + [c] + rest, c, d) == ds + [d] + rest
  {
    if ds != [] {
      assert (ds + [c] + rest)[1..] == ds[1..] + [c] + rest;
      ReplaceFirstAfterDigits(ds[1..], c, d, rest);
    }
  }

  // ---------------------------------------------------------------------
  // Number to text: `(v / 100).toFixed(2)` and the thousands regex
  // ---------------------------------------------------------------------

  /** The number of cents the digits of s denote (`Number(s.replace(/\D/g, ''))`). */
  function Cents(s: string): nat {
    DigitValue(StripNonDigits(s))
  }

  /** The two decimal digits of n cents. */
  function CentsDigits(n: nat): (f: string)
    ensures |f| == 2 && AllDigits(f) && DigitValue(f) == n % 100
  {
    var m := n % 100;
    var f := [DigitChar(m / 10), DigitChar(m % 10)];
    assert f[..1] == [f[0]] && [f[0]][..0] == [];
    assert DigitValue([f[0]]) == m / 10;
    f
  }

  /** `(n / 100).toFixed(2)` for n cents, computed exactly. */
  function ToFixed2(n: nat): string {
    NatToString(n / 100) + "." + CentsDigits(n)
  }

  /** Length of the run of digits at the front of s. */
  function DigitRun(s: string): (k: nat)
    ensures k <= |s|
    ensures AllDigits(s[..k])
    ensures k < |s| ==> !IsDigit(s[k])
  {
    if s != [] && IsDigit(s[0]) then 1 + DigitRun(s[1..]) else 0
  }

  /**
   * `s.replace(/(\d)(?=(\d{3})+(?!\d))/g, "$1.")`: a '.' goes after every
   * digit that is followed by a maximal run of digits whose length is a
   * positive multiple of three.
   */
  function ThousandsRegex(s: string): string {
    if s == [] then []
    else if IsDigit(s[0]) && DigitRun(s[1..]) > 0 && DigitRun(s[1..]) % 3 == 0 then [s[0], '.'] + ThousandsRegex(s[1..])
    else [s[0]] + ThousandsRegex(s[1..])
  }

  /** Reference grouping: a '.' before every complete group of three digits, counted from the right. */
  function Grouped(ds: string): string {
    if |ds| <= 3 then ds else Grouped(ds[..|ds| - 3]) + "." + ds[|ds| - 3..]
  }

  /** The regex's effect on a digit string, spelled left to right (proof helper). */
  function InsertDots(ds: string): string {
    if ds == [] then []
    else [ds[0]] + (if |ds| > 1 && (|ds| - 1) % 3 == 0 then "." else "") + InsertDots(ds[1..])
  }

  lemma {:induction false} DigitRunOfDigits(ds: string, rest: string)
    requires AllDigits(ds) && (rest == [] || !IsDigit(rest[0]))
    ensures DigitRun(ds + rest) == |ds|
  {
    if ds != [] {
      assert (ds + rest)[1..] == ds[1..] + rest;
      DigitRunOfDigits(ds[1..], rest);
    } else {
      assert ds + rest == rest;
    }
  }

  lemma {:induction false} ThousandsRegexOnDigits(ds: string, rest: string)
    requires AllDigits(ds) && (rest == [] || !IsDigit(rest[0]))
    ensures ThousandsRegex(ds + rest) == InsertDots(ds) + ThousandsRegex(rest)
  {
    if ds == [] {
      assert ds + rest == rest;
    } else {
      assert (ds + rest)[1..] == ds[1..] + rest;
      DigitRunOfDigits(ds[1..], rest);
      ThousandsRegexOnDigits(ds[1..], rest);
    }
  }

  lemma {:induction false} InsertDotsShort(ds: string)
    requires |ds| <= 3
    ensures InsertDots(ds) == ds
  {
    if ds != [] {
      InsertDotsShort(ds[1..]);
    }
  }

  lemma {:induction false} InsertDotsAppendGroup(a: string, b: string)
    requires |a| >= 1 && |b| == 3
    ensures InsertDots(a + b) == InsertDots(a) + "." + b
  {
    var ab := a + b;
    assert ab[0] == a[0] && ab[1..] == a[1..] + b;
    var sep := if |a| > 1 && (|a| - 1) % 3 == 0 then "." else "";
    var sep' := if |a| > 1 then sep else ".";
    assert InsertDots(ab) == [a[0]] + sep' + InsertDots(a[1..] + b) by {
      assert |ab| - 1 == (|a| - 1) + 3;
    }
    assert InsertDots(a) == [a[0]] + sep + InsertDots(a[1..]);
    if |a| > 1 {
      InsertDotsAppendGroup(a[1..], b);
    } else {
      assert a[1..] + b == b;
      InsertDotsShort(b);
    }
  }

  lemma {:induction false} InsertDotsIsGrouped(ds: string)
    ensures InsertDots(ds) == Grouped(ds)
  {
    if |ds| <= 3 {
      InsertDotsShort(ds);
    } else {
      var a, b := ds[..|ds| - 3], ds[|ds| - 3..];
      assert ds == a + b;
      InsertDotsAppendGroup(a, b);
      InsertDotsIsGrouped(a);
    }
  }

  /** Grouping only adds separators: taking the digits back out gives the digit string itself. */
  predicate DigitsAndDots(s: string) {
    forall i :: 0 <= i < |s| ==> IsDigit(s[i]) || s[i] == '.'
  }

  /** Grouping only adds separators: the result holds digits and dots only. */
  lemma {:induction false} GroupedChars(ds: string)
    requires AllDigits(ds)
    ensures DigitsAndDots(Grouped(ds))
  {
    if |ds| > 3 {
      GroupedChars(ds[..|ds| - 3]);
    }
  }

  /** Taking the digits back out of a grouped digit string gives the digit string itself. */
  lemma {:induction false} GroupedStrip(ds: string)
    requires AllDigits(ds)
    ensures StripNonDigits(Grouped(ds)) == ds
  {
    if |ds| > 3 {
      var a, b := ds[..|ds| - 3], ds[|ds| - 3..];
      assert ds == a + b;
      GroupedStrip(a);
      StripNonDigitsAppend(Grouped(a) + ".", b);
      StripNonDigitsAppend(Grouped(a), ".");
    }
  }

  lemma {:induction false} GroupedKeep(ds: string)
    requires AllDigits(ds)
    ensures KeepDigitsAndCommas(Grouped(ds)) == ds
  {
    if |ds| <= 3 {
      KeepDigitsAndCommasOfDigits(ds);
    } else {
      var a, b := ds[..|ds| - 3], ds[|ds| - 3..];
      assert ds == a + b;
      GroupedKeep(a);
      KeepDigitsAndCommasAppend(Grouped(a) + ".", b);
      KeepDigitsAndCommasAppend(Grouped(a), ".");
      KeepDigitsAndCommasOfDigits(b);
    }
  }

  /** Grouping does not change the first character. */
  lemma {:induction false} GroupedHead(ds: string)
    requires |ds| >= 1
    ensures |Grouped(ds)| >= 1 && Grouped(ds)[0] == ds[0]
  {
    if |ds| > 3 {
      GroupedHead(ds[..|ds| - 3]);
    }
  }

  // ---------------------------------------------------------------------
  // formatCurrencyInput
  // ---------------------------------------------------------------------

  /**
   * formatCurrencyInput(val): strip the non-digits, divide the digit value by
   * 100, print with two decimals, turn the decimal point into a comma, add
   * the thousands dots and the "R$ " prefix. Defined where the double
   * arithmetic is exact.
   */
  function FormatCurrencyInput(val: string): string
    requires Cents(val) < MaxExactCents
  {
    "R$ " + ThousandsRegex(ReplaceFirst(ToFixed2(Cents(val)), '.', ','))
  }

  /** The display text of n cents: "R$ ", grouped integer part, ',', two digits. */
  function Display(n: nat): string {
    "R$ " + Grouped(NatToString(n / 100)) + "," + CentsDigits(n)
  }

  /** The formatter prints the cents its input's digits denote, in the display layout. */
  lemma FormatIsDisplay(val: string)
    requires Cents(val) < MaxExactCents
    ensures FormatCurrencyInput(val) == Display(Cents(val))
  {
    var n := Cents(val);
    var ip, f := NatToString(n / 100), CentsDigits(n);
    var tail := [','] + f;
    ReplaceFirstAfterDigits(ip, '.', ',', f);
    assert ReplaceFirst(ToFixed2(n), '.', ',') == ip + tail;
    ThousandsRegexOnDigits(ip, tail);
    CentsUngrouped(f);
    InsertDotsIsGrouped(ip);
  }

  /** The regex leaves ",dd" alone: two digits are too few for a separator. */
  lemma CentsUngrouped(f: string)
    requires |f| == 2 && AllDigits(f)
    ensures ThousandsRegex([','] + f) == [','] + f
  {
    assert ([','] + f)[1..] == f;
    assert DigitRun(f[1..][1..]) == 0;
    assert ThousandsRegex(f[1..]) == [f[1]] + ThousandsRegex(f[1..][1..]);
    assert DigitRun(f[1..]) == 1;
  }

  /** Every output begins with "R$ ". */
  lemma FormatHasPrefix(val: string)
    requires Cents(val) < MaxExactCents
    ensures |FormatCurrencyInput(val)| >= 7
    ensures FormatCurrencyInput(val)[..3] == "R$ "
  {
    FormatIsDisplay(val);
  }

  /** The output depends only on the digits of the input. */
  lemma FormatDependsOnlyOnDigits(val: string, other: string)
    requires StripNonDigits(val) == StripNonDigits(other)
    requires Cents(val) < MaxExactCents
    ensures Cents(other) < MaxExactCents
    ensures FormatCurrencyInput(val) == FormatCurrencyInput(other)
  {
  }

  /**
   * A display text has exactly one comma, third from the end, followed by
   * two digits; between "R$ " and the comma stands the grouped integer part,
   * which starts with '0' only when it is the lone "0".
   */
  lemma DisplayLayout(n: nat)
    ensures var r := Display(n);
      && |r| >= 7
      && r[|r| - 3] == ','
      && IsDigit(r[|r| - 2]) && IsDigit(r[|r| - 1])
      && (forall i :: 0 <= i < |r| && i != |r| - 3 ==> r[i] != ',')
      && r[3..|r| - 3] == Grouped(NatToString(n / 100))
      && (r[3] == '0' ==> r[3..|r| - 3] == "0")
  {
    var ip, f := NatToString(n / 100), CentsDigits(n);
    var g := Grouped(ip);
    GroupedChars(ip);
    GroupedHead(ip);
    var r := Display(n);
    assert r == "R$ " + g + "," + f;
    assert r[3..|r| - 3] == g;
    forall i | 0 <= i < |r| && i != |r| - 3
      ensures r[i] != ','
    {
      if 3 <= i < 3 + |g| {
        assert r[i] == g[i - 3];
      }
    }
  }

  /**
   * The formatter's output has exactly one comma, third from the end,
   * followed by two digits; the integer part is the typed value without
   * leading zeros (a lone "0" below one real), grouped by threes.
   */
  lemma FormatLayout(val: string)
    requires Cents(val) < MaxExactCents
    ensures var r := FormatCurrencyInput(val);
      && |r| >= 7
      && r[|r| - 3] == ','
      && IsDigit(r[|r| - 2]) && IsDigit(r[|r| - 1])
      && (forall i :: 0 <= i < |r| && i != |r| - 3 ==> r[i] != ',')
      && r[3..|r| - 3] == Grouped(NatToString(Cents(val) / 100))
      && (r[3] == '0' ==> r[3..|r| - 3] == "0")
  {
    FormatIsDisplay(val);
    DisplayLayout(Cents(val));
  }

  /** Input with no digits, the empty string included, shows zero. */
  lemma FormatNoDigits(val: string)
    requires StripNonDigits(val) == []
    ensures Cents(val) == 0
    ensures FormatCurrencyInput(val) == "R$ 0,00"
  {
    FormatIsDisplay(val);
  }

  lemma {:induction false} StripDisplay(ip: string, f: string)
    requires AllDigits(ip) && AllDigits(f)
    ensures StripNonDigits("R$ " + Grouped(ip) + "," + f) == ip + f
  {
    var g := Grouped(ip);
    GroupedStrip(ip);
    var x := "R$ " + g;
    var y := x + ",";
    StripNonDigitsAppend("R$ ", g);
    assert StripNonDigits(x) == ip by {
      assert StripNonDigits("R$ ") == [];
    }
    StripNonDigitsAppend(x, ",");
    assert StripNonDigits(y) == ip by {
      assert StripNonDigits(",") == [];
    }
    StripNonDigitsAppend(y, f);
  }

  lemma {:induction false} KeepDisplay(ip: string, f: string)
    requires AllDigits(ip) && AllDigits(f)
    ensures KeepDigitsAndCommas("R$ " + Grouped(ip) + "," + f) == ip + "," + f
  {
    var g := Grouped(ip);
    GroupedKeep(ip);
    KeepDigitsAndCommasAppend("R$ " + g + ",", f);
    KeepDigitsAndCommasAppend("R$ " + g, ",");
    KeepDigitsAndCommasAppend("R$ ", g);
    KeepDigitsAndCommasOfDigits(f);
    assert KeepDigitsAndCommas("R$ ") == [];
    assert KeepDigitsAndCommas(",") == ",";
  }

  /** The digits of a display text are the integer digits followed by the two cent digits. */
  lemma DisplayDigits(n: nat)
    ensures StripNonDigits(Display(n)) == NatToString(n / 100) + CentsDigits(n)
    ensures KeepDigitsAndCommas(Display(n)) == NatToString(n / 100) + "," + CentsDigits(n)
    ensures Cents(Display(n)) == n
  {
    var ip, f := NatToString(n / 100), CentsDigits(n);
    StripDisplay(ip, f);
    KeepDisplay(ip, f);
    DigitValueAppend(ip, f);
    assert Pow10(2) == 100;
  }

  /** Formatting is idempotent: reformatting a formatted text changes nothing. */
  lemma FormatIdempotent(val: string)
    requires Cents(val) < MaxExactCents
    ensures Cents(FormatCurrencyInput(val)) == Cents(val)
    ensures FormatCurrencyInput(FormatCurrencyInput(val)) == FormatCurrencyInput(val)
  {
    FormatIsDisplay(val);
    DisplayDigits(Cents(val));
    FormatIsDisplay(FormatCurrencyInput(val));
  }

  // ---------------------------------------------------------------------
  // parseCurrency
  // ---------------------------------------------------------------------

  /**
   * `parseFloat(t)` on a text made of digits, '.' and ',': the longest
   * prefix of the form digits [ '.' digits ] (at least one digit in all)
   * is read as a decimal number; None stands for NaN.
   */
  function ParseFloat(t: string): Option<real> {
    var k := DigitRun(t);
    if k < |t| && t[k] == '.' then ParseFraction(t[..k], t[k + 1..])
    else if k == 0 then None
    else Some(DigitValue(t[..k]) as real)
  }

  /** The rest of `parseFloat` once the integer digits ip and the decimal point are read. */
  function ParseFraction(ip: string, after: string): Option<real>
    requires AllDigits(ip)
  {
    var j := DigitRun(after);
    if |ip| == 0 && j == 0 then None else Some(DecimalValue(ip, after[..j]))
  }

  /** The exact value of the decimal numeral "ip.fp". */
  function DecimalValue(ip: string, fp: string): real
    requires AllDigits(ip) && AllDigits(fp)
  {
    DigitValue(ip) as real + DigitValue(fp) as real / Pow10(|fp|) as real
  }

  /**
   * parseCurrency(val): keep the digits and commas, turn the first comma
   * into a decimal point, `parseFloat`, and fall back to 0 for NaN
   * (`|| 0`).
   */
  function ParseCurrency(val: string): (r: real)
    ensures r >= 0.0
  {
    match ParseFloat(ReplaceFirst(KeepDigitsAndCommas(val), ',', '.'))
    case None => 0.0
    case Some(x) => x
  }

  lemma {:induction false} ReplaceFirstOfDigits(ds: string, c: char, d: char)
    requires AllDigits(ds) && !IsDigit(c)
    ensures ReplaceFirst(ds, c, d) == ds
  {
    if ds != [] {
      ReplaceFirstOfDigits(ds[1..], c, d);
    }
  }

  /** Without a comma, the price is the value of the input's digits (0 when there are none). */
  lemma ParseWithoutComma(val: string)
    requires forall i :: 0 <= i < |val| ==> val[i] != ','
    ensures ParseCurrency(val) == DigitValue(StripNonDigits(val)) as real
  {
    KeepWithoutCommas(val);
    var ds := StripNonDigits(val);
    ReplaceFirstOfDigits(ds, ',', '.');
    DigitRunOfDigits(ds, []);
    assert ds + [] == ds;
    assert ds[..|ds|] == ds;
  }

  /** Input with no digits, the empty string included, parses to 0. */
  lemma {:induction false} ParseNoDigits(val: string)
    requires StripNonDigits(val) == []
    ensures ParseCurrency(val) == 0.0
  {
    var t := KeepDigitsAndCommas(val);
    NoDigitsKeepsCommas(val);
    var u := ReplaceFirst(t, ',', '.');
    assert forall i :: 0 <= i < |u| ==> !IsDigit(u[i]) by {
      ReplaceFirstKeepsNonDigits(t, ',', '.');
    }
    assert DigitRun(u) == 0;
    if 0 < |u| && u[0] == '.' {
      assert DigitRun(u[1..]) == 0;
    }
  }

  lemma {:induction false} NoDigitsKeepsCommas(val: string)
    requires StripNonDigits(val) == []
    ensures forall i :: 0 <= i < |KeepDigitsAndCommas(val)| ==> KeepDigitsAndCommas(val)[i] == ','
  {
    if val != [] {
      NoDigitsKeepsCommas(val[1..]);
    }
  }

  lemma {:induction false} ReplaceFirstKeepsNonDigits(t: string, c: char, d: char)
    requires !IsDigit(d)
    requires forall i :: 0 <= i < |t| ==> !IsDigit(t[i])
    ensures forall i :: 0 <= i < |ReplaceFirst(t, c, d)| ==> !IsDigit(ReplaceFirst(t, c, d)[i])
  {
    if t != [] && t[0] != c {
      ReplaceFirstKeepsNonDigits(t[1..], c, d);
    }
  }

  lemma {:induction false} KeepDecimalComma(a: string, b: string, rest: string)
    requires AllDigits(a) && AllDigits(b)
    ensures KeepDigitsAndCommas(a + "," + b + rest) == a + "," + b + KeepDigitsAndCommas(rest)
  {
    KeepDigitsAndCommasAppend(a + "," + b, rest);
    KeepDigitsAndCommasAppend(a + ",", b);
    KeepDigitsAndCommasAppend(a, ",");
    KeepDigitsAndCommasOfDigits(a);
    KeepDigitsAndCommasOfDigits(b);
    assert KeepDigitsAndCommas(",") == ",";
  }

  lemma ParseFloatDecimal(a: string, b: string, rest: string)
    requires AllDigits(a) && AllDigits(b) && |a| + |b| > 0
    requires rest == [] || !IsDigit(rest[0])
    ensures ParseFloat(a + "." + b + rest) == Some(DecimalValue(a, b))
  {
    var t := a + "." + b + rest;
    assert t == a + (['.'] + (b + rest));
    DigitRunOfDigits(a, ['.'] + (b + rest));
    var k := DigitRun(t);
    assert k == |a| && k < |t| && t[k] == '.';
    assert t[..k] == a;
    assert t[k + 1..] == b + rest;
    DigitRunOfDigits(b, rest);
    assert DigitRun(b + rest) == |b|;
    assert (b + rest)[..|b|] == b;
    assert ParseFraction(a, b + rest) == Some(DecimalValue(a, b));
  }

  /** What parseCurrency returns once its filter has left "a,b" for digit strings a and b. */
  lemma ParseKept(s: string, a: string, b: string)
    requires AllDigits(a) && AllDigits(b) && |a| + |b| > 0
    requires KeepDigitsAndCommas(s) == a + "," + b
    ensures ParseCurrency(s) == DecimalValue(a, b)
  {
    assert a + "," + b == a + [','] + b;
    ReplaceFirstAfterDigits(a, ',', '.', b);
    assert b == b + [];
    ParseFloatDecimal(a, b, []);
    assert a + "." + b + [] == a + ['.'] + b;
  }

  /** Reading "a,b" for digit strings a and b: the first comma is the decimal point. */
  lemma ParseDecimalComma(a: string, b: string, rest: string)
    requires AllDigits(a) && AllDigits(b) && |a| + |b| > 0
    requires rest == [] || rest[0] == ','
    ensures ParseCurrency(a + "," + b + rest) == DecimalValue(a, b)
  {
    var rest' := KeepDigitsAndCommas(rest);
    KeepDecimalComma(a, b, rest);
    assert rest' == [] || rest'[0] == ',' by {
      if rest != [] {
        assert KeepDigitsAndCommas(rest) == [','] + KeepDigitsAndCommas(rest[1..]);
      }
    }
    assert a + "," + b + rest' == a + [','] + (b + rest');
    ReplaceFirstAfterDigits(a, ',', '.', b + rest');
    assert a + ['.'] + (b + rest') == a + "." + b + rest';
    ParseFloatDecimal(a, b, rest');
  }

  /** A second comma ends the number: "a,b,anything" reads as "a,b". */
  lemma OnlyFirstCommaCounts(a: string, b: string, rest: string)
    requires AllDigits(a) && AllDigits(b) && |a| + |b| > 0
    ensures ParseCurrency(a + "," + b + "," + rest) == ParseCurrency(a + "," + b)
  {
    ParseDecimalComma(a, b, "," + rest);
    assert a + "," + b + "," + rest == a + "," + b + ("," + rest);
    ParseDecimalComma(a, b, []);
    assert a + "," + b + [] == a + "," + b;
  }

  lemma CentsAsReal(n: nat)
    ensures (n / 100) as real + (n % 100) as real / 100.0 == n as real / 100.0
  {
    var q, r := n / 100, n % 100;
    assert n == 100 * q + r;
    assert n as real == 100.0 * q as real + r as real;
  }

  /** Parsing a display text gives back its cents divided by 100. */
  lemma ParseDisplay(n: nat)
    ensures ParseCurrency(Display(n)) == n as real / 100.0
  {
    var ip, f := NatToString(n / 100), CentsDigits(n);
    DisplayDigits(n);
    ParseKept(Display(n), ip, f);
    assert Pow10(2) == 100;
    CentsAsReal(n);
  }

  /** parseCurrency sees only the digits and commas of its input. */
  lemma ParseSeesOnlyDigitsAndCommas(s: string)
    ensures ParseCurrency(s) == ParseCurrency(KeepDigitsAndCommas(s))
  {
    KeepTwice(s);
  }

  lemma {:induction false} KeepTwice(s: string)
    ensures KeepDigitsAndCommas(KeepDigitsAndCommas(s)) == KeepDigitsAndCommas(s)
  {
    if s != [] {
      KeepTwice(s[1..]);
      KeepDigitsAndCommasAppend(if IsDigitOrComma(s[0]) then [s[0]] else [], KeepDigitsAndCommas(s[1..]));
    }
  }

  /** Round trip: parsing what the formatter printed gives the typed digits' value divided by 100. */
  lemma ParseFormatRoundTrip(val: string)
    requires Cents(val) < MaxExactCents
    ensures ParseCurrency(FormatCurrencyInput(val)) == Cents(val) as real / 100.0
  {
    FormatIsDisplay(val);
    ParseDisplay(Cents(val));
  }

  // ---------------------------------------------------------------------
  // Pre-filled edit field: formatCurrencyInput(preco.toFixed(2))
  // ---------------------------------------------------------------------

  /** The cents `p.toFixed(2)` prints: the nearest, the larger one on a tie. */
  function RoundCents(p: real): (n: nat)
    requires p >= 0.0
    ensures n as real - 0.5 <= 100.0 * p < n as real + 0.5
  {
    (100.0 * p + 0.5).Floor
  }

  /** `toFixed(2)` text keeps every digit of the cents it prints. */
  lemma CentsOfToFixed2(n: nat)
    ensures Cents(ToFixed2(n)) == n
  {
    var ip, f := NatToString(n / 100), CentsDigits(n);
    assert ToFixed2(n) == ip + "." + f;
    StripNonDigitsAppend(ip + ".", f);
    StripNonDigitsAppend(ip, ".");
    assert StripNonDigits(".") == [];
    assert StripNonDigits(ToFixed2(n)) == ip + f;
    DigitValueAppend(ip, f);
    assert Pow10(2) == 100;
    assert DigitValue(ip + f) == (n / 100) * 100 + n % 100;
  }

  /**
   * A price shown in the edit field as `formatCurrencyInput(p.toFixed(2))`
   * and saved unchanged comes back as p rounded to cents, within half a cent.
   */
  lemma PrefilledPriceRoundTrip(p: real)
    requires p >= 0.0 && RoundCents(p) < MaxExactCents
    ensures Cents(ToFixed2(RoundCents(p))) == RoundCents(p)
    ensures ParseCurrency(FormatCurrencyInput(ToFixed2(RoundCents(p)))) == RoundCents(p) as real / 100.0
    ensures -0.005 < ParseCurrency(FormatCurrencyInput(ToFixed2(RoundCents(p)))) - p <= 0.005
  {
    var n := RoundCents(p);
    CentsOfToFixed2(n);
    ParseFormatRoundTrip(ToFixed2(n));
    assert n as real - 0.5 <= 100.0 * p < n as real + 0.5;
    assert n as real / 100.0 - p == (n as real - 100.0 * p) / 100.0;
  }
}
