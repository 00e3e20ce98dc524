/**
 * The text `saveUser` stores: `JSON.stringify(user)` for a user record
 * `{id, name, isAdmin}` (section 25.5.2 of ECMA-262), and the reading of
 * that text back by `JSON.parse`. Strings are quoted as QuoteJSONString
 * does (section 25.5.2.3): `"` and `\` are escaped, the five control
 * characters with a short escape use it, every other character below
 * U+0020 becomes `\u00` and two lower-case hex digits, and everything else
 * is copied. The reader accepts the escapes JSON allows in a string.
 */
module UserJson {
  import opened Wrappers
  import opened JsText

  /** The stored user record: `{ id, name, isAdmin }`, in that key order. */
  datatype User = User(id: string, name: string, isAdmin: bool)

  const Backspace: char := '\U{8}'
  const FormFeed: char := '\U{C}'

  function HexDigitChar(d: nat): (c: char)
    requires d < 16
    ensures IsHexDigit(c) && HexCharValue(c) == d
  {
    "0123456789abcdef"[d]
  }

  /** One character as QuoteJSONString writes it. */
  function EscapeChar(c: char): (r: string)
    ensures |r| >= 1
    ensures r[0] == '\\' <==> c == '"' || c == '\\' || (c as int) < 0x20
  {
    if c == '"' then ['\\', '"']
    else if c == '\\' then ['\\', '\\']
    else if c == Backspace then ['\\', 'b']
    else if c == '\t' then ['\\', 't']
    else if c == '\n' then ['\\', 'n']
    else if c == FormFeed then ['\\', 'f']
    else if c == '\r' then ['\\', 'r']
    else if (c as int) < 0x20 then ['\\', 'u', '0', '0', HexDigitChar(c as int / 16), HexDigitChar(c as int % 16)]
    else [c]
  }

  /** The characters of s as they appear between the quotes. */
  function EscapeAll(s: string): (r: string)
    ensures |r| >= |s|
  {
    if s == [] then [] else EscapeChar(s[0]) + EscapeAll(s[1..])
  }

  /** `JSON.stringify` of a string. */
  function Quote(s: string): string {
    "\"" + EscapeAll(s) + "\""
  }

  /** `JSON.stringify(user)`. */
  function EncodeUser(u: User): string {
    "{\"id\":" + Quote(u.id) + ",\"name\":" + Quote(u.name) + ",\"isAdmin\":" + (if u.isAdmin then "true" else "false") + "}"
  }

  // ---------------------------------------------------------------------
  // Reading the text back
  // ---------------------------------------------------------------------

  /** The character an escape denotes, with the number of characters after the backslash it uses; None when t starts no valid escape. */
  function EscapeValue(t: string): (r: Option<(char, nat)>)
    ensures r.Some? ==> 1 <= r.value.1 <= |t|
  {
    if t == [] then None
    else if t[0] == '"' || t[0] == '\\' || t[0] == '/' then Some((t[0], 1))
    else if t[0] == 'b' then Some((Backspace, 1))
    else if t[0] == 't' then Some(('\t', 1))
    else if t[0] == 'n' then Some(('\n', 1))
    else if t[0] == 'f' then Some((FormFeed, 1))
    else if t[0] == 'r' then Some(('\r', 1))
    else if t[0] == 'u' && |t| >= 5 && (forall k :: 1 <= k < 5 ==> IsHexDigit(t[k])) then
      var v := HexValue(t[1..5]);
      HexValueBound(t[1..5]);
      if 0xD800 <= v < 0xE000 then None else Some((v as char, 5))
    else None
  }

  /**
   * The string body that starts s (after its opening quote): its value and
   * the text after the closing quote, or None when the body is not closed
   * or holds a raw control character or a bad escape.
   */
  function Unescape(s: string): (r: Option<(string, string)>)
    ensures r.Some? ==> |r.value.1| < |s|
    decreases |s|
  {
    if s == [] then None
    else if s[0] == '"' then Some(([], s[1..]))
    else if s[0] == '\\' then
      match EscapeValue(s[1..])
      case None => None
      case Some((c, n)) =>
        match Unescape(s[1 + n..])
        case None => None
        case Some((v, rest)) => Some(([c] + v, rest))
    else if (s[0] as int) < 0x20 then None
    else
      match Unescape(s[1..])
      case None => None
      case Some((v, rest)) => Some(([s[0]] + v, rest))
  }

  /** The text after prefix p, when s starts with p. */
  function StripPrefix(p: string, s: string): (r: Option<string>)
    ensures r.Some? <==> |p| <= |s| && s[..|p|] == p
    ensures r.Some? ==> s == p + r.value
  {
    if |p| <= |s| && s[..|p|] == p then Some(s[|p|..]) else None
  }

  /** A JSON string at the start of t: its value and the text after it. */
  function ReadString(t: string): (r: Option<(string, string)>)
    ensures r.Some? ==> |r.value.1| < |t|
  {
    if t != [] && t[0] == '"' then Unescape(t[1..]) else None
  }

  /** The literal text of the record around its three values. */
  const IdKey: string := "{\"id\":"
  const NameKey: string := ",\"name\":"
  const AdminKey: string := ",\"isAdmin\":"

  /** `JSON.parse` of text laid out as `EncodeUser` writes it; None for any other text. */
  function DecodeUser(t: string): Option<User> {
    match StripPrefix(IdKey, t)
    case None => None
    case Some(t1) =>
      match ReadString(t1)
      case None => None
      case Some((id, t2)) =>
        match StripPrefix(NameKey, t2)
        case None => None
        case Some(t3) =>
          match ReadString(t3)
          case None => None
          case Some((name, t4)) =>
            match StripPrefix(AdminKey, t4)
            case None => None
            case Some(t5) =>
              if t5 == "true}" then Some(User(id, name, true))
              else if t5 == "false}" then Some(User(id, name, false))
              else None
  }

  // ---------------------------------------------------------------------
  // Round trip
  // ---------------------------------------------------------------------

  /** The stored text reads back as the user that was stored. */
  lemma DecodeEncodeUser(u: User)
    ensures DecodeUser(EncodeUser(u)) == Some(u)
  {
    var t5 := if u.isAdmin then "true}" else "false}";
    var t4 := AdminKey + t5;
    var t3 := Quote(u.name) + t4;
    var t2 := NameKey + t3;
    var t1 := Quote(u.id) + t2;
    StripPrefixOf(IdKey, t1);
    ReadQuoted(u.id, t2);
    StripPrefixOf(NameKey, t3);
    ReadQuoted(u.name, t4);
    StripPrefixOf(AdminKey, t5);
    DecodeSteps(IdKey + t1, t1, t2, t3, t4, t5, u);
    EncodeShape(u);
  }

  /** The stored text as the reader splits it: key, value, key, value, key, flag. */
  lemma EncodeShape(u: User)
    ensures EncodeUser(u) == IdKey + (Quote(u.id) + (NameKey + (Quote(u.name) + (AdminKey + if u.isAdmin then "true}" else "false}"))))
  {
  }

  /** DecodeUser reads the record piece by piece. */
  lemma DecodeSteps(t: string, t1: string, t2: string, t3: string, t4: string, t5: string, u: User)
    requires StripPrefix(IdKey, t) == Some(t1) && ReadString(t1) == Some((u.id, t2))
    requires StripPrefix(NameKey, t2) == Some(t3) && ReadString(t3) == Some((u.name, t4))
    requires StripPrefix(AdminKey, t4) == Some(t5) && t5 == if u.isAdmin then "true}" else "false}"
    ensures DecodeUser(t) == Some(u)
  {
  }

  /** A quoted string reads back as the string, leaving what follows it. */
  lemma ReadQuoted(s: string, rest: string)
    ensures ReadString(Quote(s) + rest) == Some((s, rest))
  {
    var t := Quote(s) + rest;
    assert t[1..] == EscapeAll(s) + "\"" + rest;
    UnescapeAll(s, rest);
  }

  /** Different users are stored as different texts. */
  lemma EncodeUserInjective(u: User, v: User)
    requires EncodeUser(u) == EncodeUser(v)
    ensures u == v
  {
    DecodeEncodeUser(u);
    DecodeEncodeUser(v);
  }

  /** Four hex digits stay below 0x10000. */
  lemma HexValueBound(ds: string)
    requires |ds| == 4 && forall k :: 0 <= k < 4 ==> IsHexDigit(ds[k])
    ensures HexValue(ds) < 0x10000
  {
    assert ds[..3][..2][..1][..0] == [];
    assert ds[..3][..2][..1] == ds[..1];
    assert ds[..3][..2] == ds[..2];
    assert HexValue(ds[..1]) < 16;
    assert HexValue(ds[..2]) < 256;
    assert HexValue(ds[..3]) < 4096;
  }

  lemma StripPrefixOf(p: string, r: string)
    ensures StripPrefix(p, p + r) == Some(r)
  {
    assert (p + r)[..|p|] == p;
  }

  /** Reading an escaped string body up to its closing quote gives back the string and the text after the quote. */
  lemma {:induction false} UnescapeAll(s: string, rest: string)
    ensures Unescape(EscapeAll(s) + "\"" + rest) == Some((s, rest))
  {
    if s == [] {
      assert EscapeAll(s) + "\"" + rest == ['"'] + rest;
    } else {
      var tail := EscapeAll(s[1..]) + "\"" + rest;
      assert EscapeAll(s) + "\"" + rest == EscapeChar(s[0]) + tail;
      UnescapeAll(s[1..], rest);
      UnescapeChar(s[0], tail);
      assert [s[0]] + s[1..] == s;
    }
  }

  /** Reading one escaped character prepends it to what follows. */
  lemma UnescapeChar(c: char, tail: string)
    requires Unescape(tail).Some?
    ensures Unescape(EscapeChar(c) + tail) == Some(([c] + Unescape(tail).value.0, Unescape(tail).value.1))
  {
    var e := EscapeChar(c);
    if HasShortEscape(c) {
      ShortEscape(c, tail);
      UnescapeEscape(e, c, 1, tail);
    } else if (c as int) < 0x20 {
      UnescapeHex(c, tail);
      UnescapeEscape(e, c, 5, tail);
    } else {
      assert e == [c];
      assert (e + tail)[1..] == tail;
    }
  }

  /** The characters QuoteJSONString writes as a backslash and one letter or symbol. */
  predicate HasShortEscape(c: char) {
    c == '"' || c == '\\' || c == Backspace || c == '\t' || c == '\n' || c == FormFeed || c == '\r'
  }

  lemma ShortEscape(c: char, tail: string)
    requires HasShortEscape(c)
    ensures |EscapeChar(c)| == 2 && EscapeChar(c)[0] == '\\'
    ensures EscapeValue(EscapeChar(c)[1..] + tail) == Some((c, 1))
  {
    var e := EscapeChar(c);
    assert (e[1..] + tail)[0] == e[1];
  }

  /** An escape sequence e denoting c, followed by tail. */
  lemma UnescapeEscape(e: string, c: char, n: nat, tail: string)
    requires |e| == 1 + n && e[0] == '\\' && EscapeValue(e[1..] + tail) == Some((c, n))
    requires Unescape(tail).Some?
    ensures Unescape(e + tail) == Some(([c] + Unescape(tail).value.0, Unescape(tail).value.1))
  {
    var s := e + tail;
    assert s[1..] == e[1..] + tail;
    assert s[1 + n..] == tail;
  }

  /** The `\u00XX` escape of a control character. */
  lemma UnescapeHex(c: char, tail: string)
    requires (c as int) < 0x20 && !HasShortEscape(c)
    ensures |EscapeChar(c)| == 6 && EscapeChar(c)[0] == '\\'
    ensures EscapeValue(EscapeChar(c)[1..] + tail) == Some((c, 5))
  {
    var n := c as int;
    var e := EscapeChar(c);
    var t := e[1..] + tail;
    var h := t[1..5];
    assert h == ['0', '0', HexDigitChar(n / 16), HexDigitChar(n % 16)];
    assert h[..3] == ['0', '0', HexDigitChar(n / 16)];
    assert h[..3][..2] == ['0', '0'];
    assert h[..3][..2][..1] == ['0'];
    assert ['0'][..0] == [];
    assert HexValue(['0']) == 0;
    assert HexValue(['0', '0']) == 0;
    assert HexValue(h[..3]) == n / 16;
    assert HexValue(h) == 16 * (n / 16) + n % 16;
  }
}
