/**
 * JSON documents as the client sees them: the values `json.loads` returns
 * (dicts, lists, strings, integers, booleans, `None`), Python's `dict.get`
 * and truthiness on them, `json.dumps` with its default settings, and a
 * parser for the flat objects (RFC 8259 section 4) that the client writes.
 */
module Json {
  import opened Options
  import opened Text
  import Utf8

  datatype JsonValue =
    | JNull
    | JBool(b: bool)
    | JInt(i: int)
    | JString(s: string)
    | JArray(items: seq<JsonValue>)
    | JObject(members: seq<(string, JsonValue)>)

  type Member = (string, JsonValue)

  /**
   * The value a Python dict built by `json.loads` holds for `key`: for a key
   * that occurs several times the last occurrence wins.
   */
  function Lookup(members: seq<Member>, key: string): (r: Option<JsonValue>)
    ensures r.None? <==> forall i :: 0 <= i < |members| ==> members[i].0 != key
    ensures r.Some? ==> exists i :: 0 <= i < |members| && members[i] == (key, r.value)
                                    && forall j :: i < j < |members| ==> members[j].0 != key
  {
    if members == [] then None
    else if members[|members| - 1].0 == key then Some(members[|members| - 1].1)
    else Lookup(members[..|members| - 1], key)
  }

  /** `d.get(key, default)`: the default is used only when the key is absent, not when it maps to null. */
  function Get(members: seq<Member>, key: string, default: JsonValue): JsonValue {
    match Lookup(members, key)
    case Some(v) => v
    case None => default
  }

  /** Python's `bool(v)` for a decoded value. */
  predicate Truthy(v: JsonValue) {
    match v
    case JNull => false
    case JBool(b) => b
    case JInt(i) => i != 0
    case JString(s) => s != []
    case JArray(items) => items != []
    case JObject(members) => members != []
  }

  /** Whether Python can use the value as a dict key: lists and dicts are unhashable. */
  predicate Hashable(v: JsonValue) {
    !v.JArray? && !v.JObject?
  }

  // ---------------------------------------------------------------------
  // json.dumps(v) with the default settings: ensure_ascii=True and the
  // separators ", " and ": ".
  // ---------------------------------------------------------------------

  /** Four lower-case hexadecimal digits, as Python's `'{0:04x}'.format(v)`. */
  function Hex4(v: nat): (r: string)
    requires v < 0x10000
    ensures |r| == 4
  {
    [HexDigit(v / 4096), HexDigit(v / 256 % 16), HexDigit(v / 16 % 16), HexDigit(v % 16)]
  }

  /**
   * How `json.dumps` writes one character of a string: printable ASCII as
   * itself, quote and backslash and the five control characters with a short
   * escape, every other character as `\uXXXX`, as a surrogate pair above U+FFFF.
   */
  function EscapeChar(c: char): (r: string)
    ensures r != [] && r[0] != '"'
    ensures r[0] == '\\' || 0x20 <= c as int <= 0x7E
  {
    var n := c as int;
    if c == '"' then "\\\""
    else if c == '\\' then "\\\\"
    else if c == '\n' then "\\n"
    else if c == '\r' then "\\r"
    else if c == '\t' then "\\t"
    else if n == 0x08 then "\\b"
    else if n == 0x0C then "\\f"
    else if 0x20 <= n <= 0x7E then [c]
    else if n < 0x10000 then "\\u" + Hex4(n)
    else
      var m := n - 0x10000;
      "\\u" + Hex4(0xD800 + m / 1024) + "\\u" + Hex4(0xDC00 + m % 1024)
  }

  function Escape(s: string): string {
    if s == [] then [] else EscapeChar(s[0]) + Escape(s[1..])
  }

  function Quote(s: string): string {
    "\"" + Escape(s) + "\""
  }

  function Dumps(v: JsonValue): string
    decreases v, 1
  {
    match v
    case JNull => "null"
    case JBool(b) => if b then "true" else "false"
    case JInt(i) => IntText(i)
    case JString(s) => Quote(s)
    case JArray(items) => "[" + DumpItems(items) + "]"
    case JObject(members) => "{" + DumpMembers(members) + "}"
  }

  function DumpItems(items: seq<JsonValue>): string
    decreases items, 0
  {
    if items == [] then ""
    else if |items| == 1 then Dumps(items[0])
    else Dumps(items[0]) + ", " + DumpItems(items[1..])
  }

  function DumpMember(m: Member): string
    decreases m, 0
  {
    Quote(m.0) + ": " + Dumps(m.1)
  }

  function DumpMembers(members: seq<Member>): string
    decreases members, 0
  {
    if members == [] then ""
    else if |members| == 1 then DumpMember(members[0])
    else DumpMember(members[0]) + ", " + DumpMembers(members[1..])
  }

  // ---------------------------------------------------------------------
  // A parser for flat objects: members whose values are null, booleans,
  // integers or strings.
  // ---------------------------------------------------------------------

  predicate IsScalar(v: JsonValue) {
    !v.JArray? && !v.JObject?
  }

  predicate IsFlat(members: seq<Member>) {
    forall i :: 0 <= i < |members| ==> IsScalar(members[i].1)
  }

  /** Every integer member has at most 4300 digits, so Python's `json` module can read and write it. */
  predicate IntsWithinLimit(members: seq<Member>) {
    forall i :: 0 <= i < |members| && members[i].1.JInt? ==> WithinDigitLimit(members[i].1.i)
  }

  /** JSON's insignificant whitespace (RFC 8259 section 2). */
  predicate IsJsonSpace(c: char) {
    c == ' ' || c == '\t' || c == '\n' || c == '\r'
  }

  function SkipSpace(s: string): (r: string)
    ensures |r| <= |s|
  {
    if s != [] && IsJsonSpace(s[0]) then SkipSpace(s[1..]) else s
  }

  function ParseHex4(h: string): Option<nat>
    requires |h| == 4
  {
    match (HexValue(h[0]), HexValue(h[1]), HexValue(h[2]), HexValue(h[3]))
    case (Some(a), Some(b), Some(c), Some(d)) => Some(a * 4096 + b * 256 + c * 16 + d)
    case _ => None
  }

  /** The character a one-letter escape such as `\n` stands for. */
  function ShortEscape(c: char): Option<char> {
    if c == '"' || c == '\\' || c == '/' then Some(c)
    else if c == 'b' then Some('\U{8}')
    else if c == 'f' then Some('\U{C}')
    else if c == 'n' then Some('\n')
    else if c == 'r' then Some('\r')
    else if c == 't' then Some('\t')
    else None
  }

  /** The character an escape sequence stands for; `s` follows the backslash. */
  function ParseEscape(s: string): (r: Option<(char, string)>)
    ensures r.Some? ==> |r.value.1| < |s|
  {
    if s == [] then None
    else if s[0] == 'u' then ParseUnicodeEscape(s[1..])
    else
      match ShortEscape(s[0])
      case Some(c) => Some((c, s[1..]))
      case None => None
  }

  /** `XXXX` after `\u`; a high surrogate must be followed by a `\u` escape of a low one. */
  function ParseUnicodeEscape(s: string): (r: Option<(char, string)>)
    ensures r.Some? ==> |r.value.1| < |s|
  {
    if |s| < 4 then None
    else
      match ParseHex4(s[..4])
      case None => None
      case Some(hi) =>
        if 0xD800 <= hi < 0xDC00 then ParseLowSurrogate(hi, s[4..])
        else if 0xDC00 <= hi < 0xE000 then None
        else Some((hi as char, s[4..]))
  }

  function ParseLowSurrogate(hi: nat, s: string): (r: Option<(char, string)>)
    requires 0xD800 <= hi < 0xDC00
    ensures r.Some? ==> |r.value.1| < |s|
  {
    if |s| >= 6 && s[0] == '\\' && s[1] == 'u' then
      match ParseHex4(s[2..6])
      case Some(lo) =>
        if 0xDC00 <= lo < 0xE000 then
          Some(((0x10000 + (hi - 0xD800) * 1024 + (lo - 0xDC00)) as char, s[6..]))
        else None
      case None => None
    else None
  }

  function Prepend(c: char, r: Option<(string, string)>): Option<(string, string)> {
    match r
    case None => None
    case Some((body, rest)) => Some(([c] + body, rest))
  }

  /** A string's contents up to its closing quote, and what follows the quote; `s` follows the opening quote. */
  function ParseStringBody(s: string): (r: Option<(string, string)>)
    ensures r.Some? ==> |r.value.1| < |s|
    decreases |s|
  {
    if s == [] then None
    else if s[0] == '"' then Some(([], s[1..]))
    else if s[0] == '\\' then
      match ParseEscape(s[1..])
      case None => None
      case Some((c, t)) => Prepend(c, ParseStringBody(t))
    else if (s[0] as int) < 0x20 then None
    else Prepend(s[0], ParseStringBody(s[1..]))
  }

  /** The longest prefix of ASCII digits. */
  function DigitRun(s: string): (d: string)
    ensures |d| <= |s| && d == s[..|d|] && AllDigits(d)
    ensures |d| == |s| || !IsDigit(s[|d|])
  {
    if s != [] && IsDigit(s[0]) then [s[0]] + DigitRun(s[1..]) else []
  }

  /** A JSON integer: optional minus, no leading zeros; fractions and exponents are outside the model. */
  function ParseNumber(s: string): (r: Option<(int, string)>)
    ensures r.Some? ==> |r.value.1| < |s|
  {
    var neg := s != [] && s[0] == '-';
    var t := if neg then s[1..] else s;
    var d := DigitRun(t);
    var rest := t[|d|..];
    if d == [] || (d[0] == '0' && |d| > 1) then None
    else if rest != [] && (rest[0] == '.' || rest[0] == 'e' || rest[0] == 'E') then None
    else
      var v: int := DigitsValue(d);
      Some((if neg then -v else v, rest))
  }

  function ParseScalar(s: string): (r: Option<(JsonValue, string)>)
    ensures r.Some? ==> |r.value.1| < |s|
  {
    if StartsWith(s, "null") then Some((JNull, s[4..]))
    else if StartsWith(s, "true") then Some((JBool(true), s[4..]))
    else if StartsWith(s, "false") then Some((JBool(false), s[5..]))
    else if s != [] && s[0] == '"' then
      match ParseStringBody(s[1..])
      case None => None
      case Some((body, rest)) => Some((JString(body), rest))
    else
      match ParseNumber(s)
      case None => None
      case Some((i, rest)) => Some((JInt(i), rest))
  }

  /** `"key": value`, with optional whitespace around the colon. */
  function ParseMember(s: string): (r: Option<(Member, string)>)
    ensures r.Some? ==> |r.value.1| < |s|
  {
    var s1 := SkipSpace(s);
    if s1 == [] || s1[0] != '"' then None
    else
      match ParseStringBody(s1[1..])
      case None => None
      case Some((key, t)) =>
        var t1 := SkipSpace(t);
        if t1 == [] || t1[0] != ':' then None
        else
          match ParseScalar(SkipSpace(t1[1..]))
          case None => None
          case Some((v, rest)) => Some(((key, v), rest))
  }

  /** One or more members separated by commas, then the closing brace. */
  function ParseMembers(s: string): (r: Option<(seq<Member>, string)>)
    ensures r.Some? ==> |r.value.1| < |s|
    decreases |s|
  {
    match ParseMember(s)
    case None => None
    case Some((m, t)) =>
      var u := SkipSpace(t);
      if u != [] && u[0] == '}' then Some(([m], u[1..]))
      else if u != [] && u[0] == ',' then
        match ParseMembers(u[1..])
        case None => None
        case Some((ms, rest)) => Some(([m] + ms, rest))
      else None
  }

  /** A whole text holding one flat object. */
  function ParseObject(text: string): Option<JsonValue> {
    var s := SkipSpace(text);
    if s == [] || s[0] != '{' then None
    else
      var t := SkipSpace(s[1..]);
      if t != [] && t[0] == '}' then
        if SkipSpace(t[1..]) == [] then Some(JObject([])) else None
      else
        match ParseMembers(t)
        case None => None
        case Some((ms, rest)) => if SkipSpace(rest) == [] then Some(JObject(ms)) else None
  }

  // ---------------------------------------------------------------------
  // Properties
  // ---------------------------------------------------------------------

  lemma {:induction false} ParseHex4Hex4(v: nat)
    requires v < 0x10000
    ensures ParseHex4(Hex4(v)) == Some(v)
  {
    var a, b, c, d := v / 4096, v / 256 % 16, v / 16 % 16, v % 16;
    HexDigitValue(a);
    HexDigitValue(b);
    HexDigitValue(c);
    HexDigitValue(d);
    HexDigitsValue(v);
  }

  lemma {:induction false} HexDigitsValue(v: nat)
    requires v < 0x10000
    ensures (v / 4096) * 4096 + (v / 256 % 16) * 256 + (v / 16 % 16) * 16 + v % 16 == v
  {
    var r0, q1 := v % 16, v / 16;
    var c, q2 := q1 % 16, q1 / 16;
    var b, a := q2 % 16, q2 / 16;
    assert v == q2 * 256 + c * 16 + r0;
    assert v / 256 == q2;
    assert v == a * 4096 + b * 256 + c * 16 + r0;
    assert v / 4096 == a;
  }

  /** One escaped character reads back as that character, whatever follows. */
  lemma {:induction false} ParseEscapeChar(c: char, t: string)
    ensures ParseStringBody(EscapeChar(c) + t) == Prepend(c, ParseStringBody(t))
  {
    var n := c as int;
    if c == '"' || c == '\\' || c == '\n' || c == '\r' || c == '\t' || n == 0x08 || n == 0x0C {
      ParseShortEscape(c, t);
    } else if 0x20 <= n <= 0x7E {
      assert (EscapeChar(c) + t)[1..] == t;
    } else if n < 0x10000 {
      ParseBmpEscape(c, t);
    } else {
      ParseSurrogatePair(c, t);
    }
  }

  lemma {:induction false} ParseShortEscape(c: char, t: string)
    requires c == '"' || c == '\\' || c == '\n' || c == '\r' || c == '\t' || c as int == 0x08 || c as int == 0x0C
    ensures ParseStringBody(EscapeChar(c) + t) == Prepend(c, ParseStringBody(t))
  {
    var s := EscapeChar(c) + t;
    assert |EscapeChar(c)| == 2 && s[0] == '\\';
    assert s[1..][1..] == t;
    assert ShortEscape(s[1]) == Some(c);
  }

  lemma {:induction false} ParseBmpEscape(c: char, t: string)
    requires !(c == '"' || c == '\\' || c == '\n' || c == '\r' || c == '\t' || c as int == 0x08 || c as int == 0x0C)
    requires !(0x20 <= c as int <= 0x7E) && c as int < 0x10000
    ensures ParseStringBody(EscapeChar(c) + t) == Prepend(c, ParseStringBody(t))
  {
    var n := c as int;
    var h := Hex4(n);
    assert EscapeChar(c) == "\\u" + h;
    UnicodeShape(h, t);
    ParseHex4Hex4(n);
    assert ParseUnicodeEscape(h + t) == Some((c, t));
  }

  lemma {:induction false} ParseSurrogatePair(c: char, t: string)
    requires 0x10000 <= c as int
    ensures ParseStringBody(EscapeChar(c) + t) == Prepend(c, ParseStringBody(t))
  {
    var hi, lo := EscapeCharPair(c);
    var u := Hex4(hi) + ("\\u" + Hex4(lo) + t);
    PairRegroup(Hex4(hi), Hex4(lo), t);
    ParseHighThenLow(hi, lo, c, t);
    ParseBackslashU(EscapeChar(c) + t, u, c, t);
  }

  /** Above U+FFFF a character is escaped as the surrogate pair that encodes it. */
  lemma EscapeCharPair(c: char) returns (hi: nat, lo: nat)
    requires 0x10000 <= c as int
    ensures 0xD800 <= hi < 0xDC00 && 0xDC00 <= lo < 0xE000
    ensures 0x10000 + (hi - 0xD800) * 1024 + (lo - 0xDC00) == c as int
    ensures EscapeChar(c) == "\\u" + Hex4(hi) + "\\u" + Hex4(lo)
  {
    var m := c as int - 0x10000;
    Split1024(m);
    hi, lo := 0xD800 + m / 1024, 0xDC00 + m % 1024;
    EscapeCharAbove(c);
  }

  lemma EscapeCharAbove(c: char)
    requires 0x10000 <= c as int
    ensures var m := c as int - 0x10000;
            EscapeChar(c) == "\\u" + Hex4(0xD800 + m / 1024) + "\\u" + Hex4(0xDC00 + m % 1024)
  {
  }

  lemma Split1024(m: int)
    requires 0 <= m < 0x100000
    ensures 0 <= m / 1024 < 1024 && 0 <= m % 1024 < 1024 && m / 1024 * 1024 + m % 1024 == m
  {
  }

  lemma PairRegroup(a: string, b: string, t: string)
    ensures "\\u" + a + "\\u" + b + t == "\\u" + (a + ("\\u" + b + t))
  {
  }

  /** A `\u` escape followed by text: the escaped character, then the rest of the string. */
  lemma {:induction false} ParseBackslashU(s: string, u: string, c: char, t: string)
    requires s == "\\u" + u && ParseUnicodeEscape(u) == Some((c, t))
    ensures ParseStringBody(s) == Prepend(c, ParseStringBody(t))
  {
    assert s[0] == '\\' && s[1..][0] == 'u' && s[1..][1..] == u;
  }

  /** The digits of a high surrogate, then the escape of a low one, read back as the pair's character. */
  lemma {:induction false} ParseHighThenLow(hi: nat, lo: nat, c: char, t: string)
    requires 0xD800 <= hi < 0xDC00 && 0xDC00 <= lo < 0xE000
    requires 0x10000 + (hi - 0xD800) * 1024 + (lo - 0xDC00) == c as int
    ensures ParseUnicodeEscape(Hex4(hi) + ("\\u" + Hex4(lo) + t)) == Some((c, t))
  {
    var rest := "\\u" + Hex4(lo) + t;
    var v := Hex4(hi) + rest;
    assert v[..4] == Hex4(hi) && v[4..] == rest;
    ParseHex4Hex4(hi);
    ParseLowHalf(hi, lo, c, t);
  }

  /** The `\uXXXX` of a low surrogate after a high one completes the pair. */
  lemma {:induction false} ParseLowHalf(hi: nat, lo: nat, c: char, t: string)
    requires 0xD800 <= hi < 0xDC00 && 0xDC00 <= lo < 0xE000
    requires 0x10000 + (hi - 0xD800) * 1024 + (lo - 0xDC00) == c as int
    ensures ParseLowSurrogate(hi, "\\u" + Hex4(lo) + t) == Some((c, t))
  {
    var h2 := Hex4(lo);
    PairShape(Hex4(0), h2, t);
    ParseHex4Hex4(lo);
  }

  /** Where the pieces of a `\uXXXX` escape sit, on abstract strings. */
  lemma {:induction false} UnicodeShape(h: string, t: string)
    requires |h| == 4
    ensures var s := "\\u" + h + t;
            s[0] == '\\' && s[1..][0] == 'u' && s[1..][1..] == h + t
            && (h + t)[..4] == h && (h + t)[4..] == t
  {
  }

  /** Where the pieces of a surrogate-pair escape sit, on abstract strings. */
  lemma {:induction false} PairShape(h1: string, h2: string, t: string)
    requires |h1| == 4 && |h2| == 4
    ensures var s := "\\u" + h1 + "\\u" + h2 + t;
            s[0] == '\\' && s[1..][0] == 'u' && s[1..][1..] == h1 + "\\u" + h2 + t
    ensures var v := h1 + "\\u" + h2 + t;
            v[..4] == h1 && v[4..] == "\\u" + h2 + t
    ensures var w := "\\u" + h2 + t;
            |w| >= 6 && w[0] == '\\' && w[1] == 'u' && w[2..6] == h2 && w[6..] == t
  {
  }

  lemma {:induction false} ParseQuoted(str: string, rest: string)
    ensures ParseStringBody(Escape(str) + "\"" + rest) == Some((str, rest))
  {
    if str == [] {
      assert Escape(str) + "\"" + rest == "\"" + rest;
      assert ("\"" + rest)[1..] == rest;
    } else {
      var t := Escape(str[1..]) + "\"" + rest;
      assert Escape(str) + "\"" + rest == EscapeChar(str[0]) + t;
      ParseEscapeChar(str[0], t);
      ParseQuoted(str[1..], rest);
      assert [str[0]] + str[1..] == str;
    }
  }

  /** A value followed by text that cannot continue a number. */
  predicate Ends(rest: string) {
    rest == [] || rest[0] == ',' || rest[0] == '}'
  }

  lemma {:induction false} DigitRunOfDigits(d: string, rest: string)
    requires AllDigits(d)
    requires rest == [] || !IsDigit(rest[0])
    ensures DigitRun(d + rest) == d
  {
    if d == [] {
      assert d + rest == rest;
    } else {
      assert (d + rest)[1..] == d[1..] + rest;
      DigitRunOfDigits(d[1..], rest);
    }
  }

  lemma {:induction false} ParseIntText(i: int, rest: string)
    requires Ends(rest)
    ensures ParseNumber(IntText(i) + rest) == Some((i, rest))
  {
    if i < 0 {
      NatTextValue(-i);
      ParseMinusDigits(NatText(-i), -i, rest);
    } else {
      NatTextValue(i);
      ParseDigits(NatText(i), i, rest);
    }
  }

  /** Digits without a leading zero, before the end of a value, read as their value. */
  lemma {:induction false} ParseDigits(d: string, n: nat, rest: string)
    requires d != [] && AllDigits(d) && (d[0] == '0' ==> d == "0") && DigitsValue(d) == n
    requires Ends(rest)
    ensures ParseNumber(d + rest) == Some((n, rest))
  {
    var s := d + rest;
    assert s[0] == d[0];
    DigitRunOfDigits(d, rest);
    assert s[|d|..] == rest;
  }

  /** The same digits after a minus sign read as the negated value. */
  lemma {:induction false} ParseMinusDigits(d: string, n: nat, rest: string)
    requires d != [] && AllDigits(d) && (d[0] == '0' ==> d == "0") && DigitsValue(d) == n
    requires Ends(rest)
    ensures ParseNumber("-" + d + rest) == Some((-(n as int), rest))
  {
    var s := "-" + d + rest;
    var t := d + rest;
    assert s[0] == '-' && s[1..] == t;
    assert t[0] == d[0];
    DigitRunOfDigits(d, rest);
    assert t[|d|..] == rest;
  }

  lemma {:induction false} ParseDumpedScalar(v: JsonValue, rest: string)
    requires IsScalar(v) && Ends(rest)
    ensures ParseScalar(Dumps(v) + rest) == Some((v, rest))
  {
    match v
    case JNull =>
      LiteralShape("null", rest);
    case JBool(b) =>
      if b {
        LiteralShape("true", rest);
        NotLiteral("true" + rest, "null");
      } else {
        LiteralShape("false", rest);
        NotLiteral("false" + rest, "null");
        NotLiteral("false" + rest, "true");
      }
    case JInt(i) =>
      ParseDumpedInt(i, rest);
    case JString(str) =>
      ParseDumpedString(str, rest);
  }

  lemma {:induction false} NotLiteral(s: string, lit: string)
    requires s != [] && lit != [] && s[0] != lit[0]
    ensures !StartsWith(s, lit)
  {
  }

  lemma {:induction false} ParseDumpedInt(i: int, rest: string)
    requires Ends(rest)
    ensures ParseScalar(Dumps(JInt(i)) + rest) == Some((JInt(i), rest))
  {
    var d := IntText(i);
    var s := d + rest;
    assert s[0] == d[0];
    assert d[0] == '-' || IsDigit(d[0]);
    NotLiteral(s, "null");
    NotLiteral(s, "true");
    NotLiteral(s, "false");
    ParseIntText(i, rest);
  }

  lemma {:induction false} ParseDumpedString(str: string, rest: string)
    requires Ends(rest)
    ensures ParseScalar(Dumps(JString(str)) + rest) == Some((JString(str), rest))
  {
    var q := Escape(str);
    var s := Dumps(JString(str)) + rest;
    assert Dumps(JString(str)) == "\"" + q + "\"";
    QuotedShape(q, rest);
    NotLiteral(s, "null");
    NotLiteral(s, "true");
    NotLiteral(s, "false");
    ParseQuoted(str, rest);
  }

  lemma {:induction false} LiteralShape(lit: string, rest: string)
    requires |lit| >= 4
    ensures StartsWith(lit + rest, lit) && (lit + rest)[|lit|..] == rest
    ensures (lit + rest)[0] == lit[0]
  {
  }

  lemma {:induction false} QuotedShape(q: string, rest: string)
    ensures var s := ("\"" + q + "\"") + rest;
            s[0] == '"' && s[1..] == q + "\"" + rest
  {
  }

  lemma {:induction false} ParseDumpedMember(m: Member, rest: string)
    requires IsScalar(m.1) && Ends(rest)
    ensures ParseMember(DumpMember(m) + rest) == Some((m, rest))
  {
    var q, d := Escape(m.0), Dumps(m.1);
    MemberTextShape(q, d, rest);
    var s := DumpMember(m) + rest;
    var afterKey := ": " + d + rest;
    assert s == "\"" + (q + "\"" + afterKey);
    assert SkipSpace(s) == s;
    ParseQuoted(m.0, afterKey);
    assert ParseStringBody(s[1..]) == Some((m.0, afterKey));
    assert SkipSpace(afterKey) == afterKey;
    DumpsStartsNonSpace(m.1);
    assert SkipSpace(afterKey[1..]) == d + rest;
    ParseDumpedScalar(m.1, rest);
  }

  /** Where the pieces of `"key": value` sit in the text, on abstract strings to keep the proof small. */
  lemma {:induction false} MemberTextShape(q: string, d: string, rest: string)
    ensures (("\"" + q + "\"") + ": " + d) + rest == "\"" + (q + "\"" + (": " + d + rest))
    ensures ((("\"" + q + "\"") + ": " + d) + rest)[1..] == q + "\"" + (": " + d + rest)
    ensures (": " + d + rest)[0] == ':' && (": " + d + rest)[1..] == " " + (d + rest)
    ensures (" " + (d + rest))[0] == ' ' && (" " + (d + rest))[1..] == d + rest
  {
  }

  lemma {:induction false} DumpsStartsNonSpace(v: JsonValue)
    requires IsScalar(v)
    ensures Dumps(v) != [] && !IsJsonSpace(Dumps(v)[0])
  {
    if v.JInt? {
      assert IntText(v.i)[0] == '-' || IsDigit(IntText(v.i)[0]);
    }
  }

  lemma {:induction false} ParseDumpedMembers(members: seq<Member>, rest: string)
    requires members != [] && IsFlat(members)
    ensures ParseMembers(DumpMembers(members) + "}" + rest) == Some((members, rest))
    decreases |members|
  {
    if |members| == 1 {
      ParseLastMember(members, rest);
    } else {
      var tail := members[1..];
      assert IsFlat(tail) by {
        forall i | 0 <= i < |tail| ensures IsScalar(tail[i].1) {
          assert tail[i] == members[i + 1];
        }
      }
      ParseDumpedMembers(tail, rest);
      var tailText := DumpMembers(tail) + "}" + rest;
      DumpMembersStartsWithQuote(tail);
      ParseNextMember(members[0], tail, tailText, rest);
      assert DumpMembers(members) == DumpMember(members[0]) + ", " + DumpMembers(tail);
      ListShape(DumpMember(members[0]), DumpMembers(tail), rest);
      assert [members[0]] + tail == members;
    }
  }

  lemma {:induction false} ParseLastMember(members: seq<Member>, rest: string)
    requires |members| == 1 && IsScalar(members[0].1)
    ensures ParseMembers(DumpMembers(members) + "}" + rest) == Some((members, rest))
  {
    var m := members[0];
    var after := "}" + rest;
    assert DumpMembers(members) + "}" + rest == DumpMember(m) + after;
    ParseDumpedMember(m, after);
    assert SkipSpace(after) == after;
    assert after[1..] == rest;
    assert [m] == members;
  }

  lemma {:induction false} ParseNextMember(m: Member, tail: seq<Member>, tailText: string, rest: string)
    requires IsScalar(m.1)
    requires tailText != [] && tailText[0] == '"'
    requires ParseMembers(tailText) == Some((tail, rest))
    ensures ParseMembers(DumpMember(m) + (", " + tailText)) == Some(([m] + tail, rest))
  {
    var after := ", " + tailText;
    CommaShape(tailText);
    ParseDumpedMember(m, after);
    ParseMembersSkipsSpace(tailText);
    ParseMembersStep(DumpMember(m) + after, m, after, tail, rest);
  }

  lemma CommaShape(x: string)
    ensures var a := ", " + x;
            SkipSpace(a) == a && a != [] && a[0] == ',' && a[1..] == " " + x && Ends(a)
  {
    var a := ", " + x;
    assert a[0] == ',';
  }

  /** One member, a comma, then the remaining members. */
  lemma ParseMembersStep(s: string, m: Member, t: string, ms: seq<Member>, rest: string)
    requires ParseMember(s) == Some((m, t))
    requires SkipSpace(t) == t && t != [] && t[0] == ','
    requires ParseMembers(t[1..]) == Some((ms, rest))
    ensures ParseMembers(s) == Some(([m] + ms, rest))
  {
  }

  lemma {:induction false} ListShape(head: string, tail: string, rest: string)
    ensures (head + ", " + tail) + "}" + rest == head + (", " + (tail + "}" + rest))
  {
  }

  /** A space before a member changes nothing. */
  lemma {:induction false} ParseMembersSkipsSpace(x: string)
    ensures ParseMembers(" " + x) == ParseMembers(x)
  {
    assert (" " + x)[1..] == x;
    assert SkipSpace(" " + x) == SkipSpace(x);
    assert ParseMember(" " + x) == ParseMember(x);
  }

  lemma DumpMembersStartsWithQuote(members: seq<Member>)
    requires members != []
    ensures DumpMembers(members) != [] && DumpMembers(members)[0] == '"'
  {
  }

  /** The matching parser reads back exactly the flat object `json.dumps` wrote, members in order. */
  lemma {:induction false} DumpsParses(members: seq<Member>)
    requires IsFlat(members)
    ensures ParseObject(Dumps(JObject(members))) == Some(JObject(members))
  {
    if members == [] {
      assert Dumps(JObject(members)) == "{" + "" + "}";
      EmptyObjectParses();
    } else {
      DumpMembersStartsWithQuote(members);
      ParseDumpedMembers(members, []);
      ParseObjectOf(DumpMembers(members), members);
    }
  }

  lemma EmptyObjectParses()
    ensures ParseObject("{" + "" + "}") == Some(JObject([]))
  {
    var text := "{" + "" + "}";
    assert text == "{}";
    assert SkipSpace(text) == text;
    assert SkipSpace(text[1..]) == "}";
    assert SkipSpace("}"[1..]) == [];
  }

  /** Braces around members that parse to the end give the object of those members. */
  lemma {:induction false} ParseObjectOf(body: string, ms: seq<Member>)
    requires body != [] && body[0] == '"'
    requires ParseMembers(body + "}" + []) == Some((ms, []))
    ensures ParseObject("{" + body + "}") == Some(JObject(ms))
  {
    ObjectShape(body);
  }

  lemma ObjectShape(body: string)
    requires body != [] && body[0] == '"'
    ensures var text := "{" + body + "}";
            SkipSpace(text) == text && text[0] == '{' && text[1..] == body + "}" + []
            && SkipSpace(text[1..]) == text[1..] && text[1..][0] == '"' && SkipSpace([]) == []
  {
    var text := "{" + body + "}";
    assert text[0] == '{';
    assert text[1..] == body + "}" + [];
    assert text[1..][0] == '"';
  }

  lemma AsciiConcat(a: string, b: string)
    requires Utf8.IsAscii(a) && Utf8.IsAscii(b)
    ensures Utf8.IsAscii(a + b)
  {
    forall i | 0 <= i < |a + b| ensures (a + b)[i] as int < 0x80 {
      if i >= |a| {
        assert (a + b)[i] == b[i - |a|];
      }
    }
  }

  lemma Hex4Ascii(v: nat)
    requires v < 0x10000
    ensures Utf8.IsAscii(Hex4(v))
  {
  }

  /** `json.dumps` output is pure ASCII (`ensure_ascii=True`), for every value. */
  lemma {:induction false} DumpsIsAscii(v: JsonValue)
    ensures Utf8.IsAscii(Dumps(v))
    decreases v, 1
  {
    match v
    case JNull =>
    case JBool(b) =>
    case JInt(i) => IntTextIsAscii(i);
    case JString(s) => QuoteIsAscii(s);
    case JArray(items) =>
      DumpItemsIsAscii(items);
      AsciiConcat("[", DumpItems(items));
      AsciiConcat("[" + DumpItems(items), "]");
    case JObject(members) =>
      DumpMembersIsAscii(members);
      AsciiConcat("{", DumpMembers(members));
      AsciiConcat("{" + DumpMembers(members), "}");
  }

  lemma {:induction false} DumpItemsIsAscii(items: seq<JsonValue>)
    ensures Utf8.IsAscii(DumpItems(items))
    decreases items, 0
  {
    if |items| == 1 {
      DumpsIsAscii(items[0]);
    } else if |items| > 1 {
      DumpsIsAscii(items[0]);
      DumpItemsIsAscii(items[1..]);
      AsciiConcat(Dumps(items[0]), ", ");
      AsciiConcat(Dumps(items[0]) + ", ", DumpItems(items[1..]));
    }
  }

  lemma {:induction false} DumpMembersIsAscii(members: seq<Member>)
    ensures Utf8.IsAscii(DumpMembers(members))
    decreases members, 0
  {
    if |members| == 1 {
      DumpMemberIsAscii(members[0]);
    } else if |members| > 1 {
      DumpMemberIsAscii(members[0]);
      DumpMembersIsAscii(members[1..]);
      AsciiConcat(DumpMember(members[0]), ", ");
      AsciiConcat(DumpMember(members[0]) + ", ", DumpMembers(members[1..]));
    }
  }

  lemma {:induction false} DumpMemberIsAscii(m: Member)
    ensures Utf8.IsAscii(DumpMember(m))
    decreases m, 0
  {
    QuoteIsAscii(m.0);
    DumpsIsAscii(m.1);
    AsciiConcat(Quote(m.0), ": ");
    AsciiConcat(Quote(m.0) + ": ", Dumps(m.1));
  }

  lemma QuoteIsAscii(s: string)
    ensures Utf8.IsAscii(Quote(s))
  {
    EscapeIsAscii(s);
    AsciiConcat("\"", Escape(s));
    AsciiConcat("\"" + Escape(s), "\"");
  }

  lemma IntTextIsAscii(i: int)
    ensures Utf8.IsAscii(IntText(i))
  {
    if i < 0 {
      AsciiConcat("-", NatText(-i));
    }
  }

  /** Escaped string contents are pure ASCII. */
  lemma {:induction false} EscapeIsAscii(s: string)
    ensures Utf8.IsAscii(Escape(s))
  {
    if s != [] {
      EscapeIsAscii(s[1..]);
      EscapeCharIsAscii(s[0]);
      AsciiConcat(EscapeChar(s[0]), Escape(s[1..]));
    }
  }

  lemma {:induction false} EscapeCharIsAscii(c: char)
    ensures Utf8.IsAscii(EscapeChar(c))
  {
    if 0x10000 <= c as int {
      PairEscapeIsAscii(c);
    } else if |EscapeChar(c)| == 6 {
      BmpEscapeIsAscii(c);
    } else {
      EscapeCharShort(c);
    }
  }

  lemma {:induction false} PairEscapeIsAscii(c: char)
    requires 0x10000 <= c as int
    ensures Utf8.IsAscii(EscapeChar(c))
  {
    var hi, lo := EscapeCharPair(c);
    var a, b := Hex4(hi), Hex4(lo);
    Hex4Ascii(hi);
    Hex4Ascii(lo);
    AsciiConcat("\\u", a);
    AsciiConcat("\\u" + a, "\\u");
    AsciiConcat("\\u" + a + "\\u", b);
  }

  lemma {:induction false} BmpEscapeIsAscii(c: char)
    requires c as int < 0x10000 && |EscapeChar(c)| == 6
    ensures Utf8.IsAscii(EscapeChar(c))
  {
    Hex4Ascii(c as int);
    AsciiConcat("\\u", Hex4(c as int));
    EscapeCharBmp(c);
  }

  /** Below U+10000, a character with no short form is escaped as `\uXXXX`. */
  lemma EscapeCharBmp(c: char)
    requires c as int < 0x10000 && |EscapeChar(c)| == 6
    ensures EscapeChar(c) == "\\u" + Hex4(c as int)
  {
  }

  /** The other escapes are at most two ASCII characters. */
  lemma EscapeCharShort(c: char)
    requires c as int < 0x10000 && |EscapeChar(c)| != 6
    ensures Utf8.IsAscii(EscapeChar(c))
  {
  }

}
