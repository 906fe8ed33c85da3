/**
 * The Python `str` operations the client applies to operator input, device
 * names and numbers: `isspace`, `strip`, `lower`, `split`, `startswith`,
 * `in`, `str(int)` and `int(str)`, and the hexadecimal digits used by
 * `bytes.hex()` and JSON `\u` escapes.
 */
module Text {
  import opened Options

  /** Python's `str.isspace()`: the characters `strip()` and `split()` treat as whitespace. */
  predicate IsSpace(c: char) {
    var n := c as int;
    (0x09 <= n <= 0x0D) || (0x1C <= n <= 0x20) || n == 0x85 || n == 0xA0 || n == 0x1680
    || (0x2000 <= n <= 0x200A) || n == 0x2028 || n == 0x2029 || n == 0x202F
    || n == 0x205F || n == 0x3000
  }

  predicate AllSpace(s: string) {
    forall i :: 0 <= i < |s| ==> IsSpace(s[i])
  }

  predicate NoSpace(s: string) {
    forall i :: 0 <= i < |s| ==> !IsSpace(s[i])
  }

  /** Drops the leading whitespace of `s`. */
  function StripLeft(s: string): (r: string)
    ensures |r| <= |s| && r == s[|s| - |r|..]
    ensures AllSpace(s[..|s| - |r|])
    ensures r == [] || !IsSpace(r[0])
  {
    if s != [] && IsSpace(s[0]) then
      var r := StripLeft(s[1..]);
      StripLeftStep(s, r);
      r
    else s
  }

  /** Leading whitespace of the tail, behind one more space, is leading whitespace of the whole. */
  lemma StripLeftStep(s: string, r: string)
    requires s != [] && IsSpace(s[0])
    requires |r| <= |s[1..]| && r == s[1..][|s[1..]| - |r|..] && AllSpace(s[1..][..|s[1..]| - |r|])
    ensures |r| <= |s| && r == s[|s| - |r|..] && AllSpace(s[..|s| - |r|])
  {
    var k := |s| - |r|;
    assert s[1..][|s[1..]| - |r|..] == s[k..];
    forall i | 0 <= i < k ensures IsSpace(s[..k][i]) {
      if i > 0 {
        assert s[..k][i] == s[1..][..k - 1][i - 1];
      }
    }
  }

  /** Drops the trailing whitespace of `s`. */
  function StripRight(s: string): (r: string)
    ensures |r| <= |s| && r == s[..|r|]
    ensures AllSpace(s[|r|..])
    ensures r == [] || !IsSpace(r[|r| - 1])
  {
    if s != [] && IsSpace(s[|s| - 1]) then
      var r := StripRight(s[..|s| - 1]);
      assert s[|r|..] == s[..|s| - 1][|r|..] + [s[|s| - 1]];
      r
    else s
  }

  /** Python's `str.strip()` with no argument. */
  function Strip(s: string): (r: string)
    ensures r == [] || (!IsSpace(r[0]) && !IsSpace(r[|r| - 1]))
  {
    StripRight(StripLeft(s))
  }

  /**
   * Python's `str.lower()` on one character, for the characters whose lower
   * case is ASCII: the capitals A-Z and U+212A KELVIN SIGN, which lower-cases
   * to `k`. Every other character is left as it is.
   */
  function LowerChar(c: char): char {
    if 'A' <= c <= 'Z' then (c as int + 32) as char
    else if c == '\U{212A}' then 'k'
    else c
  }

  function Lower(s: string): string {
    seq(|s|, i requires 0 <= i < |s| => LowerChar(s[i]))
  }

  /** The longest prefix of `s` that holds no whitespace. */
  function Token(s: string): (t: string)
    ensures |t| <= |s| && t == s[..|t|] && NoSpace(t)
    ensures |t| == |s| || IsSpace(s[|t|])
  {
    if s == [] || IsSpace(s[0]) then [] else [s[0]] + Token(s[1..])
  }

  /** Python's `str.split()` with no argument: the maximal runs of non-whitespace, in order. */
  function Split(s: string): (words: seq<string>)
    ensures forall k :: 0 <= k < |words| ==> words[k] != [] && NoSpace(words[k])
    decreases |s|
  {
    var t := StripLeft(s);
    if t == [] then []
    else
      var w := Token(t);
      var ws := Split(t[|w|..]);
      assert w != [] by {
        assert w == [t[0]] + Token(t[1..]);
      }
      ConsWord(w, ws);
      [w] + ws
  }

  /** A word in front of words gives words. */
  lemma ConsWord(w: string, ws: seq<string>)
    requires w != [] && NoSpace(w)
    requires forall k :: 0 <= k < |ws| ==> ws[k] != [] && NoSpace(ws[k])
    ensures forall k :: 0 <= k < |[w] + ws| ==> ([w] + ws)[k] != [] && NoSpace(([w] + ws)[k])
  {
    forall k | 0 <= k < |[w] + ws|
      ensures ([w] + ws)[k] != [] && NoSpace(([w] + ws)[k])
    {
      if k > 0 {
        assert ([w] + ws)[k] == ws[k - 1];
      }
    }
  }

  predicate StartsWith(s: string, prefix: string) {
    |prefix| <= |s| && s[..|prefix|] == prefix
  }

  /** Python's `prefix in s` for strings. */
  predicate Contains(s: string, part: string)
    decreases |s|
  {
    StartsWith(s, part) || (s != [] && Contains(s[1..], part))
  }

  predicate IsDigit(c: char) {
    '0' <= c <= '9'
  }

  predicate AllDigits(s: string) {
    forall i :: 0 <= i < |s| ==> IsDigit(s[i])
  }

  function DigitChar(d: nat): (c: char)
    requires d < 10
    ensures IsDigit(c) && c as int - '0' as int == d
  {
    ('0' as int + d) as char
  }

  /** The value of a string of ASCII decimal digits (leading zeros allowed). */
  function DigitValue(c: char): nat {
    if IsDigit(c) then c as int - '0' as int else 0
  }

  function DigitsValue(s: string): nat {
    if s == [] then 0
    else DigitsValue(s[..|s| - 1]) * 10 + DigitValue(s[|s| - 1])
  }

  /** Python's `str(n)` for `n >= 0`: decimal digits without leading zeros. */
  function NatText(n: nat): (r: string)
    ensures r != [] && AllDigits(r)
    ensures r[0] == '0' ==> n == 0 && r == "0"
  {
    if n < 10 then [DigitChar(n)] else NatText(n / 10) + [DigitChar(n % 10)]
  }

  /** Python's `str(n)` for any integer, which is also what `json.dumps` writes for it. */
  function IntText(n: int): (r: string)
    ensures r != [] && (r[0] == '-' <==> n < 0)
  {
    if n < 0 then "-" + NatText(-n) else NatText(n)
  }

  /**
   * CPython's default limit on the digits of an integer converted from or
   * to decimal text (`sys.int_info.default_max_str_digits`): `int()` and
   * `str()` raise `ValueError` past it.
   */
  const MAX_STR_DIGITS: nat := 4300

  function Abs(n: int): nat {
    if n < 0 then -n else n
  }

  /** `str(n)` succeeds: the decimal digits of `n` are within the limit. */
  predicate WithinDigitLimit(n: int) {
    |NatText(Abs(n))| <= MAX_STR_DIGITS
  }

  /**
   * Python's `int(token)` for a token without whitespace, restricted to an
   * optional `+` or `-` followed by one or more ASCII digits, at most
   * `MAX_STR_DIGITS` of them; `None` is the `ValueError` that `int` raises.
   */
  function ParsePythonInt(token: string): Option<int> {
    if token != [] && (token[0] == '+' || token[0] == '-') then
      var digits := token[1..];
      if digits != [] && AllDigits(digits) && |digits| <= MAX_STR_DIGITS then
        var value: int := DigitsValue(digits);
        Some(if token[0] == '-' then -value else value)
      else None
    else if token != [] && AllDigits(token) && |token| <= MAX_STR_DIGITS then Some(DigitsValue(token))
    else None
  }

  function HexDigit(d: nat): (c: char)
    requires d < 16
    ensures c as int < 0x80
  {
    "0123456789abcdef"[d]
  }

  /** The value of one hexadecimal digit, in either case. */
  function HexValue(c: char): (r: Option<nat>)
    ensures r.Some? ==> r.value < 16
  {
    if '0' <= c <= '9' then Some(c as int - '0' as int)
    else if 'a' <= c <= 'f' then Some(c as int - 'a' as int + 10)
    else if 'A' <= c <= 'F' then Some(c as int - 'A' as int + 10)
    else None
  }

  // ---------------------------------------------------------------------
  // Properties
  // ---------------------------------------------------------------------

  /** `strip()` removes exactly the whitespace padding around a word. */
  lemma StripPadded(pre: string, w: string, post: string)
    requires AllSpace(pre) && AllSpace(post)
    requires w == [] || (!IsSpace(w[0]) && !IsSpace(w[|w| - 1]))
    ensures Strip(pre + w + post) == w
  {
    if w == [] {
      var s := pre + w + post;
      assert AllSpace(s) by {
        forall i | 0 <= i < |s| ensures IsSpace(s[i]) {
          if i >= |pre| { assert s[i] == post[i - |pre|]; }
        }
      }
    } else {
      assert pre + w + post == pre + (w + post);
      StripLeftPadded(pre, w + post);
      StripRightPadded(w, post);
      StripRightAllSpace(post);
      assert w + [] == w;
    }
  }

  lemma {:induction false} StripLeftPadded(pre: string, s: string)
    requires AllSpace(pre)
    requires s == [] || !IsSpace(s[0])
    ensures StripLeft(pre + s) == s
  {
    if pre != [] {
      assert (pre + s)[1..] == pre[1..] + s;
      StripLeftPadded(pre[1..], s);
    } else {
      assert pre + s == s;
    }
  }

  lemma {:induction false} StripRightAllSpace(s: string)
    requires AllSpace(s)
    ensures StripRight(s) == []
  {
    if s != [] {
      StripRightAllSpace(s[..|s| - 1]);
    }
  }

  /** Trailing whitespace after a word that ends in a non-space character is all `StripRight` removes. */
  lemma {:induction false} StripRightPadded(w: string, post: string)
    requires w != [] && !IsSpace(w[|w| - 1])
    ensures StripRight(w + post) == w + StripRight(post)
    decreases |post|
  {
    if post == [] {
      assert w + post == w;
    } else if IsSpace(post[|post| - 1]) {
      assert (w + post)[..|w + post| - 1] == w + post[..|post| - 1];
      StripRightPadded(w, post[..|post| - 1]);
    } else {
    }
  }

  lemma LowerConcat(a: string, b: string)
    ensures Lower(a + b) == Lower(a) + Lower(b)
  {
  }

  /** Lower-casing leaves whitespace alone, so it never changes where words start or end. */
  lemma LowerCharKeepsSpace(c: char)
    ensures IsSpace(LowerChar(c)) <==> IsSpace(c)
  {
  }

  lemma LowerKeepsSpace(s: string)
    ensures forall i :: 0 <= i < |s| ==> (IsSpace(Lower(s)[i]) <==> IsSpace(s[i]))
  {
  }

  /** Lower-casing is idempotent, as Python's `lower()` is on these characters. */
  lemma LowerTwice(s: string)
    ensures Lower(Lower(s)) == Lower(s)
  {
  }

  lemma {:induction false} TokenOfWord(w: string, rest: string)
    requires NoSpace(w)
    requires rest == [] || IsSpace(rest[0])
    ensures Token(w + rest) == w
  {
    if w == [] {
      assert w + rest == rest;
    } else {
      assert (w + rest)[1..] == w[1..] + rest;
      TokenOfWord(w[1..], rest);
    }
  }

  /** Splitting a word followed by a whitespace-led remainder yields the word, then the remainder's words. */
  lemma SplitWord(w: string, rest: string)
    requires w != [] && NoSpace(w)
    requires rest == [] || IsSpace(rest[0])
    ensures Split(w + rest) == [w] + Split(rest)
  {
    StripLeftPadded([], w + rest);
    assert [] + (w + rest) == w + rest;
    TokenOfWord(w, rest);
    assert (w + rest)[|w|..] == rest;
  }

  /** The words of `verb arg tail`, when `tail` is empty or starts with whitespace. */
  lemma SplitTwoWords(verb: string, arg: string, tail: string)
    requires verb != [] && NoSpace(verb) && arg != [] && NoSpace(arg)
    requires tail == [] || IsSpace(tail[0])
    ensures Split(verb + " " + arg + tail) == [verb, arg] + Split(tail)
  {
    ConcatAssoc(verb, " ", arg, tail);
    SplitLeadingWord(verb, arg + tail);
    SplitSpacedWord(arg, tail);
    WordsAssoc(verb, arg, Split(tail));
  }

  lemma SplitLeadingWord(verb: string, s: string)
    requires verb != [] && NoSpace(verb)
    ensures Split(verb + (" " + s)) == [verb] + Split(" " + s)
  {
    var after := " " + s;
    assert after[0] == ' ';
    SplitWord(verb, after);
  }

  lemma SplitSpacedWord(arg: string, tail: string)
    requires arg != [] && NoSpace(arg)
    requires tail == [] || IsSpace(tail[0])
    ensures Split(" " + (arg + tail)) == [arg] + Split(tail)
  {
    var at := arg + tail;
    var after := " " + at;
    assert after[0] == ' ' && after[1..] == at;
    SplitLeadingSpace(after);
    SplitWord(arg, tail);
  }

  /** Leading whitespace does not change the words. */
  lemma SplitLeadingSpace(s: string)
    requires s != [] && IsSpace(s[0])
    ensures Split(s) == Split(s[1..])
  {
    assert StripLeft(s) == StripLeft(s[1..]);
  }

  lemma ConcatAssoc(a: string, b: string, c: string, d: string)
    ensures a + b + c + d == a + (b + (c + d))
  {
  }

  lemma WordsAssoc(a: string, b: string, ws: seq<string>)
    ensures [a] + ([b] + ws) == [a, b] + ws
  {
  }

  /** A string with at least one non-space character has at least one word. */
  lemma SplitNonEmpty(s: string, i: nat)
    requires i < |s| && !IsSpace(s[i])
    ensures Split(s) != []
  {
    var t := StripLeft(s);
    assert s[..|s| - |t|] == s[..|s| - |t|];
  }

  /** `part` occurs in `s` starting at position `i`. */
  predicate OccursAt(s: string, part: string, i: nat) {
    i + |part| <= |s| && s[i..i + |part|] == part
  }

  /** `part in s` holds exactly when `part` occurs at some position of `s`. */
  lemma {:induction false} ContainsAt(s: string, part: string)
    ensures Contains(s, part) <==> exists i: nat :: OccursAt(s, part, i)
    decreases |s|
  {
    if StartsWith(s, part) {
      assert OccursAt(s, part, 0);
    } else if s == [] {
    } else {
      ContainsAt(s[1..], part);
      if exists i: nat :: OccursAt(s, part, i) {
        var i: nat :| OccursAt(s, part, i);
        assert i != 0;
        assert s[1..][i - 1..i - 1 + |part|] == s[i..i + |part|];
        assert OccursAt(s[1..], part, i - 1);
      }
      if Contains(s[1..], part) {
        var i: nat :| OccursAt(s[1..], part, i);
        assert s[1..][i..i + |part|] == s[i + 1..i + 1 + |part|];
        assert OccursAt(s, part, i + 1);
      }
    }
  }

  lemma {:induction false} NatTextValue(n: nat)
    ensures DigitsValue(NatText(n)) == n
  {
    if n >= 10 {
      var r := NatText(n);
      assert r[..|r| - 1] == NatText(n / 10);
      NatTextValue(n / 10);
    }
  }

  /** `int(str(n)) == n`: the text the client parses round-trips every integer `str` can write, negative ones included. */
  lemma IntTextParses(n: int)
    requires WithinDigitLimit(n)
    ensures ParsePythonInt(IntText(n)) == Some(n)
  {
    if n < 0 {
      NatTextValue(-n);
      assert IntText(n)[1..] == NatText(-n);
    } else {
      NatTextValue(n);
    }
  }

  /** `int()` accepts an explicit plus sign and leading zeros. */
  lemma ParsePythonIntPlusAndZeros(digits: string)
    requires digits != [] && AllDigits(digits) && |digits| < MAX_STR_DIGITS
    ensures ParsePythonInt("+" + digits) == Some(DigitsValue(digits))
    ensures ParsePythonInt("0" + digits) == Some(DigitsValue(digits))
  {
    assert ("+" + digits)[1..] == digits;
    ZeroPrefixValue(digits);
  }

  /** More digits than the limit make `int()` fail, with or without a sign, whatever their value. */
  lemma TooManyDigits(digits: string)
    requires AllDigits(digits) && |digits| > MAX_STR_DIGITS
    ensures ParsePythonInt(digits) == None
    ensures ParsePythonInt("-" + digits) == None && ParsePythonInt("+" + digits) == None
  {
    assert ("-" + digits)[1..] == digits;
    assert ("+" + digits)[1..] == digits;
  }

  /** Every integer `int()` reads can be written back by `str()`: leading zeros only lengthen the text. */
  lemma ParsedWithinLimit(token: string)
    requires ParsePythonInt(token).Some?
    ensures WithinDigitLimit(ParsePythonInt(token).value)
  {
    if token[0] == '+' || token[0] == '-' {
      NatTextNoLonger(token[1..]);
    } else {
      NatTextNoLonger(token);
    }
  }

  /** The canonical digits of a value are no more than any digits that spell it. */
  lemma {:induction false} NatTextNoLonger(d: string)
    requires d != [] && AllDigits(d)
    ensures |NatText(DigitsValue(d))| <= |d|
    decreases |d|
  {
    var p := d[..|d| - 1];
    var x := DigitValue(d[|d| - 1]);
    if p != [] {
      NatTextNoLonger(p);
      var m := DigitsValue(p) * 10 + x;
      if m >= 10 {
        TenthOf(DigitsValue(p), x);
      }
    }
  }

  lemma TenthOf(a: nat, x: nat)
    requires x < 10
    ensures (a * 10 + x) / 10 == a
  {
  }

  lemma {:induction false} ZeroPrefixValue(digits: string)
    requires AllDigits(digits)
    ensures AllDigits("0" + digits) && DigitsValue("0" + digits) == DigitsValue(digits)
    decreases |digits|
  {
    if digits != [] {
      var s := "0" + digits;
      assert s[..|s| - 1] == "0" + digits[..|digits| - 1];
      ZeroPrefixValue(digits[..|digits| - 1]);
    }
  }

  lemma HexDigitValue(d: nat)
    requires d < 16
    ensures HexValue(HexDigit(d)) == Some(d)
  {
  }
}
