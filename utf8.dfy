/**
 * UTF-8 as Python's `str.encode('utf-8')` and strict `bytes.decode('utf-8')`
 * apply it: the well-formed byte sequences of the Unicode standard
 * (Table 3-7), so overlong forms, encoded surrogates, code points above
 * U+10FFFF and stray continuation bytes are all decoding errors
 * (`EncodeDecode`: whatever decodes is the one encoding of its text).
 */
module Utf8 {
  import opened Options

  newtype byte = b: int | 0 <= b < 256

  predicate IsContinuation(b: byte) {
    0x80 <= b <= 0xBF
  }

  /** The bytes of one character. */
  function EncodeChar(c: char): (r: seq<byte>)
    ensures 1 <= |r| <= 4
  {
    var n := c as int;
    if n < 0x80 then [n as byte]
    else if n < 0x800 then [(0xC0 + n / 64) as byte, (0x80 + n % 64) as byte]
    else if n < 0x10000 then
      [(0xE0 + n / 4096) as byte, (0x80 + (n / 64) % 64) as byte, (0x80 + n % 64) as byte]
    else
      [(0xF0 + n / 262144) as byte, (0x80 + (n / 4096) % 64) as byte,
       (0x80 + (n / 64) % 64) as byte, (0x80 + n % 64) as byte]
  }

  /** `str.encode('utf-8')`. */
  function Encode(s: string): seq<byte> {
    if s == [] then [] else EncodeChar(s[0]) + Encode(s[1..])
  }

  /** Reads the first character of `b`: the character and how many bytes it took, or `None` at an ill-formed sequence. */
  function DecodeChar(b: seq<byte>): (r: Option<(char, nat)>)
    requires b != []
    ensures r.Some? ==> 1 <= r.value.1 <= |b| && r.value.1 <= 4
  {
    var b0 := b[0] as int;
    if b0 < 0x80 then Some((b0 as char, 1))
    else if 0xC2 <= b0 <= 0xDF then
      if |b| >= 2 && IsContinuation(b[1]) then
        Some((((b0 - 0xC0) * 64 + (b[1] as int - 0x80)) as char, 2))
      else None
    else if 0xE0 <= b0 <= 0xEF then
      var lo := if b0 == 0xE0 then 0xA0 else 0x80;
      var hi := if b0 == 0xED then 0x9F else 0xBF;
      if |b| >= 3 && lo <= b[1] as int <= hi && IsContinuation(b[2]) then
        var n := (b0 - 0xE0) * 4096 + (b[1] as int - 0x80) * 64 + (b[2] as int - 0x80);
        Some((n as char, 3))
      else None
    else if 0xF0 <= b0 <= 0xF4 then
      var lo := if b0 == 0xF0 then 0x90 else 0x80;
      var hi := if b0 == 0xF4 then 0x8F else 0xBF;
      if |b| >= 4 && lo <= b[1] as int <= hi && IsContinuation(b[2]) && IsContinuation(b[3]) then
        var n := (b0 - 0xF0) * 262144 + (b[1] as int - 0x80) * 4096
                 + (b[2] as int - 0x80) * 64 + (b[3] as int - 0x80);
        Some((n as char, 4))
      else None
    else None
  }

  /** Strict `bytes.decode('utf-8')`: `None` is the `UnicodeDecodeError`. */
  function Decode(b: seq<byte>): Option<string>
    decreases |b|
  {
    if b == [] then Some([])
    else match DecodeChar(b)
      case None => None
      case Some((c, k)) =>
        match Decode(b[k..])
        case None => None
        case Some(rest) => Some([c] + rest)
  }

  /** ASCII text encodes to its own code units, one byte each. */
  predicate IsAscii(s: string) {
    forall i :: 0 <= i < |s| ==> s[i] as int < 0x80
  }

  // ---------------------------------------------------------------------
  // Properties
  // ---------------------------------------------------------------------

  lemma EncodeConcat(a: string, b: string)
    ensures Encode(a + b) == Encode(a) + Encode(b)
  {
    if a != [] {
      assert (a + b)[1..] == a[1..] + b;
      EncodeConcat(a[1..], b);
    } else {
      assert a + b == b;
    }
  }

  lemma {:induction false} EncodeAscii(s: string)
    requires IsAscii(s)
    ensures |Encode(s)| == |s|
    ensures forall i :: 0 <= i < |s| ==> Encode(s)[i] as int == s[i] as int
  {
    if s != [] {
      EncodeAscii(s[1..]);
    }
  }

  /** Decoding the bytes of one character gives back that character, whatever follows it. */
  lemma DecodeEncodeChar(c: char, rest: seq<byte>)
    ensures DecodeChar(EncodeChar(c) + rest) == Some((c, |EncodeChar(c)|))
  {
    var n := c as int;
    if n < 0x80 {
    } else if n < 0x800 {
      DecodeTwo(c, rest);
    } else if n < 0x10000 {
      DecodeThree(c, rest);
    } else {
      DecodeFour(c, rest);
    }
  }

  lemma DecodeTwo(c: char, rest: seq<byte>)
    requires 0x80 <= c as int < 0x800
    ensures DecodeChar(EncodeChar(c) + rest) == Some((c, 2))
  {
    var n := c as int;
    var b := EncodeChar(c) + rest;
    assert b[0] as int == 0xC0 + n / 64 && b[1] as int == 0x80 + n % 64;
    assert (b[0] as int - 0xC0) * 64 + (b[1] as int - 0x80) == n;
  }

  lemma DecodeThree(c: char, rest: seq<byte>)
    requires 0x800 <= c as int < 0x10000
    ensures DecodeChar(EncodeChar(c) + rest) == Some((c, 3))
  {
    var n := c as int;
    var q, m, r := n / 4096, (n / 64) % 64, n % 64;
    assert n == q * 4096 + m * 64 + r;
    var b := EncodeChar(c) + rest;
    assert b[0] as int == 0xE0 + q && b[1] as int == 0x80 + m && b[2] as int == 0x80 + r;
    assert q == 0 ==> m >= 32;
    assert q == 13 ==> m < 32;
    assert (b[0] as int - 0xE0) * 4096 + (b[1] as int - 0x80) * 64 + (b[2] as int - 0x80) == n;
  }

  lemma DecodeFour(c: char, rest: seq<byte>)
    requires 0x10000 <= c as int
    ensures DecodeChar(EncodeChar(c) + rest) == Some((c, 4))
  {
    var q, m, k, r := FourBytes(c);
    var b := EncodeChar(c) + rest;
    assert b[0] as int == 0xF0 + q && b[1] as int == 0x80 + m;
    assert b[2] as int == 0x80 + k && b[3] as int == 0x80 + r;
  }

  /** The four bytes of a character above U+FFFF: a lead byte of 3 bits and three continuations of 6. */
  lemma FourBytes(c: char) returns (q: int, m: int, k: int, r: int)
    requires 0x10000 <= c as int
    ensures 0 <= q <= 4 && 0 <= m < 64 && 0 <= k < 64 && 0 <= r < 64
    ensures (q == 0 ==> m >= 16) && (q == 4 ==> m < 16)
    ensures q * 262144 + m * 4096 + k * 64 + r == c as int
    ensures EncodeChar(c) == [(0xF0 + q) as byte, (0x80 + m) as byte, (0x80 + k) as byte, (0x80 + r) as byte]
  {
    var n := c as int;
    q, m, k, r := n / 262144, (n / 4096) % 64, (n / 64) % 64, n % 64;
    SplitFour(n);
  }

  lemma SplitFour(n: int)
    requires 0x10000 <= n < 0x110000
    ensures var q, m, k, r := n / 262144, (n / 4096) % 64, (n / 64) % 64, n % 64;
            0 <= q <= 4 && 0 <= m < 64 && 0 <= k < 64 && 0 <= r < 64
            && (q == 0 ==> m >= 16) && (q == 4 ==> m < 16)
            && q * 262144 + m * 4096 + k * 64 + r == n
  {
    var r0, a1 := n % 64, n / 64;
    var k0, a2 := a1 % 64, a1 / 64;
    var m0, q0 := a2 % 64, a2 / 64;
    assert n == a2 * 4096 + k0 * 64 + r0;
    assert n / 4096 == a2;
    assert n == q0 * 262144 + m0 * 4096 + k0 * 64 + r0;
    assert n / 262144 == q0;
  }

  /** `data.decode('utf-8')` undoes `s.encode('utf-8')` for every string. */
  lemma {:induction false} DecodeEncode(s: string)
    ensures Decode(Encode(s)) == Some(s)
  {
    if s != [] {
      var e := EncodeChar(s[0]);
      DecodeEncodeChar(s[0], Encode(s[1..]));
      assert (e + Encode(s[1..]))[|e|..] == Encode(s[1..]);
      DecodeEncode(s[1..]);
      assert [s[0]] + s[1..] == s;
    }
  }

  /**
   * Every byte sequence strict decoding accepts is the encoding of what it
   * decodes to, so no overlong form, and no other second spelling of a
   * character, gets through.
   */
  lemma {:induction false} EncodeDecode(b: seq<byte>)
    requires Decode(b).Some?
    ensures Encode(Decode(b).value) == b
    decreases |b|
  {
    if b != [] {
      var k := DecodeStep(b);
      EncodeDecodeChar(b);
      EncodeDecode(b[k..]);
      Reassemble(Decode(b).value, b, k);
    }
  }

  lemma Reassemble(s: string, b: seq<byte>, k: nat)
    requires s != [] && k <= |b|
    requires EncodeChar(s[0]) == b[..k] && Encode(s[1..]) == b[k..]
    ensures Encode(s) == b
  {
    assert b == b[..k] + b[k..];
  }

  /** A decoded text is its first character followed by the decoding of the bytes after it. */
  lemma DecodeStep(b: seq<byte>) returns (k: nat)
    requires b != [] && Decode(b).Some?
    ensures DecodeChar(b).Some? && k == DecodeChar(b).value.1 && k <= |b|
    ensures Decode(b[k..]).Some?
    ensures Decode(b).value != [] && Decode(b).value[0] == DecodeChar(b).value.0
    ensures Decode(b).value[1..] == Decode(b[k..]).value
  {
    k := DecodeChar(b).value.1;
    assert Decode(b).value == [DecodeChar(b).value.0] + Decode(b[k..]).value;
  }

  /** The bytes one decoded character took are that character's encoding. */
  lemma EncodeDecodeChar(b: seq<byte>)
    requires b != [] && DecodeChar(b).Some?
    ensures EncodeChar(DecodeChar(b).value.0) == b[..DecodeChar(b).value.1]
  {
    var b0 := b[0] as int;
    if b0 < 0x80 {
    } else if b0 <= 0xDF {
      ReencodeTwo(b);
    } else if b0 <= 0xEF {
      ReencodeThree(b);
    } else {
      ReencodeFour(b);
    }
  }

  lemma ReencodeTwo(b: seq<byte>)
    requires b != [] && DecodeChar(b).Some? && 0x80 <= b[0] <= 0xDF
    ensures EncodeChar(DecodeChar(b).value.0) == b[..2]
  {
    var b0 := b[0] as int;
    var n := (b0 - 0xC0) * 64 + (b[1] as int - 0x80);
    assert DecodeChar(b).value.0 as int == n;
    Split64(b0 - 0xC0, b[1] as int - 0x80);
    assert EncodeChar(n as char) == [b[0], b[1]];
  }

  lemma ReencodeThree(b: seq<byte>)
    requires b != [] && DecodeChar(b).Some? && 0xE0 <= b[0] <= 0xEF
    ensures EncodeChar(DecodeChar(b).value.0) == b[..3]
  {
    var b0 := b[0] as int;
    var t := (b0 - 0xE0) * 64 + (b[1] as int - 0x80);
    var n := t * 64 + (b[2] as int - 0x80);
    assert DecodeChar(b).value.0 as int == n;
    Split64(t, b[2] as int - 0x80);
    Split64(b0 - 0xE0, b[1] as int - 0x80);
    assert n / 4096 == b0 - 0xE0;
    assert EncodeChar(n as char) == [b[0], b[1], b[2]];
  }

  lemma ReencodeFour(b: seq<byte>)
    requires b != [] && DecodeChar(b).Some? && 0xF0 <= b[0]
    ensures EncodeChar(DecodeChar(b).value.0) == b[..4]
  {
    var b0 := b[0] as int;
    var t := (b0 - 0xF0) * 64 + (b[1] as int - 0x80);
    var u := t * 64 + (b[2] as int - 0x80);
    var n := u * 64 + (b[3] as int - 0x80);
    assert DecodeChar(b).value.0 as int == n;
    Split64(u, b[3] as int - 0x80);
    Split64(t, b[2] as int - 0x80);
    Split64(b0 - 0xF0, b[1] as int - 0x80);
    assert n / 4096 == t;
    assert n / 262144 == b0 - 0xF0;
    assert EncodeChar(n as char) == [b[0], b[1], b[2], b[3]];
  }

  lemma Split64(q: int, r: int)
    requires 0 <= q && 0 <= r < 64
    ensures (q * 64 + r) / 64 == q && (q * 64 + r) % 64 == r
  {
  }

  /** A continuation byte can never start a character. */
  lemma StrayContinuation(b: seq<byte>)
    requires b != [] && IsContinuation(b[0])
    ensures DecodeChar(b) == None && Decode(b) == None
  {
  }
}
