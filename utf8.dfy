/**
 * UTF-8 as defined in section 4 of RFC 3629: the encoding Rust uses for
 * `String::into_bytes` and the validation `String::from_utf8` performs.
 * A `char` here is a Unicode scalar value (0..0xD7FF or 0xE000..0x10FFFF).
 */
module Utf8 {
  import opened Common

  predicate IsContinuation(b: Byte) {
    0x80 <= b <= 0xBF
  }

  /** The bytes that encode one scalar value. */
  function EncodeChar(c: char): (r: seq<Byte>)
    ensures 1 <= |r| <= 4
  {
    var n := c as int;
    if n < 0x80 then
      [n]
    else if n < 0x800 then
      [0xC0 + n / 64, 0x80 + n % 64]
    else if n < 0x1_0000 then
      [0xE0 + n / 4096, 0x80 + (n / 64) % 64, 0x80 + n % 64]
    else
      [0xF0 + n / 262144, 0x80 + (n / 4096) % 64, 0x80 + (n / 64) % 64, 0x80 + n % 64]
  }

  function Encode(s: string): (r: seq<Byte>)
    ensures |s| <= |r| <= 4 * |s|
  {
    if s == [] then [] else EncodeChar(s[0]) + Encode(s[1..])
  }

  /**
   * Decodes the first scalar value of `b`, following the table of well-formed
   * byte sequences in section 4 of RFC 3629 (no overlong forms, no surrogates,
   * nothing above 0x10FFFF); returns the value and the number of bytes used.
   */
  function DecodeFirst(b: seq<Byte>): (r: Option<(char, nat)>)
    requires |b| > 0
    ensures r.Some? ==> 1 <= r.value.1 <= |b|
  {
    var b0: int := b[0];
    if b0 < 0x80 then
      Some((b0 as char, 1))
    else if 0xC2 <= b0 <= 0xDF then
      if |b| >= 2 && IsContinuation(b[1]) then
        Some((((b0 - 0xC0) * 64 + (b[1] as int - 0x80)) as char, 2))
      else None
    else if 0xE0 <= b0 <= 0xEF then
      var lo := if b0 == 0xE0 then 0xA0 else 0x80;
      var hi := if b0 == 0xED then 0x9F else 0xBF;
      if |b| >= 3 && lo <= b[1] <= hi && IsContinuation(b[2]) then
        Some((((b0 - 0xE0) * 4096 + (b[1] as int - 0x80) * 64 + (b[2] as int - 0x80)) as char, 3))
      else None
    else if 0xF0 <= b0 <= 0xF4 then
      var lo := if b0 == 0xF0 then 0x90 else 0x80;
      var hi := if b0 == 0xF4 then 0x8F else 0xBF;
      if |b| >= 4 && lo <= b[1] <= hi && IsContinuation(b[2]) && IsContinuation(b[3]) then
        Some((((b0 - 0xF0) * 262144 + (b[1] as int - 0x80) * 4096 + (b[2] as int - 0x80) * 64 + (b[3] as int - 0x80)) as char, 4))
      else None
    else
      None
  }

  /** `String::from_utf8`: the decoded text, or `None` for ill-formed input. */
  function Decode(b: seq<Byte>): (r: Option<string>)
    ensures r.Some? ==> |r.value| <= |b|
    decreases |b|
  {
    if b == [] then Some([])
    else
      match DecodeFirst(b)
      case None => None
      case Some((c, n)) =>
        match Decode(b[n..])
        case None => None
        case Some(rest) => Some([c] + rest)
  }

  lemma DivMod64(q: int, m: int)
    requires 0 <= m < 64
    ensures (q * 64 + m) / 64 == q && (q * 64 + m) % 64 == m
  {
  }

  /** The first scalar value of an encoding decodes back from its own bytes. */
  lemma DecodeFirstEncodeChar(c: char, rest: seq<Byte>)
    ensures DecodeFirst(EncodeChar(c) + rest) == Some((c, |EncodeChar(c)|))
  {
    var n := c as int;
    if n < 0x80 {
    } else if n < 0x800 {
      DecodeFirstTwo(c, rest);
    } else if n < 0x1_0000 {
      DecodeFirstThree(c, rest);
    } else {
      DecodeFirstFour(c, rest);
    }
  }

  lemma DecodeFirstTwo(c: char, rest: seq<Byte>)
    requires 0x80 <= c as int < 0x800
    ensures DecodeFirst(EncodeChar(c) + rest) == Some((c, 2))
  {
    var n := c as int;
    var b := EncodeChar(c) + rest;
    assert b[0] == 0xC0 + n / 64 && b[1] == 0x80 + n % 64;
    assert n == (n / 64) * 64 + n % 64;
  }

  lemma DecodeFirstThree(c: char, rest: seq<Byte>)
    requires 0x800 <= c as int < 0x1_0000
    ensures DecodeFirst(EncodeChar(c) + rest) == Some((c, 3))
  {
    var n := c as int;
    var b := EncodeChar(c) + rest;
    var q := n / 64;
    var hi := n / 4096;
    assert b[0] == 0xE0 + hi && b[1] == 0x80 + q % 64 && b[2] == 0x80 + n % 64;
    assert n == q * 64 + n % 64;
    assert q == hi * 64 + q % 64;
    assert hi == 0 ==> q % 64 >= 32;
    assert hi == 13 ==> q % 64 < 32;
    assert n == hi * 4096 + (q % 64) * 64 + n % 64;
  }

  lemma DecodeFirstFour(c: char, rest: seq<Byte>)
    requires 0x1_0000 <= c as int
    ensures DecodeFirst(EncodeChar(c) + rest) == Some((c, 4))
  {
    var n := c as int;
    var b := EncodeChar(c) + rest;
    var q := n / 64;
    var p := n / 4096;
    var hi := n / 262144;
    assert b[0] == 0xF0 + hi && b[1] == 0x80 + p % 64 && b[2] == 0x80 + q % 64 && b[3] == 0x80 + n % 64;
    assert n == q * 64 + n % 64;
    assert q == p * 64 + q % 64;
    assert p == hi * 64 + p % 64;
    assert hi == 0 ==> p % 64 >= 16;
    assert hi == 4 ==> p % 64 < 16;
    assert n == hi * 262144 + (p % 64) * 4096 + (q % 64) * 64 + n % 64;
  }

  /** Decoding the encoding of a string gives the string back. */
  lemma {:induction false} DecodeEncode(s: string)
    ensures Decode(Encode(s)) == Some(s)
  {
    if s != [] {
      var e := EncodeChar(s[0]);
      DecodeFirstEncodeChar(s[0], Encode(s[1..]));
      assert (e + Encode(s[1..]))[|e|..] == Encode(s[1..]);
      DecodeEncode(s[1..]);
      assert [s[0]] + s[1..] == s;
    }
  }

  /** A scalar value that decodes from a prefix is encoded as exactly that prefix. */
  lemma EncodeCharDecodeFirst(b: seq<Byte>)
    requires |b| > 0 && DecodeFirst(b).Some?
    ensures EncodeChar(DecodeFirst(b).value.0) == b[..DecodeFirst(b).value.1]
  {
    var b0: int := b[0];
    if b0 < 0x80 {
    } else if b0 <= 0xDF {
      DivMod64(b0 - 0xC0, b[1] as int - 0x80);
    } else if b0 <= 0xEF {
      var q := (b0 - 0xE0) * 64 + (b[1] as int - 0x80);
      DivMod64(q, b[2] as int - 0x80);
      DivMod64(b0 - 0xE0, b[1] as int - 0x80);
      assert (b0 - 0xE0) * 4096 + (b[1] as int - 0x80) * 64 + (b[2] as int - 0x80) == q * 64 + (b[2] as int - 0x80);
    } else {
      var p := (b0 - 0xF0) * 64 + (b[1] as int - 0x80);
      var q := p * 64 + (b[2] as int - 0x80);
      DivMod64(q, b[3] as int - 0x80);
      DivMod64(p, b[2] as int - 0x80);
      DivMod64(b0 - 0xF0, b[1] as int - 0x80);
      var n := q * 64 + (b[3] as int - 0x80);
      assert (b0 - 0xF0) * 262144 + (b[1] as int - 0x80) * 4096 + (b[2] as int - 0x80) * 64 + (b[3] as int - 0x80) == n;
      assert n / 4096 == p by {
        assert n / 64 == q;
      }
      assert n / 262144 == b0 - 0xF0 by {
        assert n / 4096 == p;
      }
    }
  }

  /** Every well-formed byte sequence is the encoding of what it decodes to. */
  lemma {:induction false} EncodeDecode(b: seq<Byte>)
    requires Decode(b).Some?
    ensures Encode(Decode(b).value) == b
    decreases |b|
  {
    if b != [] {
      var (c, n) := DecodeFirst(b).value;
      EncodeCharDecodeFirst(b);
      EncodeDecode(b[n..]);
      var s := Decode(b).value;
      assert s == [c] + Decode(b[n..]).value;
      assert s[1..] == Decode(b[n..]).value;
      assert b == b[..n] + b[n..];
    }
  }
}
