/** UTF-8, as Node's `Buffer` uses it: `Buffer.byteLength(s)` is the length of
    the UTF-8 encoding of `s`, and `buf.toString()` reads a buffer as UTF-8.
    Characters are Unicode scalar values, so every string has an encoding. */
module Utf8 {
  import opened Optional

  type byte = x: int | 0 <= x < 0x100

  predicate IsContinuation(b: byte)
  {
    0x80 <= b < 0xC0
  }

  /** The encoding of one character: one to four bytes by the character's range. */
  function EncodeChar(c: char): (bs: seq<byte>)
  {
    var n := c as int;
    if n < 0x80 then [n]
    else if n < 0x800 then [0xC0 + n / 0x40, 0x80 + n % 0x40]
    else if n < 0x1_0000 then [0xE0 + n / 0x1000, 0x80 + (n / 0x40) % 0x40, 0x80 + n % 0x40]
    else [0xF0 + n / 0x4_0000, 0x80 + (n / 0x1000) % 0x40, 0x80 + (n / 0x40) % 0x40, 0x80 + n % 0x40]
  }

  /** The UTF-8 encoding of a whole string. */
  function Encode(s: string): seq<byte>
    decreases |s|
  {
    if |s| == 0 then [] else EncodeChar(s[0]) + Encode(s[1..])
  }

  /** The first character of a well-formed UTF-8 byte sequence and the number of
      bytes it takes, or `None` when the sequence does not start with a
      well-formed character (a stray continuation byte, an overlong form,
      an encoded surrogate, a value past U+10FFFF or a truncated character). */
  function DecodeFirst(bs: seq<byte>): (r: Option<(char, nat)>)
    ensures r.Some? ==> 1 <= r.value.1 <= 4 && r.value.1 <= |bs|
  {
    if |bs| == 0 then None
    else
      var b0 := bs[0] as int;
      if b0 < 0x80 then Some((b0 as char, 1))
      else if 0xC2 <= b0 <= 0xDF then
        if |bs| >= 2 && IsContinuation(bs[1]) then
          var n := (b0 - 0xC0) * 0x40 + (bs[1] as int - 0x80);
          Some((n as char, 2))
        else None
      else if 0xE0 <= b0 <= 0xEF then
        var lo := if b0 == 0xE0 then 0xA0 else 0x80;
        var hi := if b0 == 0xED then 0x9F else 0xBF;
        if |bs| >= 3 && lo <= bs[1] as int <= hi && IsContinuation(bs[2]) then
          var n := (b0 - 0xE0) * 0x1000 + (bs[1] as int - 0x80) * 0x40 + (bs[2] as int - 0x80);
          Some((n as char, 3))
        else None
      else if 0xF0 <= b0 <= 0xF4 then
        var lo := if b0 == 0xF0 then 0x90 else 0x80;
        var hi := if b0 == 0xF4 then 0x8F else 0xBF;
        if |bs| >= 4 && lo <= bs[1] as int <= hi && IsContinuation(bs[2]) && IsContinuation(bs[3]) then
          var n := (b0 - 0xF0) * 0x4_0000 + (bs[1] as int - 0x80) * 0x1000
                 + (bs[2] as int - 0x80) * 0x40 + (bs[3] as int - 0x80);
          Some((n as char, 4))
        else None
      else None
  }

  /** The string a well-formed UTF-8 byte sequence encodes, or `None` when it is not well-formed. */
  function Decode(bs: seq<byte>): Option<string>
    decreases |bs|
  {
    if |bs| == 0 then Some("")
    else
      match DecodeFirst(bs)
      case None => None
      case Some((c, w)) =>
        match Decode(bs[w..])
        case None => None
        case Some(rest) => Some([c] + rest)
  }

  /** The encoder reads back through the decoder, character by character. */
  lemma DecodeEncodeChar(c: char, rest: seq<byte>)
    ensures DecodeFirst(EncodeChar(c) + rest) == Some((c, |EncodeChar(c)|))
  {
    var n := c as int;
    if n < 0x80 {
    } else if n < 0x800 {
      DecodeTwo(c, rest);
    } else if n < 0x1_0000 {
      DecodeThree(c, rest);
    } else {
      DecodeFour(c, rest);
    }
  }

  lemma DecodeTwo(c: char, rest: seq<byte>)
    requires 0x80 <= c as int < 0x800
    ensures DecodeFirst(EncodeChar(c) + rest) == Some((c, 2))
  {
    var n := c as int;
    var q, r := n / 0x40, n % 0x40;
    assert n == q * 0x40 + r && 2 <= q < 0x20;
    var bs := EncodeChar(c) + rest;
    assert bs[0] as int == 0xC0 + q && bs[1] as int == 0x80 + r;
  }

  lemma DecodeThree(c: char, rest: seq<byte>)
    requires 0x800 <= c as int < 0x1_0000
    ensures DecodeFirst(EncodeChar(c) + rest) == Some((c, 3))
  {
    var n := c as int;
    var q1, r1 := n / 0x40, n % 0x40;
    var q2, r2 := q1 / 0x40, q1 % 0x40;
    assert n == q1 * 0x40 + r1;
    assert q1 == q2 * 0x40 + r2;
    assert n / 0x1000 == q2;
    assert n == q2 * 0x1000 + r2 * 0x40 + r1;
    assert !(0xD800 <= n < 0xE000);
    var bs := EncodeChar(c) + rest;
    assert bs[0] as int == 0xE0 + q2 && bs[1] as int == 0x80 + r2 && bs[2] as int == 0x80 + r1;
  }

  lemma DecodeFour(c: char, rest: seq<byte>)
    requires 0x1_0000 <= c as int
    ensures DecodeFirst(EncodeChar(c) + rest) == Some((c, 4))
  {
    var n := c as int;
    assert n < 0x11_0000;
    var q1, r1 := n / 0x40, n % 0x40;
    var q2, r2 := q1 / 0x40, q1 % 0x40;
    var q3, r3 := q2 / 0x40, q2 % 0x40;
    assert n == q1 * 0x40 + r1;
    assert q1 == q2 * 0x40 + r2;
    assert q2 == q3 * 0x40 + r3;
    assert n / 0x1000 == q2;
    assert n / 0x4_0000 == q3;
    assert n == q3 * 0x4_0000 + r3 * 0x1000 + r2 * 0x40 + r1;
    var bs := EncodeChar(c) + rest;
    assert bs[0] as int == 0xF0 + q3 && bs[1] as int == 0x80 + r3;
    assert bs[2] as int == 0x80 + r2 && bs[3] as int == 0x80 + r1;
  }

  /** Decoding an encoding gives the string back. */
  lemma {:induction false} DecodeEncode(s: string)
    ensures Decode(Encode(s)) == Some(s)
    decreases |s|
  {
    if |s| > 0 {
      var e := EncodeChar(s[0]);
      DecodeEncodeChar(s[0], Encode(s[1..]));
      assert Encode(s)[|e|..] == Encode(s[1..]);
      DecodeEncode(s[1..]);
      assert s == [s[0]] + s[1..];
    }
  }

  /** The decoder accepts only canonical encodings: whatever it reads, the
      encoder writes back byte for byte. */
  lemma {:induction false} EncodeDecode(bs: seq<byte>)
    requires Decode(bs).Some?
    ensures Encode(Decode(bs).value) == bs
    decreases |bs|
  {
    if |bs| > 0 {
      var (c, w) := DecodeFirst(bs).value;
      EncodeDecodeChar(bs);
      EncodeDecode(bs[w..]);
      var s := Decode(bs).value;
      assert s[0] == c && s[1..] == Decode(bs[w..]).value;
      assert bs == bs[..w] + bs[w..];
    }
  }

  /** One decoded character re-encodes to exactly the bytes it was read from. */
  lemma EncodeDecodeChar(bs: seq<byte>)
    requires DecodeFirst(bs).Some?
    ensures EncodeChar(DecodeFirst(bs).value.0) == bs[..DecodeFirst(bs).value.1]
  {
    var w := DecodeFirst(bs).value.1;
    if w == 2 {
      EncodeTwo(bs);
    } else if w == 3 {
      EncodeThree(bs);
    } else if w == 4 {
      EncodeFour(bs);
    }
  }

  lemma DivMod64(n: int, q: int, r: int)
    requires n == q * 0x40 + r && 0 <= r < 0x40
    ensures n / 0x40 == q && n % 0x40 == r
  {
  }

  lemma EncodeTwo(bs: seq<byte>)
    requires DecodeFirst(bs).Some? && DecodeFirst(bs).value.1 == 2
    ensures EncodeChar(DecodeFirst(bs).value.0) == bs[..2]
  {
    var n := DecodeFirst(bs).value.0 as int;
    DivMod64(n, bs[0] as int - 0xC0, bs[1] as int - 0x80);
  }

  lemma EncodeThree(bs: seq<byte>)
    requires DecodeFirst(bs).Some? && DecodeFirst(bs).value.1 == 3
    ensures EncodeChar(DecodeFirst(bs).value.0) == bs[..3]
  {
    var n := DecodeFirst(bs).value.0 as int;
    var q, r2, r1 := bs[0] as int - 0xE0, bs[1] as int - 0x80, bs[2] as int - 0x80;
    var q1 := q * 0x40 + r2;
    DivMod64(n, q1, r1);
    DivMod64(q1, q, r2);
    assert n / 0x1000 == q;
    var e := EncodeChar(DecodeFirst(bs).value.0);
    assert e == [0xE0 + q, 0x80 + r2, 0x80 + r1];
  }

  lemma EncodeFour(bs: seq<byte>)
    requires DecodeFirst(bs).Some? && DecodeFirst(bs).value.1 == 4
    ensures EncodeChar(DecodeFirst(bs).value.0) == bs[..4]
  {
    var n := DecodeFirst(bs).value.0 as int;
    var q, r3, r2, r1 := bs[0] as int - 0xF0, bs[1] as int - 0x80, bs[2] as int - 0x80, bs[3] as int - 0x80;
    var q2 := q * 0x40 + r3;
    var q1 := q2 * 0x40 + r2;
    DivMod64(n, q1, r1);
    DivMod64(q1, q2, r2);
    DivMod64(q2, q, r3);
    assert n / 0x1000 == q2;
    assert n / 0x4_0000 == q;
    var e := EncodeChar(DecodeFirst(bs).value.0);
    assert e == [0xF0 + q, 0x80 + r3, 0x80 + r2, 0x80 + r1];
  }

  /** Every character takes one to four bytes, so a string's byte length lies
      between its character count and four times that. */
  lemma {:induction false} EncodedLengthBounds(s: string)
    ensures |s| <= |Encode(s)| <= 4 * |s|
    decreases |s|
  {
    if |s| > 0 {
      EncodedLengthBounds(s[1..]);
    }
  }

  predicate IsAscii(s: string)
  {
    forall i :: 0 <= i < |s| ==> s[i] as int < 0x80
  }

  /** An ASCII string encodes to one byte per character, each byte its code. */
  lemma {:induction false} AsciiEncoding(s: string)
    requires IsAscii(s)
    ensures |Encode(s)| == |s|
    ensures forall i :: 0 <= i < |s| ==> Encode(s)[i] == s[i] as int
    decreases |s|
  {
    if |s| > 0 {
      AsciiEncoding(s[1..]);
      assert Encode(s) == [s[0] as int] + Encode(s[1..]);
    }
  }
}
