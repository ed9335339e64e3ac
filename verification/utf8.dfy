/** UTF-8, the encoding `TextEncoder.encode` applies to the commitment
    message before it is hashed. Strings are sequences of Unicode scalar
    values, so every character has exactly one encoding. */
module Utf8 {
  import opened Common
  import opened Hex

  predicate IsContinuation(b: byte) {
    0x80 <= b < 0xC0
  }

  /** The one- to four-byte encoding of a scalar value `v`, with the 6-bit
      groups taken by repeated division by 64. */
  function EncodeChar(c: char): (r: seq<byte>)
    ensures 1 <= |r| <= 4
    ensures |r| == 1 <==> c as int < 0x80
  {
    var v := c as int;
    var q1 := v / 64;
    var q2 := q1 / 64;
    if v < 0x80 then [v as byte]
    else if v < 0x800 then [(0xC0 + q1) as byte, (0x80 + v % 64) as byte]
    else if v < 0x10000 then [(0xE0 + q2) as byte, (0x80 + q1 % 64) as byte, (0x80 + v % 64) as byte]
    else [(0xF0 + q2 / 64) as byte, (0x80 + q2 % 64) as byte, (0x80 + q1 % 64) as byte, (0x80 + v % 64) as byte]
  }

  /** `TextEncoder.prototype.encode`. */
  function Encode(s: string): (r: seq<byte>)
    ensures |r| >= |s|
  {
    if |s| == 0 then [] else EncodeChar(s[0]) + Encode(s[1..])
  }

  /** A decoded scalar value together with the number of bytes it used. */
  function Scalar(v: int, width: nat): (r: Option<(char, nat)>)
    ensures r.Some? ==> r.value.0 as int == v && r.value.1 == width
  {
    if 0 <= v < 0xD800 || 0xE000 <= v < 0x110000 then Some((v as char, width)) else None
  }

  /** Decodes the character at the front of `b`. */
  function DecodeFirst(b: seq<byte>): (r: Option<(char, nat)>)
    ensures r.Some? ==> 1 <= r.value.1 <= |b|
  {
    if |b| == 0 then None
    else
      var b0 := b[0] as int;
      if b0 < 0x80 then Scalar(b0, 1)
      else if 0xC0 <= b0 < 0xE0 && |b| >= 2 && IsContinuation(b[1]) then
        Scalar((b0 - 0xC0) * 64 + (b[1] as int - 0x80), 2)
      else if 0xE0 <= b0 < 0xF0 && |b| >= 3 && IsContinuation(b[1]) && IsContinuation(b[2]) then
        Scalar(((b0 - 0xE0) * 64 + (b[1] as int - 0x80)) * 64 + (b[2] as int - 0x80), 3)
      else if 0xF0 <= b0 < 0xF8 && |b| >= 4 && IsContinuation(b[1]) && IsContinuation(b[2])
              && IsContinuation(b[3]) then
        Scalar((((b0 - 0xF0) * 64 + (b[1] as int - 0x80)) * 64 + (b[2] as int - 0x80)) * 64
                 + (b[3] as int - 0x80), 4)
      else None
  }

  /** Decodes a whole byte sequence; the inverse of `Encode`. */
  function Decode(b: seq<byte>): (r: Option<string>)
    decreases |b|
  {
    if |b| == 0 then Some([])
    else
      match DecodeFirst(b)
      case None => None
      case Some((c, k)) =>
        match Decode(b[k..])
        case None => None
        case Some(rest) => Some([c] + rest)
  }

  lemma DecodeFirstEncodeChar(c: char, rest: seq<byte>)
    ensures DecodeFirst(EncodeChar(c) + rest) == Some((c, |EncodeChar(c)|))
  {
    var v := c as int;
    var q1 := v / 64;
    var q2 := q1 / 64;
    var b := EncodeChar(c) + rest;
    assert v == q1 * 64 + v % 64;
    assert q1 == q2 * 64 + q1 % 64;
    if v < 0x80 {
    } else if v < 0x800 {
      assert b[0] as int == 0xC0 + q1;
    } else if v < 0x10000 {
      assert b[0] as int == 0xE0 + q2;
    } else {
      assert q2 == (q2 / 64) * 64 + q2 % 64;
      assert b[0] as int == 0xF0 + q2 / 64;
    }
  }

  /** Decoding an encoding gives the string back, so `Encode` is injective. */
  lemma {:induction false} DecodeEncode(s: string)
    ensures Decode(Encode(s)) == Some(s)
  {
    if |s| > 0 {
      var head := EncodeChar(s[0]);
      var tail := Encode(s[1..]);
      DecodeFirstEncodeChar(s[0], tail);
      assert (head + tail)[|head|..] == tail;
      DecodeEncode(s[1..]);
      assert [s[0]] + s[1..] == s;
    }
  }

  lemma EncodeInjective(a: string, b: string)
    requires Encode(a) == Encode(b)
    ensures a == b
  {
    DecodeEncode(a);
    DecodeEncode(b);
  }

  /** Characters below U+0080 are single bytes equal to their code point, so
      an ASCII message (digits, `-`, `:`, hex) is encoded byte for byte. */
  lemma {:induction false} EncodeAscii(s: string)
    requires forall i :: 0 <= i < |s| ==> s[i] as int < 0x80
    ensures |Encode(s)| == |s|
    ensures forall i :: 0 <= i < |s| ==> Encode(s)[i] as int == s[i] as int
  {
    if |s| > 0 {
      EncodeAscii(s[1..]);
    }
  }
}
