/** Lower-case hexadecimal encoding of byte arrays, as the browser client
    writes salts and SHA-256 digests:
    `Array.from(bytes, b => b.toString(16).padStart(2, '0')).join('')`. */
module Hex {
  import opened Common

  /** An element of a `Uint8Array`. */
  newtype byte = x: int | 0 <= x < 256

  /** Lower-case hexadecimal digit of a value below 16. */
  function DigitChar(d: int): (c: char)
    requires 0 <= d < 16
    ensures '0' <= c <= '9' || 'a' <= c <= 'f'
  {
    if d < 10 then ('0' as int + d) as char else ('a' as int + d - 10) as char
  }

  predicate IsHexChar(c: char) {
    '0' <= c <= '9' || 'a' <= c <= 'f'
  }

  /** Value of a lower-case hexadecimal digit; the inverse of `DigitChar`. */
  function DigitValue(c: char): (d: Option<int>)
    ensures d.Some? <==> IsHexChar(c)
    ensures d.Some? ==> 0 <= d.value < 16 && DigitChar(d.value) == c
  {
    if '0' <= c <= '9' then Some(c as int - '0' as int)
    else if 'a' <= c <= 'f' then Some(c as int - 'a' as int + 10)
    else None
  }

  /** `Number.prototype.toString(16)` on a non-negative integer: the
      shortest digit string, "0" for zero. */
  function ToRadix16(n: nat): (s: string)
    decreases n
  {
    if n < 16 then [DigitChar(n)] else ToRadix16(n / 16) + [DigitChar(n % 16)]
  }

  /** `String.prototype.padStart(width, fill)`. */
  function PadStart(s: string, width: nat, fill: char): (r: string)
    ensures |r| == if |s| >= width then |s| else width
    ensures r[|r| - |s|..] == s
    ensures forall i :: 0 <= i < |r| - |s| ==> r[i] == fill
  {
    if |s| >= width then s else seq(width - |s|, _ => fill) + s
  }

  /** One byte as the client writes it: `b.toString(16).padStart(2, '0')`. */
  function ByteHex(b: byte): string {
    PadStart(ToRadix16(b as nat), 2, '0')
  }

  /** Every byte becomes exactly two digits, high nibble first; bytes below 16
      get a leading zero. */
  lemma ByteHexDigits(b: byte)
    ensures ByteHex(b) == [DigitChar(b as int / 16), DigitChar(b as int % 16)]
    ensures b < 16 ==> ByteHex(b)[0] == '0'
  {
    if b < 16 {
      assert ToRadix16(b as nat) == [DigitChar(b as int)];
    } else {
      assert ToRadix16(b as nat / 16) == [DigitChar(b as int / 16)];
    }
  }

  /** The joined two-digit encodings of every byte. */
  function Encode(bs: seq<byte>): (s: string)
    ensures |s| == 2 * |bs|
  {
    if |bs| == 0 then ""
    else
      ByteHexDigits(bs[0]);
      ByteHex(bs[0]) + Encode(bs[1..])
  }

  /** Reads pairs of lower-case hex digits back into bytes; the inverse of `Encode`. */
  function Decode(s: string): (r: Option<seq<byte>>)
    ensures r.Some? ==> 2 * |r.value| == |s|
  {
    if |s| == 0 then Some([])
    else if |s| == 1 then None
    else
      match (DigitValue(s[0]), DigitValue(s[1]), Decode(s[2..]))
      case (Some(hi), Some(lo), Some(rest)) => Some([(hi * 16 + lo) as byte] + rest)
      case _ => None
  }

  predicate IsLowerHex(s: string) {
    forall i :: 0 <= i < |s| ==> IsHexChar(s[i])
  }

  lemma DigitRoundTrip(d: int)
    requires 0 <= d < 16
    ensures DigitValue(DigitChar(d)) == Some(d)
  {
  }

  /** An encoding starts with the two digits of its first byte. */
  lemma EncodeCons(bs: seq<byte>)
    requires |bs| > 0
    ensures Encode(bs) == [DigitChar(bs[0] as int / 16), DigitChar(bs[0] as int % 16)] + Encode(bs[1..])
  {
    ByteHexDigits(bs[0]);
  }

  /** Decoding reads the two digits in front, then the rest. */
  lemma DecodeStep(hi: int, lo: int, rest: string)
    requires 0 <= hi < 16 && 0 <= lo < 16
    ensures Decode([DigitChar(hi), DigitChar(lo)] + rest) ==
              match Decode(rest)
              case Some(r) => Some([(hi * 16 + lo) as byte] + r)
              case None => None
  {
    var s := [DigitChar(hi), DigitChar(lo)] + rest;
    assert s[2..] == rest;
    DigitRoundTrip(hi);
    DigitRoundTrip(lo);
  }

  /** Decoding an encoding gives the bytes back, so `Encode` is injective. */
  lemma {:induction false} DecodeEncode(bs: seq<byte>)
    ensures Decode(Encode(bs)) == Some(bs)
  {
    if |bs| > 0 {
      var hi, lo := bs[0] as int / 16, bs[0] as int % 16;
      EncodeCons(bs);
      DecodeStep(hi, lo, Encode(bs[1..]));
      DecodeEncode(bs[1..]);
      assert (hi * 16 + lo) as byte == bs[0];
      assert [bs[0]] + bs[1..] == bs;
    }
  }

  /** The encoding uses only lower-case hex digits. */
  lemma {:induction false} EncodeIsLowerHex(bs: seq<byte>)
    ensures IsLowerHex(Encode(bs))
  {
    if |bs| > 0 {
      EncodeCons(bs);
      EncodeIsLowerHex(bs[1..]);
      var head := [DigitChar(bs[0] as int / 16), DigitChar(bs[0] as int % 16)];
      assert IsLowerHex(head);
      ConcatLowerHex(head, Encode(bs[1..]));
    }
  }

  lemma ConcatLowerHex(a: string, b: string)
    requires IsLowerHex(a) && IsLowerHex(b)
    ensures IsLowerHex(a + b)
  {
  }

  lemma EncodeInjective(a: seq<byte>, b: seq<byte>)
    requires Encode(a) == Encode(b)
    ensures a == b
  {
    DecodeEncode(a);
    DecodeEncode(b);
  }
}
