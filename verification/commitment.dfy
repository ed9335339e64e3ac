/** The client-side commitment scheme: a random salt, the message
    `number:salt`, its SHA-256 digest as lower-case hex, and verification by
    recomputation. SHA-256 itself is a parameter `digest`. */
module Commitment {
  import opened Common
  import Text
  import Hex
  import Decimal
  import Utf8

  /** The hash function (`crypto.subtle.digest('SHA-256', …)`). */
  type Digest = seq<Hex.byte> -> seq<Hex.byte>

  /** The idealised collision resistance a commitment relies on. */
  ghost predicate CollisionFree(digest: Digest) {
    forall a, b :: digest(a) == digest(b) ==> a == b
  }

  /** `generateSalt`: the 16 bytes from `crypto.getRandomValues`, written as
      32 lower-case hex digits that decode back to those bytes. */
  function GenerateSalt(random: seq<Hex.byte>): (salt: string)
    requires |random| == 16
    ensures |salt| == 32
    ensures Hex.IsLowerHex(salt)
    ensures Hex.Decode(salt) == Some(random)
  {
    Hex.EncodeIsLowerHex(random);
    Hex.DecodeEncode(random);
    Hex.Encode(random)
  }

  /** The committed message: the number in decimal, a colon, the salt. */
  function Message(number: int, salt: string): string {
    Decimal.ToDecimal(number) + ":" + salt
  }

  /** Splits a message at its first colon; the inverse of `Message`. */
  function SplitMessage(m: string): Option<(int, string)> {
    match Text.IndexOf(m, ':')
    case None => None
    case Some(i) =>
      match Decimal.ParseDecimal(m[..i])
      case None => None
      case Some(n) => Some((n, m[i + 1..]))
  }

  /** The number part never contains a colon, so the first colon of a
      message separates number and salt and both are recovered. */
  lemma SplitMessageRoundTrip(number: int, salt: string)
    ensures SplitMessage(Message(number, salt)) == Some((number, salt))
  {
    var d := Decimal.ToDecimal(number);
    var m := Message(number, salt);
    Decimal.ToDecimalHasNoColon(number);
    assert m[|d|] == ':';
    assert forall j :: 0 <= j < |d| ==> m[j] == d[j];
    assert Text.IndexOf(m, ':') == Some(|d|);
    assert m[..|d|] == d;
    assert m[|d| + 1..] == salt;
    Decimal.ParseToDecimal(number);
  }

  /** Distinct `(number, salt)` pairs give distinct messages. */
  lemma MessageInjective(n1: int, s1: string, n2: int, s2: string)
    requires Message(n1, s1) == Message(n2, s2)
    ensures n1 == n2 && s1 == s2
  {
    SplitMessageRoundTrip(n1, s1);
    SplitMessageRoundTrip(n2, s2);
  }

  /** `hashCommitment(number, salt)`: hex of the digest of the UTF-8 message. */
  function HashCommitment(digest: Digest, number: int, salt: string): (h: string)
    ensures |h| == 2 * |digest(Utf8.Encode(Message(number, salt)))|
    ensures Hex.IsLowerHex(h)
  {
    Hex.EncodeIsLowerHex(digest(Utf8.Encode(Message(number, salt))));
    Hex.Encode(digest(Utf8.Encode(Message(number, salt))))
  }

  /** A 256-bit digest gives a 64-character commitment. */
  lemma Sha256CommitmentLength(digest: Digest, number: int, salt: string)
    requires forall m :: |digest(m)| == 32
    ensures |HashCommitment(digest, number, salt)| == 64
  {
  }

  /** `verifyCommitment`: recompute and compare. */
  function VerifyCommitment(digest: Digest, number: int, salt: string, expected: string): bool {
    HashCommitment(digest, number, salt) == expected
  }

  /** An honest reveal always verifies. */
  lemma VerifyAcceptsOwnCommitment(digest: Digest, number: int, salt: string)
    ensures VerifyCommitment(digest, number, salt, HashCommitment(digest, number, salt))
  {
  }

  /** Binding: with a collision-free digest, a commitment opens to exactly one
      `(number, salt)` pair. */
  lemma CommitmentBinding(digest: Digest, n1: int, s1: string, n2: int, s2: string)
    requires CollisionFree(digest)
    requires HashCommitment(digest, n1, s1) == HashCommitment(digest, n2, s2)
    ensures n1 == n2 && s1 == s2
  {
    var m1 := Utf8.Encode(Message(n1, s1));
    var m2 := Utf8.Encode(Message(n2, s2));
    Hex.EncodeInjective(digest(m1), digest(m2));
    Utf8.EncodeInjective(Message(n1, s1), Message(n2, s2));
    MessageInjective(n1, s1, n2, s2);
  }

  /** A player 1 who committed to `number` cannot open the commitment to any
      other number, whatever salt they present. */
  lemma VerifyRejectsOtherNumber(digest: Digest, number: int, salt: string, other: int, otherSalt: string)
    requires CollisionFree(digest)
    requires other != number
    ensures !VerifyCommitment(digest, other, otherSalt, HashCommitment(digest, number, salt))
  {
    if VerifyCommitment(digest, other, otherSalt, HashCommitment(digest, number, salt)) {
      CommitmentBinding(digest, other, otherSalt, number, salt);
    }
  }
}
