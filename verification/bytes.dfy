/** Bytes, SHA-256 digests and their lowercase hex form. */
module Bytes {

  type byte = x: int | 0 <= x < 256

  /** A SHA-256 digest: exactly 32 bytes. */
  type Digest = s: seq<byte> | |s| == 32 witness seq(32, _ => 0)

  /** SHA-256 (FIPS 180-4) is foreign code: every operation that hashes takes
      the hash function as a parameter of this type and assumes nothing about
      it beyond the digest length. */
  type Sha256 = seq<byte> -> Digest

  /** The hash gives different digests for `a` and `b` whenever they differ:
      collision freedom on the two inputs at hand only. */
  predicate NoCollision(sha256: Sha256, a: seq<byte>, b: seq<byte>) {
    a != b ==> sha256(a) != sha256(b)
  }

  predicate IsLowerHexDigit(c: char) {
    '0' <= c <= '9' || 'a' <= c <= 'f'
  }

  predicate IsLowerHex(s: string) {
    forall i :: 0 <= i < |s| ==> IsLowerHexDigit(s[i])
  }

  /** The digit for a value below 16, lowercase as Python writes it. */
  function HexDigit(d: nat): (c: char)
    requires d < 16
    ensures IsLowerHexDigit(c)
  {
    if d < 10 then ('0' as int + d) as char else ('a' as int + d - 10) as char
  }

  function HexOfByte(b: byte): string {
    [HexDigit(b / 16), HexDigit(b % 16)]
  }

  /** Python's `bytes.hex()` / `hexdigest()`: two lowercase hex digits per byte. */
  function Hex(bs: seq<byte>): (h: string)
    ensures |h| == 2 * |bs|
    ensures IsLowerHex(h)
  {
    if bs == [] then [] else HexOfByte(bs[0]) + Hex(bs[1..])
  }

  function HexValue(c: char): nat
    ensures HexValue(c) < 16
  {
    if '0' <= c <= '9' then c as nat - '0' as nat
    else if 'a' <= c <= 'f' then c as nat - 'a' as nat + 10
    else 0
  }

  function Unhex(h: string): seq<byte>
  {
    if |h| < 2 then [] else [(HexValue(h[0]) * 16 + HexValue(h[1])) as byte] + Unhex(h[2..])
  }

  lemma HexOfByteValue(b: byte)
    ensures HexValue(HexOfByte(b)[0]) * 16 + HexValue(HexOfByte(b)[1]) == b
  {
  }

  /** Reading the hex text back gives the bytes: the hex form loses nothing. */
  lemma {:induction false} UnhexHex(bs: seq<byte>)
    ensures Unhex(Hex(bs)) == bs
  {
    if bs != [] {
      HexOfByteValue(bs[0]);
      assert Hex(bs)[2..] == Hex(bs[1..]);
      UnhexHex(bs[1..]);
    }
  }

  lemma HexInjective(a: seq<byte>, b: seq<byte>)
    ensures Hex(a) == Hex(b) ==> a == b
  {
    UnhexHex(a);
    UnhexHex(b);
  }

  const DigestPrefix: string := "sha256:"

  /** `"sha256:" + digest.hex()`: the form content ids and Merkle roots take,
      71 characters. */
  function DigestId(d: Digest): (id: string)
    ensures |id| == 71
    ensures id[..7] == DigestPrefix
    ensures IsLowerHex(id[7..])
    ensures id[7..] == Hex(d)
  {
    DigestPrefix + Hex(d)
  }

  /** Different digests give different ids. */
  lemma DigestIdInjective(a: Digest, b: Digest)
    ensures DigestId(a) == DigestId(b) ==> a == b
  {
    HexInjective(a, b);
  }
}
