/** The Merkle root reference algorithm the test suite checks the library
    against: leaves are SHA-256 digests of the chunks, adjacent raw digests
    are hashed pairwise left to right (an odd last one with itself), and
    rounds repeat until one digest remains. */
module Merkle {
  import opened Bytes

  /** The leaf digests, one per chunk, in order. */
  function Leaves(chunks: seq<seq<byte>>, sha256: Sha256): (l: seq<Digest>)
    ensures |l| == |chunks|
    ensures forall i :: 0 <= i < |l| ==> l[i] == sha256(chunks[i])
  {
    if chunks == [] then [] else [sha256(chunks[0])] + Leaves(chunks[1..], sha256)
  }

  /** The partner of the digest at even position `i`: its right neighbour,
      or the digest itself when it is the last of an odd layer. */
  function Partner(layer: seq<Digest>, i: nat): Digest
    requires i < |layer|
  {
    if i + 1 < |layer| then layer[i + 1] else layer[i]
  }

  /** A parent node: the hash of its two children's raw digests, left first. */
  function Parent(left: Digest, right: Digest, sha256: Sha256): Digest {
    var both: seq<byte> := left + right;
    sha256(both)
  }

  /** One round: parent `k` is the hash of children `2k` and `2k+1`, left
      child first, over the raw 32-byte digests. */
  function NextLayer(layer: seq<Digest>, sha256: Sha256): (next: seq<Digest>)
    ensures |next| == (|layer| + 1) / 2
    ensures forall k :: 0 <= k < |next| ==>
      next[k] == Parent(layer[2 * k], Partner(layer, 2 * k), sha256)
    decreases |layer|
  {
    if |layer| == 0 then []
    else if |layer| == 1 then [Parent(layer[0], layer[0], sha256)]
    else
      var rest := NextLayer(layer[2..], sha256);
      assert forall k :: 1 <= k < 1 + |rest| ==> Partner(layer, 2 * k) == Partner(layer[2..], 2 * (k - 1));
      [Parent(layer[0], layer[1], sha256)] + rest
  }

  /** The single digest left once rounds have been applied to a non-empty layer. */
  function Root(layer: seq<Digest>, sha256: Sha256): Digest
    requires |layer| >= 1
    decreases |layer|
  {
    if |layer| == 1 then layer[0] else Root(NextLayer(layer, sha256), sha256)
  }

  /** `_manual_merkle(chunks)`. On no chunks it gives the id of `sha256(b"\x00")`. */
  function ReferenceRoot(chunks: seq<seq<byte>>, sha256: Sha256): (root: string)
    ensures |root| == 71 && root[..7] == DigestPrefix && IsLowerHex(root[7..])
  {
    if chunks == [] then DigestId(sha256([0]))
    else DigestId(Root(Leaves(chunks, sha256), sha256))
  }

  /** What the library's `merkle_root([])` must return: the id of `sha256(b"")`. */
  function EmptyMerkleRoot(sha256: Sha256): (root: string)
    ensures |root| == 71 && root[..7] == DigestPrefix && IsLowerHex(root[7..])
  {
    DigestId(sha256([]))
  }

  /** `_manual_merkle` with its two loops: the outer one replaces the layer
      by the next one until one digest remains, the inner one walks the
      layer two digests at a time. */
  method ManualMerkle(chunks: seq<seq<byte>>, sha256: Sha256) returns (root: string)
    ensures root == ReferenceRoot(chunks, sha256)
  {
    if |chunks| == 0 {
      return DigestId(sha256([0]));
    }
    var layer := Leaves(chunks, sha256);
    while |layer| > 1
      invariant |layer| >= 1
      invariant Root(layer, sha256) == Root(Leaves(chunks, sha256), sha256)
      decreases |layer|
    {
      layer := Round(layer, sha256);
    }
    root := DigestId(layer[0]);
  }

  /** One round of the inner loop: pairs of neighbours, the last digest of
      an odd layer paired with itself. */
  method Round(layer: seq<Digest>, sha256: Sha256) returns (next: seq<Digest>)
    ensures next == NextLayer(layer, sha256)
  {
    next := [];
    var i := 0;
    while i < |layer|
      invariant 0 <= i <= |layer| + 1 && i % 2 == 0
      invariant |next| == i / 2
      invariant forall k :: 0 <= k < |next| ==> next[k] == Parent(layer[2 * k], Partner(layer, 2 * k), sha256)
      decreases |layer| - i
    {
      var a := layer[i];
      var b := if i + 1 < |layer| then layer[i + 1] else a;
      next := next + [Parent(a, b, sha256)];
      i := i + 2;
    }
    NextLayerUnique(layer, next, sha256);
  }

  /** A sequence with the length and the parents of `NextLayer` is `NextLayer`. */
  lemma NextLayerUnique(layer: seq<Digest>, next: seq<Digest>, sha256: Sha256)
    requires |next| == (|layer| + 1) / 2
    requires forall k :: 0 <= k < |next| ==> next[k] == Parent(layer[2 * k], Partner(layer, 2 * k), sha256)
    ensures next == NextLayer(layer, sha256)
  {
  }

  /** A single chunk's root is its leaf digest: no pairing round. */
  lemma SingleChunkRoot(c: seq<byte>, sha256: Sha256)
    ensures ReferenceRoot([c], sha256) == DigestId(sha256(c))
  {
  }

  /** Two chunks: the root is the parent of the two leaves, left first. */
  lemma TwoChunkRoot(c0: seq<byte>, c1: seq<byte>, sha256: Sha256)
    ensures ReferenceRoot([c0, c1], sha256) == DigestId(Parent(sha256(c0), sha256(c1), sha256))
  {
    var l := Leaves([c0, c1], sha256);
    assert l == [sha256(c0), sha256(c1)];
    var n := NextLayer(l, sha256);
    assert |n| == 1 && n[0] == Parent(l[0], l[1], sha256);
    assert Root(l, sha256) == Root(n, sha256) == n[0];
  }

  /** The pair order matters: swapping two chunks whose digests differ
      changes the root, unless SHA-256 collides on the two concatenations. */
  lemma TwoChunkOrder(c0: seq<byte>, c1: seq<byte>, sha256: Sha256)
    requires sha256(c0) != sha256(c1)
    requires NoCollision(sha256, sha256(c0) + sha256(c1), sha256(c1) + sha256(c0))
    ensures ReferenceRoot([c0, c1], sha256) != ReferenceRoot([c1, c0], sha256)
  {
    TwoChunkRoot(c0, c1, sha256);
    TwoChunkRoot(c1, c0, sha256);
    var a: seq<byte>, b: seq<byte> := sha256(c0), sha256(c1);
    assert (a + b)[..32] == a && (b + a)[..32] == b;
    DigestIdInjective(Parent(sha256(c0), sha256(c1), sha256), Parent(sha256(c1), sha256(c0), sha256));
  }

  /** Three chunks: the odd third leaf is paired with itself. */
  lemma ThreeChunkRoot(c0: seq<byte>, c1: seq<byte>, c2: seq<byte>, sha256: Sha256)
    ensures ReferenceRoot([c0, c1, c2], sha256) ==
      DigestId(Parent(Parent(sha256(c0), sha256(c1), sha256), Parent(sha256(c2), sha256(c2), sha256), sha256))
  {
    var l := Leaves([c0, c1, c2], sha256);
    assert l == [sha256(c0), sha256(c1), sha256(c2)];
    var n := NextLayer(l, sha256);
    assert |n| == 2 && n[0] == Parent(l[0], l[1], sha256) && n[1] == Parent(l[2], l[2], sha256);
    var m := NextLayer(n, sha256);
    assert |m| == 1 && m[0] == Parent(n[0], n[1], sha256);
    assert Root(l, sha256) == Root(n, sha256) == Root(m, sha256) == m[0];
  }

  /** The reference algorithm's empty sentinel is not the library's: they
      agree only if SHA-256 maps `b"\x00"` and `b""` to the same digest. */
  lemma EmptySentinelsDiffer(sha256: Sha256)
    requires NoCollision(sha256, [0], [])
    ensures ReferenceRoot([], sha256) != EmptyMerkleRoot(sha256)
  {
    DigestIdInjective(sha256([0]), sha256([]));
  }
}
