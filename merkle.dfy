/** The fixed-shape binary Merkle trees behind every `mast_hash`: each field
    of a structure is hashed into a leaf, the leaves are padded with the zero
    digest up to a power of two, and the tree is stored heap-style, so that
    slot i holds the hash of slots 2i and 2i+1 and slot 1 is the root. */
module Merkle {
  import opened Field

  /** The hash functions the consensus code uses, left uninterpreted:
      `Hash::hash_varlen` on a list of field elements and the two-to-one
      `Hash::hash_pair` used inside Merkle trees. */
  datatype Hasher = Hasher(varlen: seq<Felt> -> Digest, pair: (Digest, Digest) -> Digest)

  predicate IsPowerOfTwo(n: nat)
    decreases n
  {
    n == 1 || (n >= 2 && n % 2 == 0 && IsPowerOfTwo(n / 2))
  }

  /** Slot i of the heap-indexed tree over `leaves`: the leaves sit in slots
      |leaves| .. 2|leaves|-1, every lower slot hashes its two children. */
  function Node(h: Hasher, leaves: seq<Digest>, i: nat): Digest
    requires 1 <= i < 2 * |leaves|
    decreases 2 * |leaves| - i
  {
    if i >= |leaves| then leaves[i - |leaves|]
    else h.pair(Node(h, leaves, 2 * i), Node(h, leaves, 2 * i + 1))
  }

  function Root(h: Hasher, leaves: seq<Digest>): Digest
    requires |leaves| >= 1
  {
    Node(h, leaves, 1)
  }

  /** The least power of two that is at least n (1 for n = 0). */
  function NextPowerOfTwo(n: nat): (r: nat)
    ensures IsPowerOfTwo(r) && n <= r
    ensures r == 1 || r / 2 < n
  {
    if n <= 1 then 1
    else
      var half := NextPowerOfTwo((n + 1) / 2);
      assert IsPowerOfTwo(2 * half) by { assert (2 * half) / 2 == half; }
      2 * half
  }

  /** `leaves` followed by zero digests up to length `width`. */
  function Padded(leaves: seq<Digest>, width: nat): (r: seq<Digest>)
    requires |leaves| <= width
    ensures |r| == width && r[..|leaves|] == leaves
    ensures forall i :: |leaves| <= i < width ==> r[i] == ZERO_DIGEST
  {
    leaves + seq(width - |leaves|, _ => ZERO_DIGEST)
  }

  /** The leaf digests of a structure: one `hash_varlen` per field sequence. */
  function Leaves(h: Hasher, sequences: seq<seq<Felt>>): (r: seq<Digest>)
    ensures |r| == |sequences|
    ensures forall i :: 0 <= i < |sequences| ==> r[i] == h.varlen(sequences[i])
  {
    seq(|sequences|, i requires 0 <= i < |sequences| => h.varlen(sequences[i]))
  }

  /** The `mast_hash` of a structure whose fields encode to `sequences`. */
  function MastHashOf(h: Hasher, sequences: seq<seq<Felt>>): Digest
  {
    var leaves := Leaves(h, sequences);
    Root(h, Padded(leaves, NextPowerOfTwo(|leaves|)))
  }
}
