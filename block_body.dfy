/** `BlockBody`: the block's transaction kernel and the accumulators that
    hold the chain state after it, and the four leaf preimages of its
    Merkle tree. */
module BlockBodies {
  import opened Field
  import Acc = Accumulators
  import TK = TransactionKernels
  import Merkle

  /** `BlockBodyField`, in declaration order. */
  datatype BlockBodyField =
    TransactionKernel | MutatorSetAccumulator | LockFreeMmrAccumulator | BlockMmrAccumulator
  {
    /** `HasDiscriminant::discriminant`: the declaration index. */
    function Discriminant(): (d: nat)
      ensures d < 4
    {
      match this
      case TransactionKernel => 0
      case MutatorSetAccumulator => 1
      case LockFreeMmrAccumulator => 2
      case BlockMmrAccumulator => 3
    }
  }

  /** The field with a given discriminant: the inverse of `discriminant`. */
  function FieldWithDiscriminant(d: nat): (f: BlockBodyField)
    requires d < 4
    ensures f.Discriminant() == d
  {
    [TransactionKernel, MutatorSetAccumulator, LockFreeMmrAccumulator, BlockMmrAccumulator][d]
  }

  /** Discriminants tell fields apart. */
  lemma DiscriminantInjective(f: BlockBodyField)
    ensures FieldWithDiscriminant(f.Discriminant()) == f
  {
  }

  /** The block MMR accumulator holds the hashes of all blocks before this
      one, ending with the parent; it does not contain this block. */
  datatype BlockBody = BlockBody(
    transactionKernel: TK.TransactionKernel,
    mutatorSetAccumulator: Acc.MutatorSetAccumulator,
    lockFreeMmrAccumulator: Acc.MmrAccumulator,
    blockMmrAccumulator: Acc.MmrAccumulator)

  /** `BlockBody::new`: stores its four arguments unchanged. */
  function New(
    transactionKernel: TK.TransactionKernel,
    mutatorSetAccumulator: Acc.MutatorSetAccumulator,
    lockFreeMmrAccumulator: Acc.MmrAccumulator,
    blockMmrAccumulator: Acc.MmrAccumulator): (body: BlockBody)
    ensures body.transactionKernel == transactionKernel
    ensures body.mutatorSetAccumulator == mutatorSetAccumulator
    ensures body.lockFreeMmrAccumulator == lockFreeMmrAccumulator
    ensures body.blockMmrAccumulator == blockMmrAccumulator
  {
    BlockBody(transactionKernel, mutatorSetAccumulator, lockFreeMmrAccumulator, blockMmrAccumulator)
  }

  /** How the pieces of a body are hashed and encoded: the hash functions,
      the kernel's field encoders, and the derived encoders of the two
      accumulator types (whose layout is not part of this model). */
  datatype Encoding = Encoding(
    hasher: Merkle.Hasher,
    kernelCodec: TK.KernelCodec,
    encodeMutatorSet: Acc.MutatorSetAccumulator -> seq<Felt>,
    encodeMmr: Acc.MmrAccumulator -> seq<Felt>)

  /** The `mast_hash` of a transaction kernel. */
  function KernelMastHash(e: Encoding, k: TK.TransactionKernel): Digest
  {
    TK.MastHash(e.hasher, k, e.kernelCodec)
  }

  /** The encoding of one field of the body. */
  function FieldSequence(e: Encoding, body: BlockBody, f: BlockBodyField): seq<Felt>
  {
    match f
    case TransactionKernel => TK.EncodeDigest(KernelMastHash(e, body.transactionKernel))
    case MutatorSetAccumulator => e.encodeMutatorSet(body.mutatorSetAccumulator)
    case LockFreeMmrAccumulator => e.encodeMmr(body.lockFreeMmrAccumulator)
    case BlockMmrAccumulator => e.encodeMmr(body.blockMmrAccumulator)
  }

  /** `MastHash::mast_sequences`: the kernel enters through its own mast
      hash; the sequence for field f sits at index `f.discriminant()`. */
  function MastSequences(e: Encoding, body: BlockBody): (r: seq<seq<Felt>>)
    ensures |r| == 4
    ensures forall f: BlockBodyField :: r[f.Discriminant()] == FieldSequence(e, body, f)
  {
    [ TK.EncodeDigest(KernelMastHash(e, body.transactionKernel)),
      e.encodeMutatorSet(body.mutatorSetAccumulator),
      e.encodeMmr(body.lockFreeMmrAccumulator),
      e.encodeMmr(body.blockMmrAccumulator) ]
  }

  /** `MastHash::mast_hash` of a body. Four leaves need no padding: the
      body's hash is the root of the tree over exactly its four hashed field
      encodings. */
  function MastHash(e: Encoding, body: BlockBody): (r: Digest)
    ensures r == Merkle.Root(e.hasher, Merkle.Leaves(e.hasher, MastSequences(e, body)))
  {
    assert Merkle.NextPowerOfTwo(4) == 4 by {
      assert Merkle.NextPowerOfTwo(2) == 2;
    }
    var leaves := Merkle.Leaves(e.hasher, MastSequences(e, body));
    assert Merkle.Padded(leaves, 4) == leaves;
    Merkle.MastHashOf(e.hasher, MastSequences(e, body))
  }

  /** Two bodies that differ only outside the transaction kernel's field
      have kernel leaves that agree: the kernel is committed to through its
      own mast hash alone. */
  lemma KernelEntersThroughItsHash(e: Encoding, body: BlockBody, other: BlockBody)
    requires KernelMastHash(e, body.transactionKernel) == KernelMastHash(e, other.transactionKernel)
    requires body.mutatorSetAccumulator == other.mutatorSetAccumulator
    requires body.lockFreeMmrAccumulator == other.lockFreeMmrAccumulator
    requires body.blockMmrAccumulator == other.blockMmrAccumulator
    ensures MastHash(e, body) == MastHash(e, other)
  {
    assert MastSequences(e, body) == MastSequences(e, other);
  }

  /** The test strategy `arbitrary_with_mutator_set_accumulator`, given the
      randomly drawn kernel and MMR accumulators: the body always carries the
      given mutator-set accumulator. */
  function ArbitraryWithMutatorSetAccumulator(
    mutatorSetAccumulator: Acc.MutatorSetAccumulator,
    transactionKernel: TK.TransactionKernel,
    lockFreeMmrAccumulator: Acc.MmrAccumulator,
    blockMmrAccumulator: Acc.MmrAccumulator): (body: BlockBody)
    ensures body.mutatorSetAccumulator == mutatorSetAccumulator
    ensures body == New(transactionKernel, mutatorSetAccumulator, lockFreeMmrAccumulator, blockMmrAccumulator)
  {
    BlockBody(transactionKernel, mutatorSetAccumulator, lockFreeMmrAccumulator, blockMmrAccumulator)
  }
}
