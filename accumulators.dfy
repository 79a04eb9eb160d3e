/** The accumulator and record types that blocks and transaction kernels carry.
    Their operations (appending to an MMR, applying a mutator-set update,
    hashing) are passed in as parameters where they are needed. */
module Accumulators {
  import opened Field

  /** `MmrAccumulator`: a Merkle mountain range summarised by its leaf count
      and its peaks. */
  datatype MmrAccumulator = MmrAccumulator(leafCount: nat, peaks: seq<Digest>)

  /** `MmrAccumulator::new_from_leafs(vec![])`. */
  const EMPTY_MMR: MmrAccumulator := MmrAccumulator(0, [])

  /** `MutatorSetAccumulator`: the append-only commitment list and the
      sliding-window Bloom filter, inactive part as an MMR. */
  datatype MutatorSetAccumulator =
    MutatorSetAccumulator(aocl: MmrAccumulator, swbfInactive: MmrAccumulator, swbfActive: seq<nat>)

  /** `RemovalRecord`: the absolute Bloom-filter indices an input sets, and
      the chunks they fall in (kept as plain field elements here). */
  datatype RemovalRecord = RemovalRecord(absoluteIndices: seq<nat>, targetChunks: seq<Felt>)
}
