# Neptune consensus bookkeeping in Dafny

This project models the node-side consensus bookkeeping of neptune-core, a
Rust implementation of the Neptune blockchain, and proves properties of that
model. It covers:

- **Blocks** (`block.dfy`, `index_sets.dfy`, `transaction.dfy`). The
  `Block` object keeps its kernel (header and body), its proof and a digest
  cache. The model covers the cache discipline of `hash` and the setters,
  the `Block`/`TransferBlock` conversions, the mining reward and its
  halvings, the proof-of-work comparison, and `make_block_template`. It also
  covers `is_valid_extended` with its early returns, its loop over the
  inputs and its sort-and-dedup test on absolute index sets.
- **Amounts** (`amount.dfy`). An `Amount` is a 128-bit unsigned value held
  as four 32-bit limbs, least significant first. The model covers the
  conversions from `u32`, `u64` and `i32` and `checked_sub`. It models the
  deliberately panicking `Sub` and `Neg`, plus ordering, addition,
  summation, scalar multiplication, halving, `from_bfes`/`to_sequence` and
  `from_str`.
- **Kernel MAST hashing** (`transaction_kernel.dfy`, `block_body.dfy`,
  `addition_record.dfy`, `merkle.dfy`, `codec.dfy`,
  `kernel_mast_hash_snippet.dfy`). The transaction kernel and the block body
  are hashed as Merkle trees over their fields, in a fixed order. The Rust
  shadow of the `TransactionKernelMastHash` snippet reads the seven
  length-prefixed kernel fields out of word-addressed memory. It then builds
  the eight-leaf tree, writes it into a sixteen-digest list and pushes the
  root.
- **Appendix witness** (`appendix_witness.dfy`). This is the builder that
  keeps claims and proofs in lockstep and admits a pair only if it verifies.
  The model covers `produce`, the standard input, the output and the
  non-determinism handed to the block program.

Field elements (`BFieldElement`) are integers modulo
P = 2^64 - 2^32 + 1 (`field.dfy`). Sums of addresses, heights and timestamps
are taken in the field, as in the source. A digest is five field elements.
Panics are the `Panic` case of `Wrappers.Result`.

Some operations are used but not defined here:

- hash functions;
- the kernel's and the body's Merkle roots at block level;
- the MMR append;
- the mutator-set operations;
- difficulty control and the proof-of-work target;
- the order on digests;
- STARK verification;
- the field encodings.

These operations are parameters of the model. They are function-valued
fields of the datatypes `Merkle.Hasher`, `TransactionKernels.KernelCodec`,
`BlockBodies.Encoding`, `Blocks.Consensus` and `AppendixWitnesses.Oracles`.
Every property below holds for every choice of them, except where a lemma
states an assumption about them (for example `KernelCodec.RoundTrips`).

The files come from different snapshots of the repository. The block file's
`NeptuneCoins` is therefore not the `Amount` of `amount.rs`. Here it is a
natural number of base units, and the number of units in one coin is a
consensus parameter.

## Model

| member | source | states |
|---|---|---|
| Amounts.Value | src/models/blockchain/transaction/amount.rs:51-54 | the value of four 32-bit limbs, least significant first, is below 2^128 |
| Amounts.LimbsValueInjective | src/models/blockchain/transaction/amount.rs:51-54 | two limb vectors of one length with the same value are the same vector |
| Amounts.OfNat | src/models/blockchain/transaction/amount.rs:51-54 | every value below 2^128 has an amount with exactly that value |
| Amounts.OfNatValue | src/models/blockchain/transaction/amount.rs:51-54 | rebuilding an amount from its value gives the same limbs |
| Amounts.ValueInjective | src/models/blockchain/transaction/amount.rs:144-148 | two amounts are equal if and only if their values are equal |
| Amounts.Zero | src/models/blockchain/transaction/amount.rs:156-159 | zero has value 0 |
| Amounts.IsZero | src/models/blockchain/transaction/amount.rs:161-163 | holds if and only if the value is 0 |
| Amounts.One | src/models/blockchain/transaction/amount.rs:81-85 | fills a limb array with 1 in limb 0; the result has value 1 |
| Amounts.FromU32 | src/models/blockchain/transaction/amount.rs:208-214 | the value goes in limb 0, the others are zero; the amount's value is the input |
| Amounts.FromU64 | src/models/blockchain/transaction/amount.rs:216-223 | the low 32 bits go in limb 0 and the high 32 bits in limb 1; the amount's value is the input |
| Amounts.Sub | src/models/blockchain/transaction/amount.rs:118-124 | subtraction always panics |
| Amounts.Neg | src/models/blockchain/transaction/amount.rs:136-142 | negation, zero minus the amount, always panics |
| Amounts.FromI32 | src/models/blockchain/transaction/amount.rs:195-206 | panics exactly for negative inputs; otherwise the amount whose value is the input |
| Amounts.CmpLimbsNumeric | src/models/blockchain/transaction/amount.rs:73-77 | comparing limbs from the most significant down agrees with comparing values: less, equal and greater each if and only if |
| Amounts.Cmp | src/models/blockchain/transaction/amount.rs:73-77 | the order on amounts is the order on their values, in all three outcomes |
| Amounts.AddLimbsValue | src/models/blockchain/transaction/amount.rs:104-110 | ripple-carry addition gives the sum of the values, with the final carry at the top |
| Amounts.Add | src/models/blockchain/transaction/amount.rs:104-110 | without overflow, the sum's value is the sum of the values |
| Amounts.SubLimbsValue | src/models/blockchain/transaction/amount.rs:126-134 | borrow subtraction gives the difference, with the final borrow counted at the top |
| Amounts.CheckedSub | src/models/blockchain/transaction/amount.rs:126-134 | Some if and only if a >= b, and then the value is a - b; never underflows |
| Amounts.MulLimbsValue | src/models/blockchain/transaction/amount.rs:67-70 | limb-by-limb multiplication by a 64-bit factor gives the product, with the final carry at the top |
| Amounts.ScalarMul | src/models/blockchain/transaction/amount.rs:67-70 | without overflow, the value is the amount's value times the factor |
| Amounts.HalveLimbsValue | src/models/blockchain/transaction/amount.rs:87-89 | halving limb by limb from the top gives the value divided by two, rounded down |
| Amounts.DivTwo | src/models/blockchain/transaction/amount.rs:87-89 | the value is halved, rounding down |
| Amounts.Sum | src/models/blockchain/transaction/amount.rs:112-116 | without overflow, the sum's value is the sum of the values |
| Amounts.ToSequence | src/models/blockchain/transaction/amount.rs:189-193 | four field elements, limb i at position i |
| Amounts.FromBfes | src/models/blockchain/transaction/amount.rs:57-65 | panics unless there are exactly four elements; limb i is element i truncated to 32 bits |
| Amounts.FromBfesToSequence | src/models/blockchain/transaction/amount.rs:256-272 | from_bfes(to_sequence(a)) == a for every amount |
| Amounts.FromStr | src/models/blockchain/transaction/amount.rs:166-187 | an unparsable string is an error; a non-negative number parses to the amount of that value; a negative number panics |
| Amounts.FromU64Additive | src/models/blockchain/transaction/amount.rs:274-291 | from(a) + from(b) == from(a + b) for u64 values whose sum fits in 64 bits; stated on `OfNat`, which `FromU64`'s contract equates with `from` |
| Amounts.ScalarMulFromU32 | src/models/blockchain/transaction/amount.rs:300-309 | for 32-bit a and k, from(a).scalar_mul(k) == from(a * k), with no overflow; stated on `OfNat`, which `FromU32`'s contract equates with `from` |
| Amounts.FourteenTimesThree | src/models/blockchain/transaction/amount.rs:293-298 | 14 scaled by 3 is 42, stated on `OfNat` as above |
| AdditionRecords.New | src/util_types/mutator_set/addition_record.rs:13-17 | stores the commitment unchanged |
| AdditionRecords.ToSequence | src/util_types/mutator_set/addition_record.rs:20-24 | the commitment's five elements, in order |
| AdditionRecords.ToSequenceInjective | src/util_types/mutator_set/addition_record.rs:35-66 | two records hash the same input if and only if their commitments agree |
| FieldCodec.Unframe | src/models/blockchain/transaction/transaction_kernel.rs:219-225 | a successful read of n length-prefixed fields yields n fields |
| FieldCodec.UnframeFrame | src/models/blockchain/transaction/transaction_kernel.rs:219-225 | reading back framed fields gives the fields |
| FieldCodec.FrameUnframe | src/models/blockchain/transaction/transaction_kernel.rs:219-225 | whatever is read back, framed again, is the input words: nothing is skipped or left over |
| TransactionKernels.FromPrimitiveWitness | src/models/blockchain/transaction/transaction_kernel.rs:41-45 | the witness's kernel, unchanged |
| TransactionKernels.TransactionKernelField.Discriminant | src/models/blockchain/transaction/transaction_kernel.rs:47-63 | discriminants lie in 0..6 |
| TransactionKernels.FieldWithDiscriminant | src/models/blockchain/transaction/transaction_kernel.rs:47-63 | each of 0..6 names the field with that discriminant |
| TransactionKernels.DiscriminantInjective | src/models/blockchain/transaction/transaction_kernel.rs:47-63 | the field is recovered from its discriminant, so no two fields share one |
| TransactionKernels.MastSequences | src/models/blockchain/transaction/transaction_kernel.rs:65-94 | seven sequences; the one for field f sits at f's discriminant; the timestamp's is one word |
| TransactionKernels.KernelLeaves | src/models/blockchain/transaction/transaction_kernel.rs:65-94 | eight leaves: the hash of each field's sequence at its discriminant, then the zero digest |
| TransactionKernels.MastHash | src/models/blockchain/transaction/transaction_kernel.rs:65-94 | the kernel's MAST hash is the root of the tree over the eight leaves of `KernelLeaves` |
| TransactionKernels.Encode | src/models/blockchain/transaction/transaction_kernel.rs:23-39 | the derived encoding reads back as exactly the seven field encodings, in declaration order, each with its length |
| TransactionKernels.Decode | src/models/blockchain/transaction/transaction_kernel.rs:23-39 | a successful decode accounts for every word: the input is exactly the length-prefixed framing of the seven fields it read |
| TransactionKernels.DecodeEncode | src/models/blockchain/transaction/transaction_kernel.rs:219-259 | decoding the encoding of a kernel gives the kernel back, when the field codecs round-trip |
| Merkle.NextPowerOfTwo | src/models/blockchain/transaction/validity/tasm/transaction_kernel_mast_hash.rs:296-309 | the least power of two at or above n, the width the leaves are padded to |
| Merkle.Padded | src/models/blockchain/transaction/validity/tasm/transaction_kernel_mast_hash.rs:296-308 | the leaves, then zero digests up to the width |
| Merkle.Leaves | src/models/blockchain/transaction/validity/tasm/transaction_kernel_mast_hash.rs:217-292 | one leaf per sequence, the variable-length hash of that sequence |
| BlockBodies.BlockBodyField.Discriminant | src/models/blockchain/block/block_body.rs:16-28 | discriminants lie in 0..3 |
| BlockBodies.FieldWithDiscriminant | src/models/blockchain/block/block_body.rs:16-28 | each of 0..3 names the field with that discriminant |
| BlockBodies.DiscriminantInjective | src/models/blockchain/block/block_body.rs:16-28 | the field is recovered from its discriminant |
| BlockBodies.New | src/models/blockchain/block/block_body.rs:53-66 | stores its four arguments unchanged |
| BlockBodies.MastSequences | src/models/blockchain/block/block_body.rs:69-80 | four sequences, the one for field f at f's discriminant |
| BlockBodies.MastHash | src/models/blockchain/block/block_body.rs:69-80 | four leaves need no padding: the body hash is the root over exactly the four hashed field encodings |
| BlockBodies.KernelEntersThroughItsHash | src/models/blockchain/block/block_body.rs:72-78 | the kernel enters the body hash only through the kernel's MAST hash |
| BlockBodies.ArbitraryWithMutatorSetAccumulator | src/models/blockchain/block/block_body.rs:90-117 | every body built has the given mutator-set accumulator |
| KernelMastHashSnippet.ReadWords | src/models/blockchain/transaction/validity/tasm/transaction_kernel_mast_hash.rs:209-216 | reading n data words yields n words, and panics on a missing address |
| KernelMastHashSnippet.ReadWordsPanicPersists | src/models/blockchain/transaction/validity/tasm/transaction_kernel_mast_hash.rs:209-216 | once a read of n words panics, every longer read panics the same way |
| KernelMastHashSnippet.ReadFields | src/models/blockchain/transaction/validity/tasm/transaction_kernel_mast_hash.rs:205-293 | a successful read yields seven fields |
| KernelMastHashSnippet.ReadTimestampIsOneWord | src/models/blockchain/transaction/validity/tasm/transaction_kernel_mast_hash.rs:270-272 | the timestamp field is read only when its size word is 1 |
| KernelMastHashSnippet.ReadFieldsFromTimestamp | src/models/blockchain/transaction/validity/tasm/transaction_kernel_mast_hash.rs:270-281 | any successful read of the remaining fields has a one-word timestamp |
| KernelMastHashSnippet.ReadFieldsTimestamp | src/models/blockchain/transaction/validity/tasm/transaction_kernel_mast_hash.rs:270-272 | a successful read of the kernel has a one-word timestamp |
| KernelMastHashSnippet.FieldLeaves | src/models/blockchain/transaction/validity/tasm/transaction_kernel_mast_hash.rs:296-308 | eight leaves, the last the zero digest |
| KernelMastHashSnippet.TreeNodes | src/models/blockchain/transaction/validity/tasm/transaction_kernel_mast_hash.rs:309-323 | sixteen slots; slot 0 is unused, slot i is tree node i (leaves at 8..15, node i the hash of nodes 2i and 2i+1) |
| KernelMastHashSnippet.BuildTree | src/models/blockchain/transaction/validity/tasm/transaction_kernel_mast_hash.rs:309-310 | building the tree slot by slot, from 15 down to 1, gives exactly those nodes |
| KernelMastHashSnippet.ElementAddressValue | src/models/blockchain/transaction/validity/tasm/transaction_kernel_mast_hash.rs:323-331 | word j of slot i sits at list + 1 + 5i + j, with no wrap-around |
| KernelMastHashSnippet.WriteDigestReads | src/models/blockchain/transaction/validity/tasm/transaction_kernel_mast_hash.rs:324-331 | after writing a digest, its words are at their addresses |
| KernelMastHashSnippet.WriteDigestKeeps | src/models/blockchain/transaction/validity/tasm/transaction_kernel_mast_hash.rs:324-331 | writing a digest leaves every other address as it was |
| KernelMastHashSnippet.WriteTreeReads | src/models/blockchain/transaction/validity/tasm/transaction_kernel_mast_hash.rs:323-332 | after writing the tree, every word of slots 1..15 holds its node's word |
| KernelMastHashSnippet.WriteTreeKeeps | src/models/blockchain/transaction/validity/tasm/transaction_kernel_mast_hash.rs:323-332 | writing the tree leaves every address outside slots 1..15 as it was |
| KernelMastHashSnippet.ShadowStackEffect | src/models/blockchain/transaction/validity/tasm/transaction_kernel_mast_hash.rs:205-339 | succeeds if and only if the stack is non-empty and the fields can be read; it then pops the address, keeps the rest, pushes the root's five words (net growth 4), word 0 on top |
| KernelMastHashSnippet.ListSpan | src/models/blockchain/transaction/validity/tasm/transaction_kernel_mast_hash.rs:313-331 | the list written at the allocated address spans 16 * DIGEST_LENGTH + 1 words, one more than requested. The length word comes first, then elements 1 to 15, whose last word is at exactly the address plus 16 * DIGEST_LENGTH |
| KernelMastHashSnippet.ShadowMemoryEffect | src/models/blockchain/transaction/validity/tasm/transaction_kernel_mast_hash.rs:312-332 | the list's length word is 16, its slots 1..15 hold the tree's nodes, and all other memory is as the allocator left it |
| KernelMastHashSnippet.ReadWordsHeld | src/models/blockchain/transaction/validity/tasm/transaction_kernel_mast_hash.rs:440-449 | reading data words from memory that holds an encoding returns exactly those words |
| KernelMastHashSnippet.ReadFieldHeld | src/models/blockchain/transaction/validity/tasm/transaction_kernel_mast_hash.rs:440-449 | reading a length-prefixed field held in memory returns it and the address just past it |
| KernelMastHashSnippet.ReadFieldsFromFramed | src/models/blockchain/transaction/validity/tasm/transaction_kernel_mast_hash.rs:440-449 | reading the remaining fields of a framed kernel held in memory returns exactly those fields |
| KernelMastHashSnippet.ShadowAgreesWithKernelMastHash | src/models/blockchain/transaction/validity/tasm/transaction_kernel_mast_hash.rs:480-501 | with an encoded kernel in memory at the popped address, the fields read are the kernel's MAST sequences and the pushed digest is the kernel's MAST hash |
| KernelMastHashSnippet.VmState.constructor | src/models/blockchain/transaction/validity/tasm/transaction_kernel_mast_hash.rs:198-204 | a VM state with the given stack and memory |
| KernelMastHashSnippet.VmState.ReadData | src/models/blockchain/transaction/validity/tasm/transaction_kernel_mast_hash.rs:210-216 | the loop reading data words computes the read specification |
| KernelMastHashSnippet.VmState.ReadField | src/models/blockchain/transaction/validity/tasm/transaction_kernel_mast_hash.rs:209-218 | reads a size word and that many data words, and advances by 1 + size |
| KernelMastHashSnippet.VmState.ReadKernelFields | src/models/blockchain/transaction/validity/tasm/transaction_kernel_mast_hash.rs:205-293 | the seven field reads, in order, compute the read specification |
| KernelMastHashSnippet.VmState.StoreTree | src/models/blockchain/transaction/validity/tasm/transaction_kernel_mast_hash.rs:323-332 | the nested loops write nodes 1..15 word by word, leaving memory equal to `WriteTree` |
| KernelMastHashSnippet.VmState.RustShadowing | src/models/blockchain/transaction/validity/tasm/transaction_kernel_mast_hash.rs:198-340 | succeeds exactly when the specification `Shadow` does, which pops the address, reads the seven fields, asks the allocator for 16 * DIGEST_LENGTH words and writes the tree. It leaves `Shadow`'s stack and memory; a panic leaves memory unchanged |
| IndexSets.LexLeTotal | src/models/blockchain/block/mod.rs:629-638 | the order on index vectors is total |
| IndexSets.LexLeAntisymmetric | src/models/blockchain/block/mod.rs:629-638 | and antisymmetric |
| IndexSets.LexLeTransitive | src/models/blockchain/block/mod.rs:629-638 | and transitive |
| IndexSets.Insert | src/models/blockchain/block/mod.rs:638 | inserting into a sorted vector keeps it sorted and adds exactly one element |
| IndexSets.SortIndexSets | src/models/blockchain/block/mod.rs:638 | the result is sorted and a permutation of the input |
| IndexSets.Dedup | src/models/blockchain/block/mod.rs:639 | removing repeats never lengthens the vector |
| IndexSets.DedupIndexSets | src/models/blockchain/block/mod.rs:639 | the loop removes runs of equal neighbours as the specification says |
| IndexSets.DedupKeepsAll | src/models/blockchain/block/mod.rs:639 | dedup removes nothing if and only if no two neighbours are equal |
| IndexSets.SortedChain | src/models/blockchain/block/mod.rs:638 | in a sorted vector every earlier element is at most every later one |
| IndexSets.SortedNeighboursDistinct | src/models/blockchain/block/mod.rs:638-639 | a sorted vector with distinct neighbours has no repeated element at all |
| IndexSets.PairwiseDistinctMultiset | src/models/blockchain/block/mod.rs:629-642 | pairwise distinctness holds if and only if no element occurs twice, so it survives permutation |
| IndexSets.SortDedupCountsDistinct | src/models/blockchain/block/mod.rs:629-642 | after sort and dedup, the count equals the number of inputs if and only if the index sets are pairwise distinct |
| Blocks.ProofFromTransfer | src/models/blockchain/block/mod.rs:149-166 | an empty transferred proof becomes the dummy proof, any other a single proof |
| Blocks.TransferOf | src/models/blockchain/block/mod.rs:168-188 | panics exactly for genesis and invalid proofs; header and body carry over |
| Blocks.TransferBlockRoundTrip | src/models/blockchain/block/mod.rs:149-188 | a transfer block turned into a block and back is unchanged |
| Blocks.BlockTransferRoundTrip | src/models/blockchain/block/mod.rs:1046-1070 | a transferable block comes back with the same kernel, hence the same hash; its proof is unchanged except that an empty single proof returns as the dummy proof |
| Blocks.HalvingsIsDivision | src/models/blockchain/block/mod.rs:318-326 | halving g times, rounding down each time, is dividing by 2^g |
| Blocks.HalvingsNonIncreasing | src/models/blockchain/block/mod.rs:318-326 | more halvings never give more |
| Blocks.MiningRewardNonIncreasing | src/models/blockchain/block/mod.rs:318-326 | the reward never grows with the generation, and is a hundred coins divided by 2^generation |
| Blocks.AbsoluteIndexSets | src/models/blockchain/block/mod.rs:629-637 | the inputs' absolute index sets, one per input, in input order |
| Blocks.WrongBlockMmrIsInvalid | src/models/blockchain/block/mod.rs:851-868 | a block whose MMR is not the parent's extended by the parent's digest is invalid |
| Blocks.BeforeFutureLimitExact | src/models/blockchain/block/mod.rs:605-612 | away from the end of the field, the future limit is timestamp < now + 2 hours |
| Blocks.FutureLimitCases | src/models/blockchain/block/mod.rs:885-905 | +1 h and +2 h - 1 s pass the future limit; +2 h + 10 s and +2 days fail |
| Blocks.NonceDoesNotAffectValidity | src/models/blockchain/block/mod.rs:538-711 | no validity check reads the nonce, so changing it keeps validity as it was |
| Blocks.TemplateChildIsValidIff | src/models/blockchain/block/mod.rs:192-254 | the template exists if and only if the update applies. The child then has the transaction's kernel, the parent's height plus one, the parent's digest, the parent's MMR extended by it, the parent's cumulative work plus its difficulty, the recomputed difficulty and the updated mutator set. It is valid if and only if the remaining checks pass |
| Blocks.TemplateTimestamp | src/models/blockchain/block/mod.rs:234-240 | a timestamp earlier than the parent's becomes the parent's plus one second, any other stays; either way it does not precede the parent's |
| Blocks.Block.New | src/models/blockchain/block/mod.rs:429-436 | the kernel from header and body, the proof, no cached digest |
| Blocks.Block.FromTransfer | src/models/blockchain/block/mod.rs:149-166 | the kernel from the transfer block, the converted proof, no cached digest |
| Blocks.Block.Hash | src/models/blockchain/block/mod.rs:263-265 | the hash is the kernel's MAST hash, and it is cached |
| Blocks.Block.UnsetDigest | src/models/blockchain/block/mod.rs:268-271 | forgets the cached digest |
| Blocks.Block.SetHeaderNonce | src/models/blockchain/block/mod.rs:277-280 | changes exactly the nonce and forgets the digest |
| Blocks.Block.SetHeaderTimestampAndDifficulty | src/models/blockchain/block/mod.rs:289-298 | changes exactly the timestamp and the difficulty and forgets the digest |
| Blocks.Block.SetBlock | src/models/blockchain/block/mod.rs:312-316 | copies header, body and cached digest from the other block and keeps its own proof; the cache stays correct |
| Blocks.Block.Equals | src/models/blockchain/block/mod.rs:137-146 | two blocks are equal if and only if their kernels' hashes are |
| Blocks.Block.HasProofOfWork | src/models/blockchain/block/mod.rs:717-727 | the block's hash is at most the target of the parent's difficulty |
| Blocks.Block.GetMiningReward | src/models/blockchain/block/mod.rs:318-326 | the halving loop computes a hundred coins halved once per generation |
| Blocks.Block.IsValidExtended | src/models/blockchain/block/mod.rs:510-712 | equals the predicate `IsValidChild`, so true if and only if every check passes: height, parent digest, block MMR, minimum block time, difficulty, future limit, removability of every input, distinct index sets, the mutator-set update and its hash, the transaction timestamp, and the coinbase against reward plus fee |
| Blocks.Block.IsValid | src/models/blockchain/block/mod.rs:503-505 | equals `IsValidChild` with the default minimum block time and target block interval; a valid block is at least the minimum block time after its parent |
| Blocks.Block.MakeBlockTemplate | src/models/blockchain/block/mod.rs:192-254 | equals the function `Template`: it panics exactly when the mutator-set update fails, and otherwise returns the template header, body and dummy proof, whose properties `TemplateChildIsValidIff` and `TemplateTimestamp` state |
| AppendixWitnesses.EncodeToMemoryKeeps | src/models/blockchain/block/validity/appendix_witness.rs:115-120 | writing the encoded witness leaves addresses below it alone |
| AppendixWitnesses.EncodeToMemoryHolds | src/models/blockchain/block/validity/appendix_witness.rs:115-120 | afterwards memory holds exactly the encoded words from the start address on |
| AppendixWitnesses.UpdateAllStep | src/models/blockchain/block/validity/appendix_witness.rs:121-124 | handling one more claim and proof pair extends the fold by one step |
| AppendixWitnesses.AppendixWitness.New | src/models/blockchain/block/validity/appendix_witness.rs:43-49 | the body's MAST hash, no claims, no proofs |
| AppendixWitnesses.AppendixWitness.WithClaim | src/models/blockchain/block/validity/appendix_witness.rs:51-57 | panics unless the proof verifies against the claim; otherwise appends exactly the claim and the proof, so the two lists stay paired and verified |
| AppendixWitnesses.AppendixWitness.Claims | src/models/blockchain/block/validity/appendix_witness.rs:59-61 | a copy of the claims, element by element |
| AppendixWitnesses.AppendixWitness.Appendix | src/models/blockchain/block/validity/appendix_witness.rs:63-65 | the appendix holds exactly the claims |
| AppendixWitnesses.AppendixWitness.StandardInput | src/models/blockchain/block/validity/appendix_witness.rs:102-104 | the body hash's five words, in reverse order |
| AppendixWitnesses.AppendixWitness.Output | src/models/blockchain/block/validity/appendix_witness.rs:106-108 | the encoding of the claims |
| AppendixWitnesses.AppendixWitness.NondeterminismOf | src/models/blockchain/block/validity/appendix_witness.rs:114-126 | panics exactly when claims and proofs differ in length |
| AppendixWitnesses.AppendixWitness.Nondeterminism | src/models/blockchain/block/validity/appendix_witness.rs:114-126 | the loop over zipped pairs computes the specified non-determinism, and panics on a length mismatch |
| AppendixWitnesses.AppendixWitness.Produce | src/models/blockchain/block/validity/appendix_witness.rs:67-98 | succeeds if and only if the transaction carries a single proof, that proof verifies the kernel-validity claim, and consensus requires exactly that claim. The fresh witness then holds the body hash, that one claim and that proof |
| AppendixWitnesses.NondeterminismOfValid | src/models/blockchain/block/validity/appendix_witness.rs:114-126 | a witness with paired claims never panics there, and its RAM holds the encoded witness when it fits |

## Left out

- Hash functions, the Merkle roots of block kernels, MMR internals, the mutator-set accumulator's `can_remove`, `apply_to_accumulator` and `hash`, `difficulty_control`, `target`, the order on digests and STARK verification are uninterpreted parameters. The model says nothing about collision resistance.
- So the tests that expect a different nonce or different commitments to give different hashes (mod.rs 995-1044, addition_record.rs 61-65) have no counterpart beyond `AdditionRecords.ToSequenceInjective`, which covers the hash input.
- Derived `BFieldCodec` encoders are a simple length-prefixed framing (`FieldCodec`) over codec parameters.
- Serde and JSON are not modelled, so the JSON round trip of addition records (addition_record.rs 68-82) has no counterpart. `AdditionRecord` has no decoder in the source, and the model invents none.
- The TASM instruction text of `function_code` is not modelled; the tree shape it shares with the Rust shadow is.
- The dynamic allocator of the snippet is a parameter (`Allocator`). It receives the 80 words requested, and its policy is not modelled. The snippet writes 81 words from the returned address (`KernelMastHashSnippet.ListSpan`). Whether `dynamic_allocator` reserves that extra word is not part of this model, so no overrun is claimed or excluded. The unsafe-list layout is the length word at the list address followed by the elements.
- KernelMastHashSnippet.ShadowMemoryEffect: stated only when the sixteen-slot list fits below the end of the field (`ListFits`). Beyond that, the source's field addition wraps addresses around.
- `Timestamp`, block heights and memory addresses are field elements. Their sums wrap modulo P as in the source. The far-future lemmas assume the sums stay below P.
- `NeptuneCoins` sums, the cumulative proof of work and difficulties (`U32s<5>`) are unbounded naturals; overflow of those fixed-width types is not modelled.
- Blocks.Block.GetMiningReward: `NeptuneCoins::new(100)` is 100 times a units-per-coin parameter, and `get_generation` is a parameter, because neither is part of this model.
- `MINIMUM_BLOCK_TIME` and the first non-deterministically initialised memory address are parameters, because their values are not part of this model.
- Amounts.Add: requires the sum to stay below 2^128, because the overflow behaviour of `U32s` addition is not part of this model. Amounts.Sum and Amounts.ScalarMul carry the same requirement for the same reason.
- Amounts.FromStr: takes the parsed integer, or `None` for text that does not parse, and requires its magnitude below 2^128. Decimal parsing and `BigInt` conversion of larger values are not modelled.
- Amounts.DivTwo: returns the halved amount instead of updating it in place, because `Amount` is a value type here.
- `to_native_coins`, the `Display` impl, the `AmountLike` trait plumbing and the string round-trip test (which goes through `Display`) are not modelled.
- `Block::header` and `Block::body` are plain field reads (`kernel.header`, `kernel.body`) and have no separate member.
- The genesis block, its premine and `premine_utxos` are not modelled.
- The `OnceLock` thread safety of the digest cache is not modelled; the cache is an optional digest.
- Logging, async locks, the `TritonProverSync` device and the `TryLockError` result of `produce` are not modelled (`produce` never returns that error).
- The appendix witness's `program` (the block program's code) is not modelled.
- `BlockPrimitiveWitness` is reduced to the body and the transaction.
- Sorting and deduplicating the absolute index sets is modelled on a value (`seq`), by insertion, and not in place on a vector; only the sorted order and the number of distinct sets matter to the check.
- The arbitrary-kernel size bounds (0..=4 inputs, 0..=4 outputs, 0..=2 announcements) belong to a random test generator and are not modelled.
- Transaction proofs other than single proofs are told apart but not looked into.
