/** Blocks: the header, the kernel (header and body), the proof, the block
    object with its lazily computed digest, block templates for mining, the
    mining reward and the checks a block must pass against its parent. */
module Blocks {
  import opened Field
  import opened Wrappers
  import Stark
  import Acc = Accumulators
  import AdditionRecords
  import TK = TransactionKernels
  import BB = BlockBodies
  import IndexSets
  import Transactions

  /** `MAX_BLOCK_SIZE`, written into every template header. */
  const MAX_BLOCK_SIZE: nat := 1_000_000

  /** Timestamps count milliseconds. */
  const ONE_SECOND: Felt := 1000
  const ONE_HOUR: Felt := 3_600_000
  const TWO_HOURS: Felt := 7_200_000

  type Timestamp = TK.Timestamp

  type Nonce = s: seq<Felt> | |s| == 3 witness [0, 0, 0]

  /** `BlockHeader`. Proof-of-work totals and difficulties (`U32s<5>`) are
      unbounded naturals here. */
  datatype BlockHeader = BlockHeader(
    version: Felt,
    height: Felt,
    prevBlockDigest: Digest,
    timestamp: Timestamp,
    nonce: Nonce,
    maxBlockSize: nat,
    cumulativeProofOfWork: nat,
    difficulty: nat)

  /** `BlockKernel`: everything of a block but its proof. */
  datatype BlockKernel = BlockKernel(header: BlockHeader, body: BB.BlockBody)

  /** `BlockProof`; the default value is `Invalid`. */
  datatype BlockProof = Genesis | Invalid | SingleProof(proof: Stark.Proof) | DummyProof

  /** `TransferBlock`: the form in which blocks travel between peers. */
  datatype TransferBlock = TransferBlock(header: BlockHeader, body: BB.BlockBody, proof: Stark.Proof)

  /** The consensus operations a block relies on but whose internals lie
      outside this model: the kernel's Merkle root, the MMR append, the
      mutator-set operations, difficulty control and the proof-of-work
      target, the order on digests, the halving generation of a height, the
      number of units in one coin and the default minimum block time. */
  datatype Consensus = Consensus(
    kernelHash: BlockKernel -> Digest,
    mmrAppend: (Acc.MmrAccumulator, Digest) -> Acc.MmrAccumulator,
    canRemove: (Acc.MutatorSetAccumulator, Acc.RemovalRecord) -> bool,
    applyUpdate: (Acc.MutatorSetAccumulator, seq<Acc.RemovalRecord>, seq<AdditionRecords.AdditionRecord>)
                   -> Option<Acc.MutatorSetAccumulator>,
    mutatorSetHash: Acc.MutatorSetAccumulator -> Digest,
    difficultyControl: (Timestamp, Timestamp, nat, Option<Timestamp>, Felt) -> nat,
    target: nat -> Digest,
    digestLe: (Digest, Digest) -> bool,
    generation: Felt -> nat,
    coinUnits: nat,
    minimumBlockTime: Timestamp)

  // ---------------------------------------------------------------------
  // Conversions between blocks and transfer blocks

  /** `From<TransferBlock> for Block`, on the proof: an empty proof stands
      for the dummy proof. */
  function ProofFromTransfer(p: Stark.Proof): (r: BlockProof)
    ensures r.DummyProof? <==> |p.words| == 0
    ensures r.SingleProof? <==> |p.words| > 0
    ensures r.SingleProof? ==> r.proof == p
  {
    if |p.words| == 0 then DummyProof else SingleProof(p)
  }

  /** `From<Block> for TransferBlock`: the genesis block and invalid blocks
      cannot be transferred; a dummy proof travels as the empty proof. */
  function TransferOf(kernel: BlockKernel, proof: BlockProof): (r: Result<TransferBlock>)
    ensures r.Ok? <==> proof.SingleProof? || proof.DummyProof?
    ensures r.Ok? ==> r.value.header == kernel.header && r.value.body == kernel.body
  {
    match proof
    case SingleProof(sp) => Ok(TransferBlock(kernel.header, kernel.body, sp))
    case Genesis => Panic("The Genesis block cannot be transferred")
    case Invalid => Panic("Invalid blocks cannot be transferred")
    case DummyProof => Ok(TransferBlock(kernel.header, kernel.body, Stark.Proof([])))
  }

  /** A transfer block becomes a block and back without change. */
  lemma TransferBlockRoundTrip(t: TransferBlock)
    ensures TransferOf(BlockKernel(t.header, t.body), ProofFromTransfer(t.proof)) == Ok(t)
  {
    if |t.proof.words| == 0 {
      assert t.proof == Stark.Proof([]);
    }
  }

  /** A block that can be transferred comes back with the same kernel, hence
      the same hash, and the same proof, except that a single proof with no
      words comes back as the dummy proof. */
  lemma BlockTransferRoundTrip(kernel: BlockKernel, proof: BlockProof)
    requires TransferOf(kernel, proof).Ok?
    ensures var t := TransferOf(kernel, proof).value;
      BlockKernel(t.header, t.body) == kernel &&
      ProofFromTransfer(t.proof) ==
        (if proof.SingleProof? && |proof.proof.words| == 0 then DummyProof else proof)
  {
  }

  // ---------------------------------------------------------------------
  // Mining reward

  /** `v` halved `g` times, rounding down each time. */
  function Halvings(v: nat, g: nat): nat
  {
    if g == 0 then v else Halvings(v, g - 1) / 2
  }

  /** 2 to the power `g`. */
  function Pow2(g: nat): (d: nat)
    ensures d >= 1
  {
    if g == 0 then 1 else 2 * Pow2(g - 1)
  }

  /** Nonlinear arithmetic step of `DivUnique`: a nonzero multiple of m is
      at least m away from zero. */
  lemma {:induction false} MulNonzeroAtLeast(m: int, x: int)
    requires m >= 0 && x != 0
    ensures m * x >= m || m * x <= -m
    decreases if x > 0 then x else -x
  {
    if x > 1 {
      MulNonzeroAtLeast(m, x - 1);
      assert m * x == m * (x - 1) + m;
    } else if x < -1 {
      MulNonzeroAtLeast(m, x + 1);
      assert m * x == m * (x + 1) - m;
    }
  }

  /** Arithmetic step of `DivDiv`: division is determined by any quotient
      and remainder in range. */
  lemma DivUnique(v: nat, m: nat, q: int, r: int)
    requires m > 0 && v == m * q + r && 0 <= r < m
    ensures v / m == q
  {
    var x := v / m - q;
    assert m * x == r - v % m by {
      assert m * x == m * (v / m) - m * q;
    }
    if x != 0 {
      MulNonzeroAtLeast(m, x);
    }
  }

  /** Arithmetic step of `HalvingsIsDivision`: halving a quotient is
      dividing by twice the divisor. */
  lemma DivDiv(v: nat, b: nat)
    requires b > 0
    ensures v / b / 2 == v / (b * 2)
  {
    var q := v / b;
    var r := v % b;
    var q2 := q / 2;
    var bit := q % 2;
    assert v == b * q + r;
    assert q == 2 * q2 + bit;
    assert b * q == (b * 2) * q2 + b * bit by {
      assert b * (2 * q2 + bit) == b * (2 * q2) + b * bit;
      assert b * (2 * q2) == (b * 2) * q2;
    }
    assert 0 <= b * bit <= b by {
      if bit == 1 { assert b * bit == b; } else { assert b * bit == 0; }
    }
    DivUnique(v, b * 2, q2, b * bit + r);
  }

  /** Halving `g` times is dividing by 2 to the power `g`. */
  lemma {:induction false} HalvingsIsDivision(v: nat, g: nat)
    ensures Halvings(v, g) == v / Pow2(g)
  {
    if g > 0 {
      HalvingsIsDivision(v, g - 1);
      DivDiv(v, Pow2(g - 1));
      assert Pow2(g - 1) * 2 == Pow2(g);
    }
  }

  lemma {:induction false} HalvingsNonIncreasing(v: nat, g1: nat, g2: nat)
    requires g1 <= g2
    ensures Halvings(v, g2) <= Halvings(v, g1)
    decreases g2
  {
    if g1 < g2 {
      HalvingsNonIncreasing(v, g1, g2 - 1);
    }
  }

  /** The reward for mining a block at `height`: a hundred coins, halved
      once per generation. */
  function MiningReward(c: Consensus, height: Felt): nat
  {
    Halvings(100 * c.coinUnits, c.generation(height))
  }

  /** The reward never grows from one generation to a later one, and it is
      a hundred coins divided by 2 to the power of the generation. */
  lemma MiningRewardNonIncreasing(c: Consensus, h1: Felt, h2: Felt)
    requires c.generation(h1) <= c.generation(h2)
    ensures MiningReward(c, h2) <= MiningReward(c, h1)
    ensures MiningReward(c, h2) == 100 * c.coinUnits / Pow2(c.generation(h2))
  {
    HalvingsNonIncreasing(100 * c.coinUnits, c.generation(h1), c.generation(h2));
    HalvingsIsDivision(100 * c.coinUnits, c.generation(h2));
  }

  // ---------------------------------------------------------------------
  // The checks of `is_valid_extended`

  /** 0.a: the height is the parent's plus one. */
  predicate HeightFollows(block: BlockKernel, previous: BlockKernel)
  {
    block.header.height == Add(previous.header.height, 1)
  }

  /** 0.b: the header names the parent's digest. */
  predicate PointsToParent(c: Consensus, block: BlockKernel, previous: BlockKernel)
  {
    block.header.prevBlockDigest == c.kernelHash(previous)
  }

  /** 0.c: the block MMR is the parent's with the parent's digest appended. */
  predicate MmrExtendsParent(c: Consensus, block: BlockKernel, previous: BlockKernel)
  {
    c.mmrAppend(previous.body.blockMmrAccumulator, c.kernelHash(previous)) == block.body.blockMmrAccumulator
  }

  /** 0.d: the block comes at least the minimum block time after its
      parent (the sum is taken in the field, as in the source). */
  predicate LateEnough(block: BlockKernel, previous: BlockKernel, minimumBlockTime: Timestamp)
  {
    Add(previous.header.timestamp, minimumBlockTime) <= block.header.timestamp
  }

  /** 0.e: the difficulty is the one difficulty control derives. */
  predicate DifficultyAdjusted(c: Consensus, block: BlockKernel, previous: BlockKernel,
                               targetBlockInterval: Option<Timestamp>)
  {
    block.header.difficulty ==
      c.difficultyControl(block.header.timestamp, previous.header.timestamp,
                          previous.header.difficulty, targetBlockInterval, previous.header.height)
  }

  /** 0.f: the timestamp lies before `now` plus two hours. */
  predicate BeforeFutureLimit(timestamp: Timestamp, now: Timestamp)
  {
    timestamp < Add(now, TWO_HOURS)
  }

  /** 1.b: every input can be removed from the parent's mutator set. */
  predicate InputsRemovable(c: Consensus, block: BlockKernel, previous: BlockKernel)
  {
    forall r | r in block.body.transactionKernel.inputs ::
      c.canRemove(previous.body.mutatorSetAccumulator, r)
  }

  /** The absolute index sets of the inputs, in input order. */
  function AbsoluteIndexSets(inputs: seq<Acc.RemovalRecord>): (sets: seq<seq<nat>>)
    ensures |sets| == |inputs|
    ensures forall i :: 0 <= i < |inputs| ==> sets[i] == inputs[i].absoluteIndices
  {
    if |inputs| == 0 then []
    else [inputs[0].absoluteIndices] + AbsoluteIndexSets(inputs[1..])
  }

  /** 1.c: no two inputs share an absolute index set. */
  predicate IndexSetsDistinct(block: BlockKernel)
  {
    IndexSets.PairwiseDistinct(AbsoluteIndexSets(block.body.transactionKernel.inputs))
  }

  /** 1.d: applying the transaction to the parent's mutator set succeeds and
      gives a set with the hash of the block's. */
  predicate MutatorSetUpdated(c: Consensus, block: BlockKernel, previous: BlockKernel)
  {
    var k := block.body.transactionKernel;
    match c.applyUpdate(previous.body.mutatorSetAccumulator, k.inputs, k.outputs)
    case None => false
    case Some(ms) => c.mutatorSetHash(ms) == c.mutatorSetHash(block.body.mutatorSetAccumulator)
  }

  /** 1.e: the transaction is not timestamped after the block. */
  predicate TransactionNotLater(block: BlockKernel)
  {
    block.body.transactionKernel.timestamp <= block.header.timestamp
  }

  /** 1.f: a claimed coinbase does not exceed the mining reward plus the
      fee. */
  predicate CoinbaseWithinReward(c: Consensus, block: BlockKernel)
  {
    var k := block.body.transactionKernel;
    k.coinbase.None? || k.coinbase.value <= MiningReward(c, block.header.height) + k.fee
  }

  function MinimumBlockTimeOr(c: Consensus, minimumBlockTime: Option<Timestamp>): Timestamp
  {
    if minimumBlockTime.Some? then minimumBlockTime.value else c.minimumBlockTime
  }

  /** A block is valid as the child of `previous` when it passes every check
      above; proof of work is checked apart. */
  predicate IsValidChild(c: Consensus, block: BlockKernel, previous: BlockKernel, now: Timestamp,
                    targetBlockInterval: Option<Timestamp>, minimumBlockTime: Option<Timestamp>)
  {
    && HeightFollows(block, previous)
    && PointsToParent(c, block, previous)
    && MmrExtendsParent(c, block, previous)
    && LateEnough(block, previous, MinimumBlockTimeOr(c, minimumBlockTime))
    && DifficultyAdjusted(c, block, previous, targetBlockInterval)
    && BeforeFutureLimit(block.header.timestamp, now)
    && InputsRemovable(c, block, previous)
    && IndexSetsDistinct(block)
    && MutatorSetUpdated(c, block, previous)
    && TransactionNotLater(block)
    && CoinbaseWithinReward(c, block)
  }

  /** A block whose block MMR is not its parent's extended by the parent's
      digest is invalid, whatever else holds. */
  lemma WrongBlockMmrIsInvalid(c: Consensus, block: BlockKernel, previous: BlockKernel, now: Timestamp,
                               targetBlockInterval: Option<Timestamp>, minimumBlockTime: Option<Timestamp>)
    requires block.body.blockMmrAccumulator
          != c.mmrAppend(previous.body.blockMmrAccumulator, c.kernelHash(previous))
    ensures !IsValidChild(c, block, previous, now, targetBlockInterval, minimumBlockTime)
  {
  }

  /** Away from the end of the field, the future limit is the plain
      inequality `timestamp < now + 2h`. */
  lemma BeforeFutureLimitExact(timestamp: Timestamp, now: Timestamp)
    requires now + TWO_HOURS < P
    ensures BeforeFutureLimit(timestamp, now) <==> timestamp < now + TWO_HOURS
  {
  }

  /** The far-future cases: one hour ahead and two hours less a second
      ahead pass; two hours and ten seconds ahead and two days ahead fail. */
  lemma FutureLimitCases(now: Timestamp)
    requires now + 48 * ONE_HOUR < P
    ensures BeforeFutureLimit(now + ONE_HOUR, now)
    ensures BeforeFutureLimit(now + TWO_HOURS - ONE_SECOND, now)
    ensures !BeforeFutureLimit(now + TWO_HOURS + 10 * ONE_SECOND, now)
    ensures !BeforeFutureLimit(now + 48 * ONE_HOUR, now)
  {
    BeforeFutureLimitExact(now + ONE_HOUR, now);
  }

  /** The nonce is not looked at by any check: re-rolling it while mining
      keeps a valid block valid. */
  lemma NonceDoesNotAffectValidity(c: Consensus, block: BlockKernel, previous: BlockKernel,
                                   now: Timestamp, targetBlockInterval: Option<Timestamp>,
                                   minimumBlockTime: Option<Timestamp>, nonce: Nonce)
    ensures var mined := block.(header := block.header.(nonce := nonce));
      (IsValidChild(c, mined, previous, now, targetBlockInterval, minimumBlockTime) <==>
       IsValidChild(c, block, previous, now, targetBlockInterval, minimumBlockTime))
  {
    var mined := block.(header := block.header.(nonce := nonce));
    assert AbsoluteIndexSets(mined.body.transactionKernel.inputs)
        == AbsoluteIndexSets(block.body.transactionKernel.inputs);
  }

  // ---------------------------------------------------------------------
  // Block templates

  /** `make_block_template`: the next mutator set (a failed update panics),
      the block MMR extended by the parent's digest, an empty lock-free MMR,
      the cumulative proof of work grown by the parent's difficulty, the
      parent's height plus one, a timestamp moved to a second after the
      parent's when it would precede it, the difficulty difficulty control
      gives for that timestamp, version 0, a zero nonce and a dummy proof. */
  function Template(c: Consensus, previous: BlockKernel, transaction: Transactions.Transaction,
                    timestamp: Timestamp, targetBlockInterval: Option<Timestamp>)
    : Result<(BlockHeader, BB.BlockBody, BlockProof)>
  {
    var k := transaction.kernel;
    match c.applyUpdate(previous.body.mutatorSetAccumulator, k.inputs, k.outputs)
    case None => Panic("Mutator set mutation must work")
    case Some(next) =>
      var previousHash := c.kernelHash(previous);
      var mmra := c.mmrAppend(previous.body.blockMmrAccumulator, previousHash);
      var body := BB.New(k, next, Acc.EMPTY_MMR, mmra);
      var ts := if timestamp < previous.header.timestamp
                then Add(previous.header.timestamp, ONE_SECOND) else timestamp;
      var difficulty := c.difficultyControl(ts, previous.header.timestamp, previous.header.difficulty,
                                            targetBlockInterval, previous.header.height);
      var header := BlockHeader(0, Add(previous.header.height, 1), previousHash, ts, [0, 0, 0],
                                MAX_BLOCK_SIZE,
                                previous.header.cumulativeProofOfWork + previous.header.difficulty,
                                difficulty);
      Ok((header, body, DummyProof))
  }

  /** A template exists exactly when the transaction applies to the
      parent's mutator set; the block it describes passes every check that
      concerns the parent's chain data by construction, so it is valid
      exactly when it passes the remaining ones. */
  lemma TemplateChildIsValidIff(c: Consensus, previous: BlockKernel, transaction: Transactions.Transaction,
                                timestamp: Timestamp, targetBlockInterval: Option<Timestamp>,
                                now: Timestamp, minimumBlockTime: Option<Timestamp>)
    ensures var k := transaction.kernel;
      (Template(c, previous, transaction, timestamp, targetBlockInterval).Ok? <==>
       c.applyUpdate(previous.body.mutatorSetAccumulator, k.inputs, k.outputs).Some?)
    ensures Template(c, previous, transaction, timestamp, targetBlockInterval).Ok? ==>
      var t := Template(c, previous, transaction, timestamp, targetBlockInterval).value;
      var child := BlockKernel(t.0, t.1);
      && child.body.transactionKernel == transaction.kernel
      && child.header.cumulativeProofOfWork
           == previous.header.cumulativeProofOfWork + previous.header.difficulty
      && HeightFollows(child, previous)
      && PointsToParent(c, child, previous)
      && MmrExtendsParent(c, child, previous)
      && DifficultyAdjusted(c, child, previous, targetBlockInterval)
      && MutatorSetUpdated(c, child, previous)
      && (IsValidChild(c, child, previous, now, targetBlockInterval, minimumBlockTime) <==>
            && LateEnough(child, previous, MinimumBlockTimeOr(c, minimumBlockTime))
            && BeforeFutureLimit(child.header.timestamp, now)
            && InputsRemovable(c, child, previous)
            && IndexSetsDistinct(child)
            && TransactionNotLater(child)
            && CoinbaseWithinReward(c, child))
  {
  }

  /** The template's timestamp is the requested one unless that precedes
      the parent's, in which case it is one second after the parent's; in
      both cases it does not precede the parent's. */
  lemma TemplateTimestamp(c: Consensus, previous: BlockKernel, transaction: Transactions.Transaction,
                          timestamp: Timestamp, targetBlockInterval: Option<Timestamp>)
    requires previous.header.timestamp + ONE_SECOND < P
    requires Template(c, previous, transaction, timestamp, targetBlockInterval).Ok?
    ensures var ts := Template(c, previous, transaction, timestamp, targetBlockInterval).value.0.timestamp;
      && ts >= previous.header.timestamp
      && (timestamp >= previous.header.timestamp ==> ts == timestamp)
      && (timestamp < previous.header.timestamp ==> ts == previous.header.timestamp + ONE_SECOND)
  {
  }

  // ---------------------------------------------------------------------
  // The block object

  /** `Block`: a kernel, a proof, and the digest, computed on first demand
      and forgotten whenever the kernel changes. */
  class Block {
    var kernel: BlockKernel
    var proof: BlockProof
    var digest: Option<Digest>

    /** A cached digest is always the hash of the current kernel. */
    predicate Valid(c: Consensus)
      reads this
    {
      digest.Some? ==> digest.value == c.kernelHash(kernel)
    }

    /** `Block::new`: no digest yet. */
    constructor New(header: BlockHeader, body: BB.BlockBody, blockProof: BlockProof)
      ensures kernel == BlockKernel(header, body) && proof == blockProof && digest == None
    {
      kernel := BlockKernel(header, body);
      proof := blockProof;
      digest := None;
    }

    /** `From<TransferBlock>`: no digest yet. */
    constructor FromTransfer(t: TransferBlock)
      ensures kernel == BlockKernel(t.header, t.body)
      ensures proof == ProofFromTransfer(t.proof) && digest == None
    {
      kernel := BlockKernel(t.header, t.body);
      proof := ProofFromTransfer(t.proof);
      digest := None;
    }

    /** `hash`: the kernel's Merkle root, computed once and then cached. */
    method Hash(c: Consensus) returns (d: Digest)
      requires Valid(c)
      modifies this`digest
      ensures d == c.kernelHash(kernel) && digest == Some(d)
    {
      if digest.None? {
        digest := Some(c.kernelHash(kernel));
      }
      d := digest.value;
    }

    /** `unset_digest`. */
    method UnsetDigest()
      modifies this`digest
      ensures digest == None
    {
      digest := None;
    }

    /** `set_header_nonce`: the nonce changes and the digest is forgotten. */
    method SetHeaderNonce(nonce: Nonce)
      modifies this`kernel, this`digest
      ensures kernel == old(kernel).(header := old(kernel.header).(nonce := nonce))
      ensures digest == None
    {
      kernel := kernel.(header := kernel.header.(nonce := nonce));
      UnsetDigest();
    }

    /** `set_header_timestamp_and_difficulty`: both change together and the
        digest is forgotten. */
    method SetHeaderTimestampAndDifficulty(timestamp: Timestamp, difficulty: nat)
      modifies this`kernel, this`digest
      ensures kernel == old(kernel).(header := old(kernel.header).(timestamp := timestamp, difficulty := difficulty))
      ensures digest == None
    {
      kernel := kernel.(header := kernel.header.(timestamp := timestamp, difficulty := difficulty));
      UnsetDigest();
    }

    /** `set_block`: header, body and digest come from `block`; the proof
        stays. */
    method SetBlock(block: Block, c: Consensus)
      requires block.Valid(c)
      modifies this`kernel, this`digest
      ensures kernel == old(block.kernel) && digest == old(block.digest)
      ensures Valid(c)
    {
      kernel := BlockKernel(block.kernel.header, block.kernel.body);
      digest := block.digest;
    }

    /** `PartialEq`: two blocks are equal when their hashes are. */
    method Equals(other: Block, c: Consensus) returns (equal: bool)
      requires Valid(c) && other.Valid(c)
      modifies this`digest, other`digest
      ensures equal <==> c.kernelHash(kernel) == c.kernelHash(other.kernel)
      ensures Valid(c) && other.Valid(c)
    {
      var mine := Hash(c);
      var theirs := other.Hash(c);
      equal := mine == theirs;
    }

    /** `has_proof_of_work`: the block's hash does not exceed the target of
        the parent's difficulty. */
    method HasProofOfWork(previous: Block, c: Consensus) returns (satisfied: bool)
      requires Valid(c)
      modifies this`digest
      ensures satisfied == c.digestLe(c.kernelHash(kernel), c.target(previous.kernel.header.difficulty))
      ensures Valid(c)
    {
      var hash := Hash(c);
      var threshold := c.target(previous.kernel.header.difficulty);
      satisfied := c.digestLe(hash, threshold);
    }

    /** `get_mining_reward`: a hundred coins, halved once per generation. */
    static method GetMiningReward(c: Consensus, height: Felt) returns (reward: nat)
      ensures reward == MiningReward(c, height)
    {
      reward := 100 * c.coinUnits;
      var generation := c.generation(height);
      for i := 0 to generation
        invariant reward == Halvings(100 * c.coinUnits, i)
      {
        reward := reward / 2;
      }
    }

    /** `is_valid_extended`: the checks of `IsValidChild`, in the source's order,
        returning at the first that fails. Only the parent's digest cache
        may be filled. */
    method IsValidExtended(previous: Block, now: Timestamp, targetBlockInterval: Option<Timestamp>,
                           minimumBlockTime: Option<Timestamp>, c: Consensus) returns (valid: bool)
      requires previous.Valid(c)
      modifies previous`digest
      ensures valid == IsValidChild(c, kernel, previous.kernel, now, targetBlockInterval, minimumBlockTime)
      ensures previous.Valid(c)
    {
      var block := kernel;
      if Add(previous.kernel.header.height, 1) != block.header.height {
        return false;
      }
      var previousHash := previous.Hash(c);
      if previousHash != block.header.prevBlockDigest {
        return false;
      }
      var mmra := c.mmrAppend(previous.kernel.body.blockMmrAccumulator, previousHash);
      if mmra != block.body.blockMmrAccumulator {
        return false;
      }
      var minimum := if minimumBlockTime.Some? then minimumBlockTime.value else c.minimumBlockTime;
      if Add(previous.kernel.header.timestamp, minimum) > block.header.timestamp {
        return false;
      }
      var expected := c.difficultyControl(block.header.timestamp, previous.kernel.header.timestamp,
                                          previous.kernel.header.difficulty, targetBlockInterval,
                                          previous.kernel.header.height);
      if block.header.difficulty != expected {
        return false;
      }
      var futureLimit := Add(now, TWO_HOURS);
      if block.header.timestamp >= futureLimit {
        return false;
      }
      var k := block.body.transactionKernel;
      var previousSet := previous.kernel.body.mutatorSetAccumulator;
      for i := 0 to |k.inputs|
        invariant forall j :: 0 <= j < i ==> c.canRemove(previousSet, k.inputs[j])
      {
        if !c.canRemove(previousSet, k.inputs[i]) {
          return false;
        }
      }
      var sorted := IndexSets.SortIndexSets(AbsoluteIndexSets(k.inputs));
      var deduplicated := IndexSets.DedupIndexSets(sorted);
      IndexSets.SortDedupCountsDistinct(AbsoluteIndexSets(k.inputs), sorted);
      if |deduplicated| != |k.inputs| {
        return false;
      }
      match c.applyUpdate(previousSet, k.inputs, k.outputs) {
        case None =>
          return false;
        case Some(ms) =>
          if c.mutatorSetHash(ms) != c.mutatorSetHash(block.body.mutatorSetAccumulator) {
            return false;
          }
      }
      if k.timestamp > block.header.timestamp {
        return false;
      }
      var reward := GetMiningReward(c, block.header.height);
      var minerReward := reward + k.fee;
      if k.coinbase.Some? && k.coinbase.value > minerReward {
        return false;
      }
      return true;
    }

    /** `is_valid`: `is_valid_extended` with the default target block
        interval and minimum block time. */
    method IsValid(previous: Block, now: Timestamp, c: Consensus) returns (valid: bool)
      requires previous.Valid(c)
      modifies previous`digest
      ensures valid == IsValidChild(c, kernel, previous.kernel, now, None, None)
      ensures valid ==> LateEnough(kernel, previous.kernel, c.minimumBlockTime)
      ensures previous.Valid(c)
    {
      valid := IsValidExtended(previous, now, None, None, c);
    }

    /** `make_block_template`: only the parent's digest cache may be
        filled. */
    static method MakeBlockTemplate(previous: Block, transaction: Transactions.Transaction,
                                    timestamp: Timestamp, targetBlockInterval: Option<Timestamp>,
                                    c: Consensus)
      returns (r: Result<(BlockHeader, BB.BlockBody, BlockProof)>)
      requires previous.Valid(c)
      modifies previous`digest
      ensures r == Template(c, previous.kernel, transaction, timestamp, targetBlockInterval)
      ensures previous.Valid(c)
    {
      var k := transaction.kernel;
      var next: Acc.MutatorSetAccumulator;
      match c.applyUpdate(previous.kernel.body.mutatorSetAccumulator, k.inputs, k.outputs) {
        case None =>
          return Panic("Mutator set mutation must work");
        case Some(ms) =>
          next := ms;
      }
      var previousHash := previous.Hash(c);
      var mmra := c.mmrAppend(previous.kernel.body.blockMmrAccumulator, previousHash);
      var body := BB.New(k, next, Acc.EMPTY_MMR, mmra);
      var cumulative := previous.kernel.header.cumulativeProofOfWork + previous.kernel.header.difficulty;
      var height := Add(previous.kernel.header.height, 1);
      var ts := timestamp;
      if ts < previous.kernel.header.timestamp {
        ts := Add(previous.kernel.header.timestamp, ONE_SECOND);
      }
      var difficulty := c.difficultyControl(ts, previous.kernel.header.timestamp,
                                            previous.kernel.header.difficulty, targetBlockInterval,
                                            previous.kernel.header.height);
      var header := BlockHeader(0, height, previousHash, ts, [0, 0, 0], MAX_BLOCK_SIZE, cumulative, difficulty);
      r := Ok((header, body, DummyProof));
    }
  }
}
