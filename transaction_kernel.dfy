/** `TransactionKernel`: the public part of a transaction, and the seven
    leaf preimages of its Merkle tree. */
module TransactionKernels {
  import opened Field
  import opened Wrappers
  import opened Accumulators
  import opened AdditionRecords
  import Merkle
  import FieldCodec

  /** `NeptuneCoins`, counted in its smallest unit. */
  type NeptuneCoins = nat

  /** `Timestamp`: milliseconds since the Unix epoch, in one field element. */
  type Timestamp = Felt

  datatype PublicAnnouncement = PublicAnnouncement(message: seq<Felt>)

  datatype TransactionKernel = TransactionKernel(
    inputs: seq<RemovalRecord>,
    outputs: seq<AdditionRecord>,
    publicAnnouncements: seq<PublicAnnouncement>,
    fee: NeptuneCoins,
    coinbase: Option<NeptuneCoins>,
    timestamp: Timestamp,
    mutatorSetHash: Digest)

  /** The `PrimitiveWitness` of a transaction, reduced to the kernel it
      carries; its secret parts are not part of this model. */
  datatype PrimitiveWitness = PrimitiveWitness(kernel: TransactionKernel, secrets: seq<Felt>)

  /** `From<PrimitiveWitness>`: the witness's kernel, unchanged. */
  function FromPrimitiveWitness(primitiveWitness: PrimitiveWitness): (k: TransactionKernel)
    ensures k == primitiveWitness.kernel
  {
    primitiveWitness.kernel
  }

  /** `TransactionKernelField`, in declaration order. */
  datatype TransactionKernelField =
    Inputs | Outputs | PublicAnnouncements | Fee | Coinbase | TimestampField | MutatorSetHash
  {
    /** `HasDiscriminant::discriminant`: the declaration index. */
    function Discriminant(): (d: nat)
      ensures d < 7
    {
      match this
      case Inputs => 0
      case Outputs => 1
      case PublicAnnouncements => 2
      case Fee => 3
      case Coinbase => 4
      case TimestampField => 5
      case MutatorSetHash => 6
    }
  }

  /** The field with a given discriminant: the inverse of `discriminant`. */
  function FieldWithDiscriminant(d: nat): (f: TransactionKernelField)
    requires d < 7
    ensures f.Discriminant() == d
  {
    [Inputs, Outputs, PublicAnnouncements, Fee, Coinbase, TimestampField, MutatorSetHash][d]
  }

  /** Discriminants tell fields apart. */
  lemma DiscriminantInjective(f: TransactionKernelField)
    ensures FieldWithDiscriminant(f.Discriminant()) == f
  {
  }

  /** The derived `BFieldCodec` encoders of the field types whose layout is
      not part of this model, each with its decoder. */
  datatype KernelCodec = KernelCodec(
    encodeInputs: seq<RemovalRecord> -> seq<Felt>,
    decodeInputs: seq<Felt> -> Option<seq<RemovalRecord>>,
    encodeOutputs: seq<AdditionRecord> -> seq<Felt>,
    decodeOutputs: seq<Felt> -> Option<seq<AdditionRecord>>,
    encodeAnnouncements: seq<PublicAnnouncement> -> seq<Felt>,
    decodeAnnouncements: seq<Felt> -> Option<seq<PublicAnnouncement>>,
    encodeCoins: NeptuneCoins -> seq<Felt>,
    decodeCoins: seq<Felt> -> Option<NeptuneCoins>,
    encodeOptionalCoins: Option<NeptuneCoins> -> seq<Felt>,
    decodeOptionalCoins: seq<Felt> -> Option<Option<NeptuneCoins>>)
  {
    /** Each decoder undoes its encoder. */
    ghost predicate RoundTrips()
    {
      (forall x: seq<RemovalRecord> :: decodeInputs(encodeInputs(x)) == Some(x)) &&
      (forall x: seq<AdditionRecord> :: decodeOutputs(encodeOutputs(x)) == Some(x)) &&
      (forall x: seq<PublicAnnouncement> :: decodeAnnouncements(encodeAnnouncements(x)) == Some(x)) &&
      (forall x: NeptuneCoins :: decodeCoins(encodeCoins(x)) == Some(x)) &&
      (forall x: Option<NeptuneCoins> :: decodeOptionalCoins(encodeOptionalCoins(x)) == Some(x))
    }
  }

  /** A timestamp encodes as its one field element. */
  function EncodeTimestamp(t: Timestamp): seq<Felt>
  {
    [t]
  }

  function DecodeTimestamp(s: seq<Felt>): Option<Timestamp>
  {
    if |s| == 1 then Some(s[0]) else None
  }

  /** A digest encodes as its five field elements. */
  function EncodeDigest(d: Digest): seq<Felt>
  {
    d
  }

  function DecodeDigest(s: seq<Felt>): Option<Digest>
  {
    if |s| == DIGEST_LENGTH then Some(s) else None
  }

  /** The encoding of one field of the kernel. */
  function FieldSequence(k: TransactionKernel, c: KernelCodec, f: TransactionKernelField): seq<Felt>
  {
    match f
    case Inputs => c.encodeInputs(k.inputs)
    case Outputs => c.encodeOutputs(k.outputs)
    case PublicAnnouncements => c.encodeAnnouncements(k.publicAnnouncements)
    case Fee => c.encodeCoins(k.fee)
    case Coinbase => c.encodeOptionalCoins(k.coinbase)
    case TimestampField => EncodeTimestamp(k.timestamp)
    case MutatorSetHash => EncodeDigest(k.mutatorSetHash)
  }

  /** `MastHash::mast_sequences`: the seven field encodings, the one for
      field f at index `f.discriminant()`. */
  function MastSequences(k: TransactionKernel, c: KernelCodec): (r: seq<seq<Felt>>)
    ensures |r| == 7
    ensures forall f: TransactionKernelField :: r[f.Discriminant()] == FieldSequence(k, c, f)
    ensures |r[TimestampField.Discriminant()]| == 1
  {
    [ c.encodeInputs(k.inputs),
      c.encodeOutputs(k.outputs),
      c.encodeAnnouncements(k.publicAnnouncements),
      c.encodeCoins(k.fee),
      c.encodeOptionalCoins(k.coinbase),
      EncodeTimestamp(k.timestamp),
      EncodeDigest(k.mutatorSetHash) ]
  }

  /** `MastHash::mast_hash`: the root of the Merkle tree over the hashed
      field encodings, padded with the zero digest to eight leaves. */
  function MastHash(h: Merkle.Hasher, k: TransactionKernel, c: KernelCodec): (r: Digest)
    ensures r == Merkle.Root(h, KernelLeaves(h, k, c))
  {
    assert Merkle.NextPowerOfTwo(7) == 8 by {
      assert Merkle.NextPowerOfTwo(2) == 2;
      assert Merkle.NextPowerOfTwo(4) == 4;
    }
    assert Merkle.Padded(Merkle.Leaves(h, MastSequences(k, c)), 8) == KernelLeaves(h, k, c);
    Merkle.MastHashOf(h, MastSequences(k, c))
  }

  /** The leaves hashed from the encodings of inputs, outputs, public
      announcements, fee, coinbase, timestamp and mutator-set hash, then the
      zero digest. */
  function KernelLeaves(h: Merkle.Hasher, k: TransactionKernel, c: KernelCodec): (leaves: seq<Digest>)
    ensures |leaves| == 8 && leaves[7] == ZERO_DIGEST
    ensures forall f: TransactionKernelField ::
      leaves[f.Discriminant()] == h.varlen(FieldSequence(k, c, f))
  {
    Merkle.Leaves(h, MastSequences(k, c)) + [ZERO_DIGEST]
  }

  /** Every field encoding fits its length in one word. */
  predicate Encodable(k: TransactionKernel, c: KernelCodec)
  {
    FieldCodec.Framable(MastSequences(k, c))
  }

  /** The derived `BFieldCodec::encode` of a kernel: its seven field
      encodings in declaration order, each prefixed by its length. Reading
      the words back as seven length-prefixed fields gives exactly those
      field encodings. */
  function Encode(k: TransactionKernel, c: KernelCodec): (r: seq<Felt>)
    requires Encodable(k, c)
    ensures FieldCodec.Unframe(r, 7) == Some(MastSequences(k, c))
  {
    FieldCodec.UnframeFrame(MastSequences(k, c));
    FieldCodec.Frame(MastSequences(k, c))
  }

  /** `BFieldCodec::decode`: seven length-prefixed fields, each decoded by
      its own decoder. A successful decode accounts for every input word:
      the words are exactly the framing of the seven fields it read, with
      nothing skipped or left over. */
  function Decode(words: seq<Felt>, c: KernelCodec): (r: Option<TransactionKernel>)
    ensures r.Some? ==>
      var fields := FieldCodec.Unframe(words, 7);
      fields.Some? && FieldCodec.Framable(fields.value) && FieldCodec.Frame(fields.value) == words
  {
    match FieldCodec.Unframe(words, 7)
    case None => None
    case Some(s) =>
      FieldCodec.FrameUnframe(words, 7);
      match (c.decodeInputs(s[0]), c.decodeOutputs(s[1]), c.decodeAnnouncements(s[2]),
             c.decodeCoins(s[3]), c.decodeOptionalCoins(s[4]), DecodeTimestamp(s[5]),
             DecodeDigest(s[6]))
      case (Some(i), Some(o), Some(a), Some(f), Some(cb), Some(t), Some(m)) =>
        Some(TransactionKernel(i, o, a, f, cb, t, m))
      case _ => None
  }

  /** Decoding the encoding of a kernel gives the kernel back. */
  lemma DecodeEncode(k: TransactionKernel, c: KernelCodec)
    requires c.RoundTrips() && Encodable(k, c)
    ensures Decode(Encode(k, c), c) == Some(k)
  {
  }
}
