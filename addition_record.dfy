/** `AdditionRecord`: the commitment a transaction output adds to the
    mutator set. */
module AdditionRecords {
  import opened Field

  datatype AdditionRecord = AdditionRecord(canonicalCommitment: Digest)

  /** `AdditionRecord::new`. */
  function New(canonicalCommitment: Digest): (r: AdditionRecord)
    ensures r.canonicalCommitment == canonicalCommitment
  {
    AdditionRecord(canonicalCommitment)
  }

  /** `Hashable::to_sequence`: the five elements of the commitment, in order. */
  function ToSequence(record: AdditionRecord): (s: seq<Felt>)
    ensures |s| == DIGEST_LENGTH
    ensures forall i :: 0 <= i < DIGEST_LENGTH ==> s[i] == record.canonicalCommitment[i]
  {
    record.canonicalCommitment
  }

  /** Two records hash the same preimage exactly when their commitments are
      equal. */
  lemma ToSequenceInjective(a: AdditionRecord, b: AdditionRecord)
    ensures ToSequence(a) == ToSequence(b) <==> a.canonicalCommitment == b.canonicalCommitment
  {
  }
}
