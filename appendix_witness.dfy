/** The appendix witness: everything the block program needs to prove a
    block, namely the block body's hash and the claims with their proofs,
    kept in lockstep. */
module AppendixWitnesses {
  import opened Field
  import opened Wrappers
  import opened Stark
  import BB = BlockBodies
  import Transactions
  import Snippet = KernelMastHashSnippet

  type Memory = map<Felt, Felt>

  /** The non-determinism handed to the VM: secret input words, digests and
      initial RAM. */
  datatype NonDeterminism = NonDeterminism(individualTokens: seq<Felt>, digests: seq<Digest>, ram: Memory)

  /** `BlockAppendix`: the claims a block attests to. */
  datatype BlockAppendix = BlockAppendix(claims: seq<Claim>)

  /** What a block primitive witness provides here: the block body and the
      transaction it includes. */
  datatype BlockPrimitiveWitness = BlockPrimitiveWitness(body: BB.BlockBody, transaction: Transactions.Transaction)

  /** The operations the appendix witness calls whose internals lie outside
      this model: STARK verification, the claim of the single-proof program,
      the claims consensus requires of a body, the field encodings of claim
      lists and of the witness, the first non-deterministically initialised
      memory address and the STARK verifier's own non-determinism. */
  datatype Oracles = Oracles(
    verify: (Claim, Proof) -> bool,
    singleProofClaim: Digest -> Claim,
    consensusClaims: BB.BlockBody -> seq<Claim>,
    encodeClaims: seq<Claim> -> seq<Felt>,
    encodeWitness: (Digest, seq<Claim>, seq<Proof>) -> seq<Felt>,
    firstNondeterministicAddress: Felt,
    updateNondeterminism: (NonDeterminism, Proof, Claim) -> NonDeterminism)

  /** `encode_to_memory`: `words` written at consecutive addresses from
      `address`. */
  function EncodeToMemory(ram: Memory, address: Felt, words: seq<Felt>): Memory
    decreases |words|
  {
    if |words| == 0 then ram
    else EncodeToMemory(ram[address := words[0]], Add(address, 1), words[1..])
  }

  /** Writing leaves every address before the written range alone. */
  lemma {:induction false} EncodeToMemoryKeeps(ram: Memory, address: Felt, words: seq<Felt>, other: Felt)
    requires address as int + |words| < P
    requires other < address
    ensures other in EncodeToMemory(ram, address, words) <==> other in ram
    ensures other in ram ==> EncodeToMemory(ram, address, words)[other] == ram[other]
    decreases |words|
  {
    if |words| > 0 {
      EncodeToMemoryKeeps(ram[address := words[0]], Add(address, 1), words[1..], other);
    }
  }

  /** When the words fit below the end of the field, memory afterwards holds
      exactly them from `address` on. */
  lemma {:induction false} EncodeToMemoryHolds(ram: Memory, address: Felt, words: seq<Felt>)
    requires address as int + |words| < P
    ensures Snippet.Holds(EncodeToMemory(ram, address, words), address, words)
    decreases |words|
  {
    if |words| > 0 {
      var next := Add(address, 1);
      var m := EncodeToMemory(ram, address, words);
      EncodeToMemoryHolds(ram[address := words[0]], next, words[1..]);
      EncodeToMemoryKeeps(ram[address := words[0]], next, words[1..], address);
      forall i: nat | i < |words|
        ensures Snippet.Offset(address, i) in m && m[Snippet.Offset(address, i)] == words[i]
      {
        if i > 0 {
          Snippet.HoldsAt(m, next, words[1..], i - 1);
        }
      }
    }
  }

  /** The pairs' contributions to the non-determinism, in order. */
  function UpdateAll(o: Oracles, nd: NonDeterminism, claims: seq<Claim>, proofs: seq<Proof>): NonDeterminism
    requires |claims| == |proofs|
    decreases |claims|
  {
    if |claims| == 0 then nd
    else UpdateAll(o, o.updateNondeterminism(nd, proofs[0], claims[0]), claims[1..], proofs[1..])
  }

  lemma {:induction false} UpdateAllStep(o: Oracles, nd: NonDeterminism, claims: seq<Claim>, proofs: seq<Proof>, i: nat)
    requires |claims| == |proofs| && i < |claims|
    ensures UpdateAll(o, nd, claims[..i + 1], proofs[..i + 1])
         == o.updateNondeterminism(UpdateAll(o, nd, claims[..i], proofs[..i]), proofs[i], claims[i])
    decreases i
  {
    if i > 0 {
      var next := o.updateNondeterminism(nd, proofs[0], claims[0]);
      assert claims[..i + 1][1..] == claims[1..][..i] && proofs[..i + 1][1..] == proofs[1..][..i];
      assert claims[..i][1..] == claims[1..][..i - 1] && proofs[..i][1..] == proofs[1..][..i - 1];
      UpdateAllStep(o, next, claims[1..], proofs[1..], i - 1);
    }
  }

  /** `AppendixWitness`: the body hash, and claims and proofs side by side. */
  class AppendixWitness {
    var blockBodyHash: Digest
    var claims: seq<Claim>
    var proofs: seq<Proof>

    /** Claims and proofs pair up one to one, and every pair verifies. */
    predicate Valid(o: Oracles)
      reads this
    {
      |claims| == |proofs| && forall i :: 0 <= i < |claims| ==> o.verify(claims[i], proofs[i])
    }

    /** `new`: the body's hash and no claims yet. */
    constructor New(body: BB.BlockBody, e: BB.Encoding)
      ensures blockBodyHash == BB.MastHash(e, body) && claims == [] && proofs == []
    {
      blockBodyHash := BB.MastHash(e, body);
      claims := [];
      proofs := [];
    }

    /** `with_claim`: panics unless the proof verifies against the claim;
        otherwise appends both. */
    method WithClaim(claim: Claim, proof: Proof, o: Oracles) returns (r: Result<()>)
      requires Valid(o)
      modifies this`claims, this`proofs
      ensures r.Ok? <==> o.verify(claim, proof)
      ensures r.Ok? ==> claims == old(claims) + [claim] && proofs == old(proofs) + [proof]
      ensures r.Panic? ==> claims == old(claims) && proofs == old(proofs)
      ensures Valid(o)
    {
      if !o.verify(claim, proof) {
        return Panic("claim does not verify");
      }
      claims := claims + [claim];
      proofs := proofs + [proof];
      r := Ok(());
    }

    /** `claims`: a copy of the claims. */
    function Claims(): (r: seq<Claim>)
      reads this
      ensures |r| == |claims| && forall i :: 0 <= i < |r| ==> r[i] == claims[i]
    {
      claims
    }

    /** `appendix`: the appendix built from exactly the claims. */
    function Appendix(): (a: BlockAppendix)
      reads this
      ensures a.claims == claims
    {
      BlockAppendix(Claims())
    }

    /** `standard_input`: the body hash, in reverse word order. */
    function StandardInput(): (input: seq<Felt>)
      reads this
      ensures |input| == DIGEST_LENGTH
      ensures forall i :: 0 <= i < DIGEST_LENGTH ==> input[i] == blockBodyHash[DIGEST_LENGTH - 1 - i]
    {
      Reversed(blockBodyHash)
    }

    /** `output`: the encoding of the claims. */
    function Output(o: Oracles): (output: seq<Felt>)
      reads this
      ensures output == o.encodeClaims(claims)
    {
      o.encodeClaims(Claims())
    }

    /** The non-determinism `nondeterminism` builds: the encoded witness in
        RAM from the first non-deterministic address, then each claim with
        its proof handed to the STARK verifier in order. Claims and proofs of
        different lengths make `zip_eq` panic. */
    function NondeterminismOf(o: Oracles): (r: Result<NonDeterminism>)
      reads this
      ensures r.Ok? <==> |claims| == |proofs|
    {
      if |claims| != |proofs| then Panic("zip_eq: lengths differ")
      else
        var ram := EncodeToMemory(map[], o.firstNondeterministicAddress,
                                  o.encodeWitness(blockBodyHash, claims, proofs));
        Ok(UpdateAll(o, NonDeterminism([], [], ram), claims, proofs))
    }

    /** `nondeterminism`, walking the zipped pairs. */
    method Nondeterminism(o: Oracles) returns (r: Result<NonDeterminism>)
      ensures r == NondeterminismOf(o)
    {
      var ram := EncodeToMemory(map[], o.firstNondeterministicAddress,
                                o.encodeWitness(blockBodyHash, claims, proofs));
      var initial := NonDeterminism([], [], ram);
      var nd := initial;
      for i := 0 to |claims|
        invariant i <= |proofs|
        invariant nd == UpdateAll(o, initial, claims[..i], proofs[..i])
      {
        if i >= |proofs| {
          return Panic("zip_eq: lengths differ");
        }
        UpdateAllStep(o, initial, claims[..i + 1], proofs[..i + 1], i);
        assert claims[..i + 1][..i + 1] == claims[..i + 1] && proofs[..i + 1][..i + 1] == proofs[..i + 1];
        assert claims[..i + 1][..i] == claims[..i] && proofs[..i + 1][..i] == proofs[..i];
        nd := o.updateNondeterminism(nd, proofs[i], claims[i]);
      }
      if |proofs| > |claims| {
        return Panic("zip_eq: lengths differ");
      }
      assert claims[..|claims|] == claims && proofs[..|proofs|] == proofs;
      r := Ok(nd);
    }

    /** `produce`: a single-proof transaction's proof, checked against the
        claim that the kernel is valid, becomes the one claim of a fresh
        witness; any other kind of transaction proof, a proof that does not
        verify, or a claim list other than the one consensus requires, is a
        panic. */
    static method Produce(primitiveWitness: BlockPrimitiveWitness, e: BB.Encoding, o: Oracles)
      returns (r: Result<AppendixWitness>)
      ensures var claim := o.singleProofClaim(BB.KernelMastHash(e, primitiveWitness.body.transactionKernel));
        r.Ok? <==>
          && primitiveWitness.transaction.proof.SingleProof?
          && o.verify(claim, primitiveWitness.transaction.proof.proof)
          && o.consensusClaims(primitiveWitness.body) == [claim]
      ensures r.Ok? ==> fresh(r.value) && r.value.Valid(o)
      ensures r.Ok? ==>
        && r.value.blockBodyHash == BB.MastHash(e, primitiveWitness.body)
        && r.value.claims == o.consensusClaims(primitiveWitness.body)
        && r.value.proofs == [primitiveWitness.transaction.proof.proof]
    {
      var kernelHash := BB.KernelMastHash(e, primitiveWitness.body.transactionKernel);
      var claim := o.singleProofClaim(kernelHash);
      var proof: Proof;
      match primitiveWitness.transaction.proof {
        case SingleProof(p) =>
          proof := p;
        case _ =>
          return Panic("can only produce appendix witness from single-proof transaction");
      }
      var w := new AppendixWitness.New(primitiveWitness.body, e);
      var added := w.WithClaim(claim, proof, o);
      if added.Panic? {
        return Panic(added.reason);
      }
      if o.consensusClaims(primitiveWitness.body) != w.claims {
        return Panic("appendix witness must attest to expected claims");
      }
      r := Ok(w);
    }
  }

  /** A witness whose claims and proofs pair up always yields its
      non-determinism, and the RAM holds the encoded witness when it fits
      below the end of the field. */
  lemma NondeterminismOfValid(w: AppendixWitness, o: Oracles)
    requires w.Valid(o)
    ensures w.NondeterminismOf(o).Ok?
    ensures var words := o.encodeWitness(w.blockBodyHash, w.claims, w.proofs);
      o.firstNondeterministicAddress as int + |words| < P ==>
        Snippet.Holds(EncodeToMemory(map[], o.firstNondeterministicAddress, words),
                      o.firstNondeterministicAddress, words)
  {
    var words := o.encodeWitness(w.blockBodyHash, w.claims, w.proofs);
    if o.firstNondeterministicAddress as int + |words| < P {
      EncodeToMemoryHolds(map[], o.firstNondeterministicAddress, words);
    }
  }
}
