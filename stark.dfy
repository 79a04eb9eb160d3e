/** Stand-ins for the Triton VM proof types the node passes around without
    looking inside: a proof is a list of field elements and a claim names a
    program together with its public input and output. */
module Stark {
  import opened Field

  datatype Proof = Proof(words: seq<Felt>)

  datatype Claim = Claim(programDigest: Digest, input: seq<Felt>, output: seq<Felt>)
}
