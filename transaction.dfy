/** A transaction as a block template consumes it: its kernel and the kind
    of proof that comes with it. */
module Transactions {
  import Stark
  import TK = TransactionKernels

  /** `TransactionProof`: only a single proof can be put in a block's
      appendix; the other kinds are told apart but not looked into. */
  datatype TransactionProof =
    | Invalid
    | Witness(primitiveWitness: TK.PrimitiveWitness)
    | SingleProof(proof: Stark.Proof)
    | ProofCollection

  datatype Transaction = Transaction(kernel: TK.TransactionKernel, proof: TransactionProof)
}
