/** Elements of the Goldilocks prime field (`BFieldElement`) and five-element
    digests (`Digest`). Addition wraps modulo the field prime, exactly as the
    source's `+` on field elements, timestamps and block heights does. */
module Field {

  /** The field prime 2^64 - 2^32 + 1. */
  const P: int := 0xFFFF_FFFF_0000_0001

  type Felt = x: int | 0 <= x < P

  /** `BFieldElement::new(x)`: reduce an integer into the field. */
  function New(x: nat): (r: Felt)
    ensures x < P ==> r == x
  {
    x % P
  }

  /** Field addition. */
  function Add(a: Felt, b: Felt): (r: Felt)
    ensures a + b < P ==> r == a + b
    ensures a + b >= P ==> r == a + b - P
  {
    (a + b) % P
  }

  const DIGEST_LENGTH: nat := 5

  type Digest = s: seq<Felt> | |s| == DIGEST_LENGTH witness [0, 0, 0, 0, 0]

  /** `Digest::default()`, the all-zero digest. */
  const ZERO_DIGEST: Digest := [0, 0, 0, 0, 0]

  /** `Digest::reversed()`: the five elements in the opposite order. */
  function Reversed(d: Digest): (r: Digest)
    ensures forall i :: 0 <= i < DIGEST_LENGTH ==> r[i] == d[DIGEST_LENGTH - 1 - i]
  {
    [d[4], d[3], d[2], d[1], d[0]]
  }

}
