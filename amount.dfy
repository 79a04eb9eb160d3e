/** `Amount`, the quantity type of transactions: a `U32s<4>`, i.e. four
    32-bit limbs read least significant first, worth Σ limb_i · 2^(32 i). */
module Amounts {
  import opened Wrappers
  import opened Field

  const LIMB_BASE: int := 0x1_0000_0000
  /** 2^128, one more than the largest amount. */
  const AMOUNT_BOUND: int := 0x1_0000_0000_0000_0000_0000_0000_0000_0000

  type U32 = x: int | 0 <= x < LIMB_BASE
  type U64 = x: int | 0 <= x < 0x1_0000_0000_0000_0000
  type I32 = x: int | -0x8000_0000 <= x < 0x8000_0000

  const AMOUNT_SIZE_FOR_U32: nat := 4
  type Limbs = s: seq<U32> | |s| == AMOUNT_SIZE_FOR_U32 witness [0, 0, 0, 0]

  datatype Amount = Amount(limbs: Limbs)

  datatype Ordering = Less | Equal | Greater

  /** The number a little-endian limb sequence stands for. */
  function LimbsValue(s: seq<U32>): nat
  {
    if |s| == 0 then 0 else s[0] + LIMB_BASE * LimbsValue(s[1..])
  }

  function Pow(b: nat, e: nat): nat
  {
    if e == 0 then 1 else b * Pow(b, e - 1)
  }

  lemma {:induction false} LimbsValueBound(s: seq<U32>)
    ensures LimbsValue(s) < Pow(LIMB_BASE, |s|)
  {
    if |s| > 0 {
      LimbsValueBound(s[1..]);
    }
  }

  function Value(a: Amount): (v: nat)
    ensures v < AMOUNT_BOUND
  {
    LimbsValueBound(a.limbs);
    assert Pow(LIMB_BASE, 4) == AMOUNT_BOUND;
    LimbsValue(a.limbs)
  }

  /** The n low limbs of v. */
  function LimbsOf(v: nat, n: nat): (r: seq<U32>)
    ensures |r| == n
  {
    if n == 0 then [] else [v % LIMB_BASE] + LimbsOf(v / LIMB_BASE, n - 1)
  }

  lemma {:induction false} LimbsOfValue(v: nat, n: nat)
    requires v < Pow(LIMB_BASE, n)
    ensures LimbsValue(LimbsOf(v, n)) == v
  {
    if n > 0 {
      LimbsOfValue(v / LIMB_BASE, n - 1);
      assert LimbsOf(v, n)[1..] == LimbsOf(v / LIMB_BASE, n - 1);
    }
  }

  /** The value of four limbs written out. */
  lemma FourLimbsValue(s: seq<U32>)
    requires |s| == 4
    ensures LimbsValue(s) == s[0] + LIMB_BASE * (s[1] + LIMB_BASE * (s[2] + LIMB_BASE * s[3]))
  {
    assert s[1..][1..] == s[2..] && s[2..][1..] == s[3..] && s[3..][1..] == [];
    assert LimbsValue(s[3..]) == s[3];
    assert LimbsValue(s[2..]) == s[2] + LIMB_BASE * s[3];
    assert LimbsValue(s[1..]) == s[1] + LIMB_BASE * (s[2] + LIMB_BASE * s[3]);
  }

  /** Two limb sequences of equal length stand for the same number only if
      they are equal. */
  lemma {:induction false} LimbsValueInjective(s: seq<U32>, t: seq<U32>)
    requires |s| == |t| && LimbsValue(s) == LimbsValue(t)
    ensures s == t
  {
    if |s| > 0 {
      LimbsValueInjective(s[1..], t[1..]);
      assert s == [s[0]] + s[1..] && t == [t[0]] + t[1..];
    }
  }

  /** The amount worth v. */
  function OfNat(v: nat): (a: Amount)
    requires v < AMOUNT_BOUND
    ensures Value(a) == v
  {
    assert Pow(LIMB_BASE, 4) == AMOUNT_BOUND;
    LimbsOfValue(v, 4);
    Amount(LimbsOf(v, 4))
  }

  /** `PartialEq`: limb-wise equality, which is equality of values. */
  lemma ValueInjective(a: Amount, b: Amount)
    ensures a == b <==> Value(a) == Value(b)
  {
    if Value(a) == Value(b) {
      LimbsValueInjective(a.limbs, b.limbs);
    }
  }

  lemma OfNatValue(a: Amount)
    ensures OfNat(Value(a)) == a
  {
    ValueInjective(OfNat(Value(a)), a);
  }

  /** `Zero::zero`. */
  function Zero(): (z: Amount)
    ensures Value(z) == 0
  {
    Amount([0, 0, 0, 0])
  }

  /** `Zero::is_zero`: compares the limbs with those of zero. */
  function IsZero(a: Amount): (r: bool)
    ensures r <==> Value(a) == 0
  {
    ValueInjective(a, Zero());
    a.limbs == Zero().limbs
  }

  /** `Amount::one`. */
  method One() returns (a: Amount)
    ensures Value(a) == 1
  {
    var values := new U32[AMOUNT_SIZE_FOR_U32](_ => 0);
    values[0] := 1;
    a := Amount(values[..]);
    FourLimbsValue(a.limbs);
  }

  /** `From<u32>`. */
  method FromU32(value: U32) returns (a: Amount)
    ensures a == OfNat(value)
  {
    var limbs := new U32[AMOUNT_SIZE_FOR_U32](_ => 0);
    limbs[0] := value;
    a := Amount(limbs[..]);
    FourLimbsValue(a.limbs);
    ValueInjective(a, OfNat(value));
  }

  /** `From<u64>`: the low half `value & u32::MAX` and the high half
      `value >> 32`. */
  method FromU64(value: U64) returns (a: Amount)
    ensures a == OfNat(value)
  {
    var limbs := new U32[AMOUNT_SIZE_FOR_U32](_ => 0);
    limbs[0] := value % LIMB_BASE;
    limbs[1] := value / LIMB_BASE;
    a := Amount(limbs[..]);
    FourLimbsValue(a.limbs);
    ValueInjective(a, OfNat(value));
  }

  /** `Sub`: always panics; callers must use `checked_sub`. */
  function Sub(a: Amount, b: Amount): (r: Result<Amount>)
    ensures r.Panic?
  {
    Panic("Cannot subtract Amounts; use `checked_sub` instead.")
  }

  /** `Neg`: zero minus the amount, hence always a panic. */
  function Neg(a: Amount): (r: Result<Amount>)
    ensures r.Panic?
  {
    Sub(Zero(), a)
  }

  /** `From<i32>`: a negative value is negated into limb 0 and then passed to
      `Neg`, which panics. */
  method FromI32(value: I32) returns (r: Result<Amount>)
    ensures value < 0 <==> r.Panic?
    ensures value >= 0 ==> r == Ok(OfNat(value))
  {
    var limbs := new U32[AMOUNT_SIZE_FOR_U32](_ => 0);
    if value < 0 {
      limbs[0] := (-(value as int)) % LIMB_BASE;
      r := Neg(Amount(limbs[..]));
    } else {
      limbs[0] := value;
      var a := Amount(limbs[..]);
      FourLimbsValue(a.limbs);
      ValueInjective(a, OfNat(value));
      r := Ok(a);
    }
  }

  /** `U32s::cmp`: the most significant differing limb decides. The limbs
      above limb 0 are compared first; limb 0 decides only on a tie. */
  function CmpLimbs(s: seq<U32>, t: seq<U32>): Ordering
    requires |s| == |t|
  {
    if |s| == 0 then Equal
    else
      var high := CmpLimbs(s[1..], t[1..]);
      if high != Equal then high
      else if s[0] < t[0] then Less
      else if s[0] > t[0] then Greater
      else Equal
  }

  lemma {:induction false} CmpLimbsNumeric(s: seq<U32>, t: seq<U32>)
    requires |s| == |t|
    ensures CmpLimbs(s, t) == Less <==> LimbsValue(s) < LimbsValue(t)
    ensures CmpLimbs(s, t) == Equal <==> LimbsValue(s) == LimbsValue(t)
    ensures CmpLimbs(s, t) == Greater <==> LimbsValue(s) > LimbsValue(t)
  {
    if |s| > 0 {
      CmpLimbsNumeric(s[1..], t[1..]);
    }
  }

  /** `Ord::cmp`. */
  function Cmp(a: Amount, b: Amount): (r: Ordering)
    ensures r == Less <==> Value(a) < Value(b)
    ensures r == Equal <==> Value(a) == Value(b)
    ensures r == Greater <==> Value(a) > Value(b)
  {
    CmpLimbsNumeric(a.limbs, b.limbs);
    CmpLimbs(a.limbs, b.limbs)
  }

  /** Ripple-carry addition of two limb sequences: the digits and the carry
      out of the top limb. */
  function AddLimbs(s: seq<U32>, t: seq<U32>, carry: nat): (r: (seq<U32>, nat))
    requires |s| == |t| && carry <= 1
    ensures |r.0| == |s| && r.1 <= 1
  {
    if |s| == 0 then ([], carry)
    else
      var total := s[0] + t[0] + carry;
      var rest := AddLimbs(s[1..], t[1..], total / LIMB_BASE);
      ([total % LIMB_BASE] + rest.0, rest.1)
  }

  lemma {:induction false} AddLimbsValue(s: seq<U32>, t: seq<U32>, carry: nat)
    requires |s| == |t| && carry <= 1
    ensures var r := AddLimbs(s, t, carry);
      LimbsValue(r.0) + Pow(LIMB_BASE, |s|) * r.1 == LimbsValue(s) + LimbsValue(t) + carry
  {
    if |s| > 0 {
      var total := s[0] + t[0] + carry;
      AddLimbsValue(s[1..], t[1..], total / LIMB_BASE);
      var rest := AddLimbs(s[1..], t[1..], total / LIMB_BASE);
      assert ([total % LIMB_BASE] + rest.0)[1..] == rest.0;
      var w := Pow(LIMB_BASE, |s| - 1);
      assert Pow(LIMB_BASE, |s|) * rest.1 == LIMB_BASE * (w * rest.1) by {
        if rest.1 == 0 {
        } else {
          assert rest.1 == 1;
        }
      }
    }
  }

  /** `Add`: the sum of the values. U32s<4> addition that overflows 2^128
      is not part of this model, so the sum must stay below it. */
  function Add(a: Amount, b: Amount): (r: Amount)
    requires Value(a) + Value(b) < AMOUNT_BOUND
    ensures Value(r) == Value(a) + Value(b)
  {
    AddLimbsValue(a.limbs, b.limbs, 0);
    assert Pow(LIMB_BASE, 4) == AMOUNT_BOUND;
    Amount(AddLimbs(a.limbs, b.limbs, 0).0)
  }

  /** Ripple-borrow subtraction: the digits and the borrow out of the top
      limb. */
  function SubLimbs(s: seq<U32>, t: seq<U32>, borrow: nat): (r: (seq<U32>, nat))
    requires |s| == |t| && borrow <= 1
    ensures |r.0| == |s| && r.1 <= 1
  {
    if |s| == 0 then ([], borrow)
    else
      var diff := s[0] - t[0] - borrow;
      var rest := SubLimbs(s[1..], t[1..], if diff < 0 then 1 else 0);
      ([if diff < 0 then diff + LIMB_BASE else diff] + rest.0, rest.1)
  }

  lemma {:induction false} SubLimbsValue(s: seq<U32>, t: seq<U32>, borrow: nat)
    requires |s| == |t| && borrow <= 1
    ensures var r := SubLimbs(s, t, borrow);
      LimbsValue(r.0) == LimbsValue(s) - LimbsValue(t) - borrow + Pow(LIMB_BASE, |s|) * r.1
  {
    if |s| > 0 {
      var diff := s[0] - t[0] - borrow;
      var next := if diff < 0 then 1 else 0;
      SubLimbsValue(s[1..], t[1..], next);
      var rest := SubLimbs(s[1..], t[1..], next);
      assert ([if diff < 0 then diff + LIMB_BASE else diff] + rest.0)[1..] == rest.0;
      var w := Pow(LIMB_BASE, |s| - 1);
      assert Pow(LIMB_BASE, |s|) * rest.1 == LIMB_BASE * (w * rest.1) by {
        if rest.1 == 0 {
        } else {
          assert rest.1 == 1;
        }
      }
    }
  }

  /** `CheckedSub::checked_sub`: the difference when the subtrahend is not
      larger, `None` otherwise. */
  function CheckedSub(a: Amount, b: Amount): (r: Option<Amount>)
    ensures r.Some? <==> Value(a) >= Value(b)
    ensures r.Some? ==> Value(r.value) == Value(a) - Value(b)
  {
    if Cmp(a, b) != Less then
      SubLimbsValue(a.limbs, b.limbs, 0);
      assert Pow(LIMB_BASE, 4) == AMOUNT_BOUND;
      var r := SubLimbs(a.limbs, b.limbs, 0);
      assert r.1 == 0 by {
        if r.1 == 1 {
          assert LimbsValue(r.0) >= AMOUNT_BOUND;
          LimbsValueBound(r.0);
        }
      }
      Some(Amount(r.0))
    else
      None
  }

  /** Limb-by-scalar multiplication with a running carry. */
  function MulLimbs(s: seq<U32>, factor: U64, carry: nat): (r: (seq<U32>, nat))
    ensures |r.0| == |s|
  {
    if |s| == 0 then ([], carry)
    else
      var total := s[0] * factor + carry;
      var rest := MulLimbs(s[1..], factor, total / LIMB_BASE);
      ([total % LIMB_BASE] + rest.0, rest.1)
  }

  lemma {:induction false} MulLimbsValue(s: seq<U32>, factor: U64, carry: nat)
    ensures var r := MulLimbs(s, factor, carry);
      LimbsValue(r.0) + Pow(LIMB_BASE, |s|) * r.1 == LimbsValue(s) * factor + carry
  {
    if |s| > 0 {
      var total := s[0] * factor + carry;
      MulLimbsValue(s[1..], factor, total / LIMB_BASE);
      var rest := MulLimbs(s[1..], factor, total / LIMB_BASE);
      assert ([total % LIMB_BASE] + rest.0)[1..] == rest.0;
      var w := Pow(LIMB_BASE, |s| - 1);
      var v := LimbsValue(s[1..]);
      calc {
        LimbsValue(s) * factor + carry;
        (s[0] + LIMB_BASE * v) * factor + carry;
        { MulDistributes(s[0], LIMB_BASE * v, factor); MulAssociates(LIMB_BASE, v, factor); }
        total + LIMB_BASE * (v * factor);
        total % LIMB_BASE + LIMB_BASE * (total / LIMB_BASE + v * factor);
        total % LIMB_BASE + LIMB_BASE * (LimbsValue(rest.0) + w * rest.1);
        { MulAssociates(LIMB_BASE, w, rest.1); }
        LimbsValue(MulLimbs(s, factor, carry).0) + Pow(LIMB_BASE, |s|) * rest.1;
      }
    }
  }

  /** Nonlinear arithmetic step of `MulLimbsValue`: distributivity. */
  lemma MulDistributes(x: int, y: int, z: int)
    ensures (x + y) * z == x * z + y * z
  {
  }

  /** Nonlinear arithmetic step of `ScalarMul`: a carry of at least one
      would push the product to the bound or beyond. */
  lemma MulAtLeast(k: nat, m: nat)
    ensures m >= 1 ==> k * m >= k
  {
  }

  /** Nonlinear arithmetic step of `MulLimbsValue`: associativity. */
  lemma MulAssociates(x: int, y: int, z: int)
    ensures (x * y) * z == x * (y * z)
  {
  }

  /** `AmountLike::scalar_mul`: the amount times a 64-bit factor. U32s<4>
      multiplication that overflows 2^128 is not part of this model, so the
      product must stay below it. */
  function ScalarMul(a: Amount, factor: U64): (r: Amount)
    requires Value(a) * factor < AMOUNT_BOUND
    ensures Value(r) == Value(a) * factor
  {
    MulLimbsValue(a.limbs, factor, 0);
    assert Pow(LIMB_BASE, 4) == AMOUNT_BOUND;
    var r := MulLimbs(a.limbs, factor, 0);
    MulAtLeast(AMOUNT_BOUND, r.1);
    assert r.1 == 0;
    Amount(r.0)
  }

  /** One-bit right shift across the limbs: each limb keeps its upper 31
      bits and takes the low bit of the limb above as its top bit. */
  function HalveLimbs(s: seq<U32>): (r: seq<U32>)
    ensures |r| == |s|
  {
    if |s| == 0 then []
    else
      var top := if |s| > 1 then (s[1] % 2) * 0x8000_0000 else 0;
      [s[0] / 2 + top] + HalveLimbs(s[1..])
  }

  lemma {:induction false} HalveLimbsValue(s: seq<U32>)
    ensures LimbsValue(HalveLimbs(s)) == LimbsValue(s) / 2
  {
    if |s| > 0 {
      HalveLimbsValue(s[1..]);
      var top := if |s| > 1 then (s[1] % 2) * 0x8000_0000 else 0;
      assert HalveLimbs(s)[1..] == HalveLimbs(s[1..]);
      var v := LimbsValue(s[1..]);
      assert v % 2 == (if |s| > 1 then s[1] % 2 else 0) by {
        if |s| > 1 {
          assert v == s[1] + LIMB_BASE * LimbsValue(s[2..]) by {
            assert s[1..][1..] == s[2..];
          }
        }
      }
    }
  }

  /** `Amount::div_two`, which halves in place; here it returns the halved
      amount, rounded down. */
  function DivTwo(a: Amount): (r: Amount)
    ensures Value(r) == Value(a) / 2
  {
    HalveLimbsValue(a.limbs);
    Amount(HalveLimbs(a.limbs))
  }

  function SumValues(xs: seq<Amount>): nat
  {
    if |xs| == 0 then 0 else SumValues(xs[..|xs| - 1]) + Value(xs[|xs| - 1])
  }

  /** `Sum`: folds `Add` over the amounts from zero, left to right. */
  function Sum(xs: seq<Amount>): (r: Amount)
    requires SumValues(xs) < AMOUNT_BOUND
    ensures Value(r) == SumValues(xs)
  {
    if |xs| == 0 then Zero()
    else Add(Sum(xs[..|xs| - 1]), xs[|xs| - 1])
  }

  /** A limb as a field element: every `u32` is below the field modulus. */
  function LimbElement(x: U32): (e: Felt)
    ensures e == x
  {
    x
  }

  /** `Hashable::to_sequence`: the four limbs as field elements, limb 0
      first. */
  function ToSequence(a: Amount): (r: seq<Felt>)
    ensures |r| == AMOUNT_SIZE_FOR_U32
    ensures forall i :: 0 <= i < AMOUNT_SIZE_FOR_U32 ==> r[i] == a.limbs[i]
  {
    seq(AMOUNT_SIZE_FOR_U32, i requires 0 <= i < AMOUNT_SIZE_FOR_U32 => LimbElement(a.limbs[i]))
  }

  /** `AmountLike::from_bfes`: each element is cast to `u32`, which keeps
      its low 32 bits; anything but exactly four elements panics. */
  function FromBfes(bfes: seq<Felt>): (r: Result<Amount>)
    ensures r.Ok? <==> |bfes| == AMOUNT_SIZE_FOR_U32
    ensures r.Ok? ==> forall i :: 0 <= i < AMOUNT_SIZE_FOR_U32 ==>
      r.value.limbs[i] == bfes[i] % LIMB_BASE
  {
    if |bfes| != AMOUNT_SIZE_FOR_U32 then Panic("wrong number of limbs")
    else Ok(Amount(seq(AMOUNT_SIZE_FOR_U32, i requires 0 <= i < AMOUNT_SIZE_FOR_U32 => bfes[i] % LIMB_BASE)))
  }

  /** Encoding an amount as field elements and reading it back gives the
      amount again. */
  lemma FromBfesToSequence(a: Amount)
    ensures FromBfes(ToSequence(a)) == Ok(a)
  {
    var r := FromBfes(ToSequence(a));
    assert r.value.limbs == a.limbs;
  }

  /** What `FromStr` produces. */
  datatype Parsed = Parsed(amount: Amount) | ParseError | Panicked

  /** `FromStr::from_str` after the string has been read as a signed integer
      (`None` when it is not one): a positive number becomes its amount, zero
      becomes zero, a negative number is subtracted from zero and panics, and
      an unreadable string is an error. */
  function FromStr(number: Option<int>): (r: Parsed)
    requires number.Some? ==> -AMOUNT_BOUND < number.value < AMOUNT_BOUND
    ensures r.Parsed? <==> number.Some? && number.value >= 0
    ensures r.Parsed? ==> Value(r.amount) == number.value
    ensures r == ParseError <==> number.None?
  {
    match number
    case None => ParseError
    case Some(n) =>
      if n > 0 then Parsed(OfNat(n))
      else if n == 0 then Parsed(Zero())
      else
        match Sub(Zero(), OfNat(-n))
        case Ok(a) => Parsed(a)
        case Panic(_) => Panicked
  }

  /** Adding the amounts of two 64-bit numbers whose sum fits in 64 bits
      gives the amount of their sum. `OfNat(a)` is the amount `FromU64`
      builds from `a`. */
  lemma FromU64Additive(a: U64, b: U64)
    requires a + b < 0x1_0000_0000_0000_0000
    ensures Add(OfNat(a), OfNat(b)) == OfNat(a + b)
  {
    ValueInjective(Add(OfNat(a), OfNat(b)), OfNat(a + b));
  }

  /** Nonlinear arithmetic step of `ScalarMulFromU32`: the product of two
      32-bit numbers is below 2^64. */
  lemma MulBelow(a: nat, b: nat, n: nat, m: nat)
    requires a < n && b < m
    ensures a * b < n * m
  {
  }

  /** Scaling the amount of a 32-bit number by a 32-bit factor gives the
      amount of the product. `OfNat(a)` is the amount `FromU32` builds from
      `a`. */
  lemma ScalarMulFromU32(a: U32, factor: U32)
    ensures Value(OfNat(a)) * factor < AMOUNT_BOUND
    ensures ScalarMul(OfNat(a), factor) == OfNat(a * factor)
  {
    MulBelow(a, factor, LIMB_BASE, LIMB_BASE);
    ValueInjective(ScalarMul(OfNat(a), factor), OfNat(a * factor));
  }

  lemma FourteenTimesThree()
    ensures ScalarMul(OfNat(14), 3) == OfNat(42)
  {
    ScalarMulFromU32(14, 3);
  }
}
