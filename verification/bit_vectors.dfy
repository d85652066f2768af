/** A reference backend: bit-vectors as sequences of bits, least significant
    first, with the usual two's complement meaning of each primitive. Against
    it, every derived operation of the `AbstractBitVector` contract computes
    what its name promises. */
module BitVectors {
  import opened BitAlgebra
  import opened Arith

  type Bits = seq<bool>

  /** The unsigned value of a bit-vector. */
  function Unsigned(a: Bits): nat {
    if a == [] then 0 else (if a[0] then 1 else 0) + 2 * Unsigned(a[1..])
  }

  /** The two's complement value of a bit-vector: the top bit weighs `-2^(w-1)`. */
  function Signed(a: Bits): int {
    if a == [] then 0 else Unsigned(a) - (if a[|a| - 1] then Pow2(|a|) else 0)
  }

  /** The `w` low bits of `n`, read in two's complement when `n` is negative. */
  function FromInt(w: nat, n: int): (a: Bits)
    ensures |a| == w
  {
    if w == 0 then [] else [n % 2 == 1] + FromInt(w - 1, n / 2)
  }

  /** Bitwise operations apply position by position; a missing bit of the
      right operand reads as 0, so the result has the width of the left one. */
  function Bit(b: Bits, i: nat): bool {
    i < |b| && b[i]
  }

  function Not(a: Bits): Bits {
    seq(|a|, i requires 0 <= i < |a| => !a[i])
  }

  function And(a: Bits, b: Bits): Bits {
    seq(|a|, i requires 0 <= i < |a| => a[i] && Bit(b, i))
  }

  function Or(a: Bits, b: Bits): Bits {
    seq(|a|, i requires 0 <= i < |a| => a[i] || Bit(b, i))
  }

  function Xor(a: Bits, b: Bits): Bits {
    seq(|a|, i requires 0 <= i < |a| => a[i] != Bit(b, i))
  }

  function Ult(a: Bits, b: Bits): bool {
    Unsigned(a) < Unsigned(b)
  }

  function Slt(a: Bits, b: Bits): bool {
    Signed(a) < Signed(b)
  }

  function Neg(a: Bits): Bits {
    FromInt(|a|, -(Unsigned(a) as int))
  }

  function Add(a: Bits, b: Bits): Bits {
    FromInt(|a|, Unsigned(a) + Unsigned(b))
  }

  /** The bits backend: boolean bits, bitwise logic position by position,
      `bvcomp` as equality, `bvult` and `bvslt` on the unsigned and signed
      values, and `bvneg` and `bvadd` modulo `2^w` at the width of the left operand. */
  function Bv(): Backend<bool, Bits> {
    Backend(x => !x, (x, y) => x || y, (x, y) => x == y,
            Not, And, Or, Xor, (a, b) => a == b, Ult, Slt, Neg, Add)
  }

  /** `AbstractBit.__ne__` on a boolean bit is inequality. */
  lemma BitNeMeaning(x: bool, y: bool)
    ensures BitNe(Bv(), x, y) == (x != y)
  {
  }

  /** `bvnand`, `bvnor` and `bvxnor` are the negated bitwise operations,
      position by position. */
  lemma BitwiseMeaning(a: Bits, b: Bits)
    requires |a| == |b|
    ensures |BvNand(Bv(), a, b)| == |BvNor(Bv(), a, b)| == |BvXnor(Bv(), a, b)| == |a|
    ensures forall i :: 0 <= i < |a| ==> BvNand(Bv(), a, b)[i] == !(a[i] && b[i])
    ensures forall i :: 0 <= i < |a| ==> BvNor(Bv(), a, b)[i] == !(a[i] || b[i])
    ensures forall i :: 0 <= i < |a| ==> BvXnor(Bv(), a, b)[i] == (a[i] == b[i])
  {
  }

  lemma {:induction false} UnsignedBound(a: Bits)
    ensures Unsigned(a) < Pow2(|a|)
  {
    if a != [] {
      UnsignedBound(a[1..]);
    }
  }

  /** Equal-width bit-vectors with the same unsigned value are equal. */
  lemma {:induction false} UnsignedInjective(a: Bits, b: Bits)
    requires |a| == |b| && Unsigned(a) == Unsigned(b)
    ensures a == b
  {
    if a != [] {
      assert a[0] == b[0];
      UnsignedInjective(a[1..], b[1..]);
      assert a == [a[0]] + a[1..] && b == [b[0]] + b[1..];
    }
  }

  /** Equal-width bit-vectors with the same signed value are equal. */
  lemma SignedInjective(a: Bits, b: Bits)
    requires |a| == |b| && Signed(a) == Signed(b)
    ensures a == b
  {
    if a != [] {
      UnsignedBound(a);
      UnsignedBound(b);
      UnsignedInjective(a, b);
    }
  }

  /** Every comparison of the contract agrees with the comparison of the
      unsigned or signed values it names. */
  lemma ComparisonMeaning(a: Bits, b: Bits)
    requires |a| == |b|
    ensures BvEq(Bv(), a, b) == (a == b) && BvNe(Bv(), a, b) == (a != b)
    ensures BvUle(Bv(), a, b) == (Unsigned(a) <= Unsigned(b))
    ensures BvUgt(Bv(), a, b) == (Unsigned(a) > Unsigned(b))
    ensures BvUge(Bv(), a, b) == (Unsigned(a) >= Unsigned(b))
    ensures BvSle(Bv(), a, b) == (Signed(a) <= Signed(b))
    ensures BvSgt(Bv(), a, b) == (Signed(a) > Signed(b))
    ensures BvSge(Bv(), a, b) == (Signed(a) >= Signed(b))
  {
    if Unsigned(a) == Unsigned(b) {
      UnsignedInjective(a, b);
    }
    if Signed(a) == Signed(b) {
      SignedInjective(a, b);
    }
  }

  /** The bits of `FromInt(w, n)` read back as `n` modulo `2^w`. */
  lemma {:induction false} FromIntValue(w: nat, n: int)
    ensures Unsigned(FromInt(w, n)) == n % Pow2(w)
  {
    if w > 0 {
      var p := Pow2(w - 1);
      var a := FromInt(w, n);
      FromIntValue(w - 1, n / 2);
      assert a[1..] == FromInt(w - 1, n / 2);
      assert Unsigned(a) == n % 2 + 2 * ((n / 2) % p);
      ModDouble(n, p);
    }
  }

  /** `bvsub` is subtraction modulo `2^w`. */
  lemma SubMeaning(a: Bits, b: Bits)
    requires |a| == |b|
    ensures |BvSub(Bv(), a, b)| == |a|
    ensures Unsigned(BvSub(Bv(), a, b)) == (Unsigned(a) - Unsigned(b)) % Pow2(|a|)
  {
    var p := Pow2(|a|);
    var ua, ub := Unsigned(a), Unsigned(b) as int;
    var nb := FromInt(|a|, -ub);
    assert Bv().bvneg(b) == nb;
    var d := FromInt(|a|, ua + Unsigned(nb));
    assert BvSub(Bv(), a, b) == d;
    FromIntValue(|a|, -ub);
    FromIntValue(|a|, ua + Unsigned(nb));
    ModAddRight(ua, -ub, p);
  }
}
