/** The `AbstractBit` and `AbstractBitVector` operation contract. The
    abstract primitives are supplied by a backend and left uninterpreted;
    the derived operations are defined exactly as compositions of them. */
module BitAlgebra {

  /** The primitives a concrete backend implements, over its bit type `B`
      and its bit-vector type `V`. Only those the derived operations use are
      listed. */
  datatype Backend<!B, !V> = Backend(
    bitNot: B -> B,          // AbstractBit.__invert__
    bitOr: (B, B) -> B,      // AbstractBit.__or__
    bitEq: (B, B) -> B,      // AbstractBit.__eq__
    bvnot: V -> V,
    bvand: (V, V) -> V,
    bvor: (V, V) -> V,
    bvxor: (V, V) -> V,
    bvcomp: (V, V) -> B,
    bvult: (V, V) -> B,
    bvslt: (V, V) -> B,
    bvneg: V -> V,
    bvadd: (V, V) -> V)

  /** `AbstractBit.__ne__`. */
  function BitNe<B, V>(be: Backend<B, V>, a: B, b: B): B {
    be.bitNot(be.bitEq(a, b))
  }

  function BvNand<B, V>(be: Backend<B, V>, a: V, b: V): V {
    be.bvnot(be.bvand(a, b))
  }

  function BvNor<B, V>(be: Backend<B, V>, a: V, b: V): V {
    be.bvnot(be.bvor(a, b))
  }

  function BvXnor<B, V>(be: Backend<B, V>, a: V, b: V): V {
    be.bvnot(be.bvxor(a, b))
  }

  function BvEq<B, V>(be: Backend<B, V>, a: V, b: V): B {
    be.bvcomp(a, b)
  }

  function BvNe<B, V>(be: Backend<B, V>, a: V, b: V): B {
    be.bitNot(be.bvcomp(a, b))
  }

  function BvUle<B, V>(be: Backend<B, V>, a: V, b: V): B {
    be.bitOr(be.bvult(a, b), be.bvcomp(a, b))
  }

  function BvUgt<B, V>(be: Backend<B, V>, a: V, b: V): B {
    be.bitNot(BvUle(be, a, b))
  }

  function BvUge<B, V>(be: Backend<B, V>, a: V, b: V): B {
    be.bitNot(be.bvult(a, b))
  }

  function BvSle<B, V>(be: Backend<B, V>, a: V, b: V): B {
    be.bitOr(be.bvslt(a, b), be.bvcomp(a, b))
  }

  function BvSgt<B, V>(be: Backend<B, V>, a: V, b: V): B {
    be.bitNot(BvSle(be, a, b))
  }

  function BvSge<B, V>(be: Backend<B, V>, a: V, b: V): B {
    be.bitNot(be.bvslt(a, b))
  }

  function BvSub<B, V>(be: Backend<B, V>, a: V, b: V): V {
    be.bvadd(a, be.bvneg(b))
  }

  /** When the backend's bit negation is an involution, each comparison is
      the negation of its complement. */
  lemma ComplementPairs<B(!new), V>(be: Backend<B, V>, a: V, b: V)
    requires forall x :: be.bitNot(be.bitNot(x)) == x
    ensures be.bitNot(BvNe(be, a, b)) == BvEq(be, a, b)
    ensures be.bitNot(BvUgt(be, a, b)) == BvUle(be, a, b)
    ensures be.bitNot(BvUge(be, a, b)) == be.bvult(a, b)
    ensures be.bitNot(BvSgt(be, a, b)) == BvSle(be, a, b)
    ensures be.bitNot(BvSge(be, a, b)) == be.bvslt(a, b)
  {
  }
}
