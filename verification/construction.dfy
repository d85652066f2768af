/** `AbstractBitVectorMeta.__call__`: constructing a bit-vector value from a
    type, either sized directly or through the legacy path that infers the
    width from the value. */
module Construction {
  import opened Outcomes
  import opened Classes
  import opened SizedTypes
  import opened Arith

  /** What `__call__` can observe of a value, one field per `isinstance` or
      `hasattr` test it makes. A value may pass several tests (a bool is an
      int, a bit-vector may also be a sequence); the first test wins. */
  datatype Value = Value(
    bitVectorSize: Option<nat>,  // an AbstractBitVector instance, and its size
    isBit: bool,                 // an AbstractBit instance
    length: Option<nat>,         // a typing.Sequence, and its len
    intValue: Option<int>,       // an int
    intConversion: Option<Result<int>>)  // has `__int__`, and what int() returns or raises

  /** The size argument: left out, passed as None, or given explicitly. */
  datatype SizeArg = Missing | NoneSize | Explicit(idx: Index)

  /** The registry afterwards, the sized class whose constructor received the
      value (or the exception raised), and whether a deprecation warning was
      emitted. */
  datatype Called = Called(reg: Registry, result: Result<ClassId>, warned: bool)

  function Abs(x: int): nat {
    if x < 0 then -x else x
  }

  /** Python's `int.bit_length()`: the number of binary digits of `|x|`. */
  function BitLength(x: int): nat {
    NatBitLength(Abs(x))
  }

  function NatBitLength(n: nat): nat {
    if n == 0 then 0 else 1 + NatBitLength(n / 2)
  }

  lemma {:induction false} NatBitLengthBounds(n: nat)
    ensures n == 0 <==> NatBitLength(n) == 0
    ensures n > 0 ==> Pow2(NatBitLength(n) - 1) <= n < Pow2(NatBitLength(n))
  {
    if n > 1 {
      NatBitLengthBounds(n / 2);
    }
  }

  /** `w` is the least positive width whose unsigned range holds `|x|`. */
  ghost predicate MinimalWidth(x: int, w: nat) {
    w >= 1 && Abs(x) < Pow2(w) && (w == 1 || Pow2(w - 1) <= Abs(x))
  }

  function Max1(n: nat): nat {
    if n >= 1 then n else 1
  }

  /** `max(bit_length(x), 1)` is the least positive width that holds `x`. */
  lemma IntWidthMinimal(x: int)
    ensures MinimalWidth(x, Max1(BitLength(x)))
  {
    NatBitLengthBounds(Abs(x));
  }

  /** The legacy width inference of `__call__`: the first test the value
      passes decides, a value that passes none raises TypeError, and an
      exception from `int(value)` propagates. */
  function InferWidth(v: Value): (w: Result<nat>)
    ensures v.bitVectorSize.Some? ==> w == Ok(v.bitVectorSize.value)
    ensures v.bitVectorSize.None? && v.isBit ==> w == Ok(1)
    ensures v.bitVectorSize.None? && !v.isBit && v.length.Some? ==> w == Ok(Max1(v.length.value))
    ensures v.bitVectorSize.None? && !v.isBit && v.length.None? && v.intValue.Some? ==>
      w.Ok? && MinimalWidth(v.intValue.value, w.value)
    ensures v.bitVectorSize.None? && !v.isBit && v.length.None? && v.intValue.None? &&
            v.intConversion.Some? && v.intConversion.value.Ok? ==>
      w.Ok? && MinimalWidth(v.intConversion.value.value, w.value)
    ensures v.bitVectorSize.None? && !v.isBit && v.length.None? && v.intValue.None? &&
            v.intConversion.Some? && v.intConversion.value.Err? ==>
      w == Err(v.intConversion.value.exc)
    ensures v.bitVectorSize.None? && !v.isBit && v.length.None? && v.intValue.None? && v.intConversion.None? ==>
      w == Err(TypeError)
    ensures w.Err? <==>
      v.bitVectorSize.None? && !v.isBit && v.length.None? && v.intValue.None? &&
      (v.intConversion.None? || v.intConversion.value.Err?)
    ensures w.Ok? && v.bitVectorSize.None? ==> w.value >= 1
  {
    if v.bitVectorSize.Some? then Ok(v.bitVectorSize.value)
    else if v.isBit then Ok(1)
    else if v.length.Some? then Ok(Max1(v.length.value))
    else if v.intValue.Some? then
      IntWidthMinimal(v.intValue.value);
      Ok(Max1(BitLength(v.intValue.value)))
    else if v.intConversion.Some? then
      match v.intConversion.value
      case Ok(n) =>
        IntWidthMinimal(n);
        Ok(Max1(BitLength(n)))
      case Err(e) => Err(e)
    else Err(TypeError)
  }

  /** `cls(value, size)`. A sized type rejects any size argument (even None)
      with TypeError and otherwise constructs directly. An unsized type
      resolves `cls[size]`, inferring the size when it is missing or None, and
      then constructs through that sized type. Passing None or a size emits a
      deprecation warning, before anything can fail. */
  function Call(r: Registry, cls: ClassId, v: Value, size: SizeArg): (c: Called)
    requires Valid(r) && IsMeta(r, cls)
    ensures Valid(c.reg) && Extends(r, c.reg)
    ensures IsSized(r, cls) && !size.Missing? ==> c == Called(r, Err(TypeError), false)
    ensures IsSized(r, cls) && size.Missing? ==> c == Called(r, Ok(cls), false)
    ensures !IsSized(r, cls) ==> c.warned == !size.Missing?
    ensures c.result.Ok? ==>
      IsMeta(c.reg, c.result.value) && IsSized(c.reg, c.result.value) &&
      (!IsSized(r, cls) ==> UnsizedT(c.reg, c.result.value) == Ok(cls))
    ensures !IsSized(r, cls) && !size.Explicit? && InferWidth(v).Ok? ==>
      c.result.Ok? && Size(c.reg, c.result.value) == Some(InferWidth(v).value)
    ensures !IsSized(r, cls) && !size.Explicit? && InferWidth(v).Err? ==>
      c == Called(r, Err(InferWidth(v).exc), size.NoneSize?)
    ensures !IsSized(r, cls) && size.Explicit? ==>
      c.reg == Instantiate(r, cls, size.idx).reg && c.result == Instantiate(r, cls, size.idx).result
    decreases if IsSized(r, cls) then 0 else 1
  {
    if IsSized(r, cls) && !size.Missing? then Called(r, Err(TypeError), false)
    else if IsSized(r, cls) then Called(r, Ok(cls), false)
    else
      var warned := !size.Missing?;
      var idx := if size.Explicit? then Ok(size.idx)
                 else match InferWidth(v) { case Ok(w) => Ok(IntIndex(w)) case Err(e) => Err(e) };
      match idx
      case Err(e) => Called(r, Err(e), warned)
      case Ok(i) =>
        var s := Instantiate(r, cls, i);
        match s.result
        case Err(e) => Called(s.reg, Err(e), warned)
        case Ok(t) =>
          var inner := Call(s.reg, t, v, Missing);
          Called(inner.reg, inner.result, warned)
  }

  /** The deprecation warning never decides the outcome: passing None, or
      passing the inferred width explicitly, builds what leaving the size out
      builds. */
  lemma WarningHarmless(r: Registry, cls: ClassId, v: Value)
    requires Valid(r) && IsMeta(r, cls) && !IsSized(r, cls)
    ensures Call(r, cls, v, NoneSize).reg == Call(r, cls, v, Missing).reg
    ensures Call(r, cls, v, NoneSize).result == Call(r, cls, v, Missing).result
    ensures InferWidth(v).Ok? ==>
      var explicit := Call(r, cls, v, Explicit(IntIndex(InferWidth(v).value)));
      explicit.reg == Call(r, cls, v, Missing).reg && explicit.result == Call(r, cls, v, Missing).result
  {
  }
}
