/** `Sum` values (closed unions over declared alternatives) and `Enum`
    values: construction, `match`, `value` and equality. */
module Sums {
  import opened Outcomes
  import opened Classes
  import opened AdtTypes

  predicate IsSumClass(u: Universe, c: ClassId) {
    c < |u.kinds| && u.kinds[c].SumKind?
  }

  function Alternatives(u: Universe, c: ClassId): seq<ClassId>
    requires IsSumClass(u, c)
  {
    u.kinds[c].alternatives
  }

  /** The value's exact runtime type is an alternative. */
  predicate AcceptedByType(u: Universe, cls: ClassId, v: Obj)
    requires IsSumClass(u, cls)
  {
    v.cls in Alternatives(u, cls)
  }

  /** `value in fields`: some alternative is the value itself or, by
      Python's containment test, `==` to it. */
  predicate AcceptedByValue(u: Universe, ceq: ClassEq, cls: ClassId, v: Obj)
    requires IsSumClass(u, cls)
  {
    exists i :: 0 <= i < |Alternatives(u, cls)| && AltMatches(ceq, Alternatives(u, cls)[i], v)
  }

  /** The class object `alt` is `v`, or is `==` to it. */
  predicate AltMatches(ceq: ClassEq, alt: ClassId, v: Obj) {
    v.data == ClassObject(alt) || ceq(v, alt)
  }

  /** `Sum.__init__`: TypeError unless the value's exact type is one of the
      alternatives, or the value is contained in them. */
  function Init(u: Universe, ceq: ClassEq, cls: ClassId, v: Obj): (r: Result<Obj>)
    requires IsSumClass(u, cls)
    ensures r.Ok? <==>
      (exists i :: 0 <= i < |Alternatives(u, cls)| && Alternatives(u, cls)[i] == v.cls) ||
      (exists i :: 0 <= i < |Alternatives(u, cls)| &&
         (v.data == ClassObject(Alternatives(u, cls)[i]) || ceq(v, Alternatives(u, cls)[i])))
    ensures r.Err? ==> r.exc == TypeError
    ensures r.Ok? ==> r.value.cls == cls && r.value.data.SumData? && Value(r.value) == v
  {
    if !AcceptedByType(u, cls, v) && !AcceptedByValue(u, ceq, cls, v) then Err(TypeError)
    else Ok(Obj(cls, SumData(v)))
  }

  /** The `value` property of a Sum. */
  function Value(s: Obj): Obj
    requires s.data.SumData?
  {
    s.data.item
  }

  /** `Sum.match`: the exact runtime type of the stored value, and the value. */
  function Match(s: Obj): (ClassId, Obj)
    requires s.data.SumData?
  {
    (Value(s).cls, Value(s))
  }

  /** `match` on a constructed Sum recovers the value and its exact type. The
      tag is an alternative exactly when the value was accepted by type; a
      value accepted only because it is contained in the alternatives is
      tagged with its own type, which is not an alternative. */
  lemma MatchAfterInit(u: Universe, ceq: ClassEq, cls: ClassId, v: Obj)
    requires IsSumClass(u, cls) && Init(u, ceq, cls, v).Ok?
    ensures Match(Init(u, ceq, cls, v).value) == (v.cls, v)
    ensures Match(Init(u, ceq, cls, v).value).0 in Alternatives(u, cls) <==> AcceptedByType(u, cls, v)
    ensures !AcceptedByType(u, cls, v) ==> AcceptedByValue(u, ceq, cls, v)
  {
  }

  /** `Sum.__eq__`: whether the other object is an instance of this Sum's
      type holding a value `==` to this one. It never returns NotImplemented. */
  function EqMethod(u: Universe, eq: PyEq, a: Obj, b: Obj): EqAnswer
    requires a.data.SumData?
  {
    Answer(IsInstance(u, b, a.cls) && b.data.SumData? && eq(Value(a), Value(b)))
  }

  /** When two Sums are `==`: they have the same exact type and `==` values. */
  ghost predicate SumEquals(eq: PyEq, a: Obj, b: Obj)
    requires a.data.SumData?
  {
    a.cls == b.cls && b.data.SumData? && eq(Value(a), Value(b))
  }

  /** `a == b` for a Sum `a`, by Python's operator dispatch. A Sum of a
      proper subclass type answers first, and rejects `a` since `a` is no
      instance of its type; any other right operand leaves the answer to `a`. */
  function Equal(u: Universe, eq: PyEq, a: Obj, b: Obj): (r: bool)
    requires a.data.SumData?
    ensures r <==> SumEquals(eq, a, b)
  {
    NotMutual(u.bases, b.cls, a.cls);
    Dispatch(u, a, b, EqMethod(u, eq, a, b), if b.data.SumData? then EqMethod(u, eq, b, a) else NotImplemented)
  }

  /** `Sum.__ne__`: the negation of `==`. */
  function NotEqual(u: Universe, eq: PyEq, a: Obj, b: Obj): (r: bool)
    requires a.data.SumData?
    ensures r <==> !SumEquals(eq, a, b)
  {
    !Equal(u, eq, a, b)
  }

  /** Two Sums built by one Sum type are equal exactly when their values are `==`. */
  lemma EqualAfterInit(u: Universe, eq: PyEq, ceq: ClassEq, cls: ClassId, v: Obj, w: Obj)
    requires IsSumClass(u, cls) && Init(u, ceq, cls, v).Ok? && Init(u, ceq, cls, w).Ok?
    ensures Equal(u, eq, Init(u, ceq, cls, v).value, Init(u, ceq, cls, w).value) <==> eq(v, w)
  {
  }

  /** `Enum.__init__`: the member stores its constructor argument. */
  function EnumInit(cls: ClassId, v: Obj): (e: Obj)
    ensures e.cls == cls && e.data.EnumData? && EnumValue(e) == v
  {
    Obj(cls, EnumData(v))
  }

  /** The `value` property of an Enum member. */
  function EnumValue(e: Obj): Obj
    requires e.data.EnumData?
  {
    e.data.item
  }

  /** `Enum.__eq__`: whether the other object is an instance of this
      member's type with a value `==` to this one. It never returns
      NotImplemented. */
  function EnumEqMethod(u: Universe, eq: PyEq, a: Obj, b: Obj): EqAnswer
    requires a.data.EnumData?
  {
    Answer(IsInstance(u, b, a.cls) && b.data.EnumData? && eq(EnumValue(a), EnumValue(b)))
  }

  /** When two Enum members are `==`: the same exact type and `==` values. */
  ghost predicate EnumEquals(eq: PyEq, a: Obj, b: Obj)
    requires a.data.EnumData?
  {
    a.cls == b.cls && b.data.EnumData? && eq(EnumValue(a), EnumValue(b))
  }

  /** `a == b` for an Enum member `a`, by Python's operator dispatch. */
  function EnumEqual(u: Universe, eq: PyEq, a: Obj, b: Obj): (r: bool)
    requires a.data.EnumData?
    ensures r <==> EnumEquals(eq, a, b)
  {
    NotMutual(u.bases, b.cls, a.cls);
    Dispatch(u, a, b, EnumEqMethod(u, eq, a, b),
             if b.data.EnumData? then EnumEqMethod(u, eq, b, a) else NotImplemented)
  }

  /** `Enum.__ne__`: the negation of `==`. */
  function EnumNotEqual(u: Universe, eq: PyEq, a: Obj, b: Obj): (r: bool)
    requires a.data.EnumData?
    ensures r <==> !EnumEquals(eq, a, b)
  {
    !EnumEqual(u, eq, a, b)
  }

  /** Members of one Enum type are equal exactly when their values are `==`,
      whatever else distinguishes them. */
  lemma EnumEqualByValue(u: Universe, eq: PyEq, cls: ClassId, v: Obj, w: Obj)
    ensures EnumEqual(u, eq, EnumInit(cls, v), EnumInit(cls, w)) <==> eq(v, w)
  {
  }

  /** Across a subclass, Sums holding the same value are not `==` in either
      order, though `base.__eq__(derived)` called directly compares the
      values: for `base == derived` the subclass's method is tried first,
      and it rejects the base instance. */
  lemma SubclassInstancesUnequal(eq: PyEq)
    ensures var u := Universe([[], [0], []], [SumKind([2]), SumKind([2]), Plain], map[]);
      var v := Obj(2, Atom(0));
      var base, derived := Obj(0, SumData(v)), Obj(1, SumData(v));
      && EqMethod(u, eq, base, derived) == Answer(eq(v, v))
      && EqMethod(u, eq, derived, base) == Answer(false)
      && !Equal(u, eq, base, derived) && !Equal(u, eq, derived, base)
  {
    var u := Universe([[], [0], []], [SumKind([2]), SumKind([2]), Plain], map[]);
    assert SubclassOf(u.bases, 1, 0) by {
      assert u.bases[1][0] == 0 && SubclassOf(u.bases, 0, 0);
    }
  }

  /** A Sum over `int` (class 0) and `bool` (class 1) accepts `1` and matches
      it to `int`. It rejects a `str` (class 2) that is `==` to neither class,
      and accepts one that is, tagging it `str`, which is no alternative. */
  lemma IntBoolScenario(ceq: ClassEq)
    ensures var u := Universe([[], [0], [], []], [Plain, Plain, Plain, SumKind([0, 1])], map[]);
      var one, text := Obj(0, Atom(1)), Obj(2, Atom(7));
      && Init(u, ceq, 3, one).Ok? && Match(Init(u, ceq, 3, one).value) == (0, one)
      && (Init(u, ceq, 3, text).Ok? <==> ceq(text, 0) || ceq(text, 1))
      && (Init(u, ceq, 3, text).Ok? ==> Match(Init(u, ceq, 3, text).value).0 == 2)
  {
    var u := Universe([[], [0], [], []], [Plain, Plain, Plain, SumKind([0, 1])], map[]);
    var text := Obj(2, Atom(7));
    assert Alternatives(u, 3) == [0, 1];
    if ceq(text, 0) {
      assert AltMatches(ceq, Alternatives(u, 3)[0], text);
    }
    if ceq(text, 1) {
      assert AltMatches(ceq, Alternatives(u, 3)[1], text);
    }
  }
}
