/** `Tuple` and `Product` values: type-checked construction, structural
    equality, indexing and type-checked index assignment. */
module Tuples {
  import opened Outcomes
  import opened Classes
  import opened AdtTypes

  /** The first position whose value is not an instance of its field type. */
  function FirstMismatch(u: Universe, vs: seq<Obj>, ts: seq<ClassId>): (m: Option<nat>)
    requires |vs| == |ts|
    ensures m.None? <==> forall i :: 0 <= i < |vs| ==> IsInstance(u, vs[i], ts[i])
    ensures m.Some? ==>
      && m.value < |vs| && !IsInstance(u, vs[m.value], ts[m.value])
      && forall i :: 0 <= i < m.value ==> IsInstance(u, vs[i], ts[i])
  {
    if vs == [] then None
    else if !IsInstance(u, vs[0], ts[0]) then Some(0)
    else
      match FirstMismatch(u, vs[1..], ts[1..])
      case None => None
      case Some(k) => Some(k + 1)
  }

  /** An instance of a bound Tuple type holding one instance of each field type. */
  ghost predicate WellTyped(u: Universe, o: Obj) {
    && IsBound(u, o.cls) && o.data.TupleData?
    && |o.data.items| == |Fields(u, o.cls)|
    && forall i :: 0 <= i < |o.data.items| ==> IsInstance(u, o.data.items[i], Fields(u, o.cls)[i])
  }

  /** `Tuple.__init__` on a bound type: ValueError on a wrong number of
      values, TypeError at the first value that is not of its field type. */
  function Init(u: Universe, cls: ClassId, vs: seq<Obj>): (r: Result<Obj>)
    requires IsBound(u, cls)
    ensures r.Ok? <==>
      |vs| == |Fields(u, cls)| && forall i :: 0 <= i < |vs| ==> IsInstance(u, vs[i], Fields(u, cls)[i])
    ensures |vs| != |Fields(u, cls)| ==> r == Err(ValueError)
    ensures |vs| == |Fields(u, cls)| && r.Err? ==> r == Err(TypeError)
    ensures r.Ok? ==> r.value == Obj(cls, TupleData(vs, false)) && WellTyped(u, r.value)
  {
    var fields := Fields(u, cls);
    if |vs| != |fields| then Err(ValueError)
    else if FirstMismatch(u, vs, fields).Some? then Err(TypeError)
    else Ok(Obj(cls, TupleData(vs, false)))
  }

  /** `cls(*vs)` for a Tuple type: `__new__`, then `__init__`. An unbound
      type is first bound to the exact runtime types of the values. An
      unbound Product never reaches this path: `ProductNew` takes it. */
  function New(u: Universe, cls: ClassId, vs: seq<Obj>): (res: (Universe, Result<Obj>))
    requires Valid(u) && IsTupleClass(u, cls)
    requires u.kinds[cls].product ==> IsBound(u, cls)
    ensures Valid(res.0) && Extends(u, res.0)
    ensures IsBound(u, cls) ==> res == (u, Init(u, cls, vs))
    ensures !IsBound(u, cls) ==>
      && (cls, ExactTypes(vs)) in res.0.bound
      && var t := res.0.bound[(cls, ExactTypes(vs))];
      && res.1 == Ok(Obj(t, TupleData(vs, false)))
      && IsBound(res.0, t) && Fields(res.0, t) == ExactTypes(vs)
      && SubclassOf(res.0.bases, t, cls)
  {
    if IsBound(u, cls) then (u, Init(u, cls, vs))
    else
      var (u', t) := Bind(u, cls, ExactTypes(vs));
      (u', Init(u', t, vs))
  }

  /** What `Product.__new__` produces: an instance, or a new Product type
      made by the metaclass's `from_fields` from a name and field schema. */
  datatype Made =
    | Instance(o: Obj)
    | ProductType(name: Obj, fields: seq<(string, Obj)>, bases: seq<ClassId>)

  /** `cls(*args, **kwargs)` for a Product type. A bound Product constructs
      as a Tuple, which takes no keyword arguments. An unbound Product called
      with exactly one positional argument defines a new Product type named
      by it, whose fields are the keyword arguments. Otherwise TypeError. */
  function ProductNew(u: Universe, cls: ClassId, args: seq<Obj>, kwargs: seq<(string, Obj)>)
    : (res: (Universe, Result<Made>))
    requires Valid(u) && IsTupleClass(u, cls) && u.kinds[cls].product
    ensures Valid(res.0) && Extends(u, res.0)
    ensures IsBound(u, cls) && |kwargs| == 0 ==>
      res.0 == u && match Init(u, cls, args) {
        case Ok(o) => res.1 == Ok(Instance(o))
        case Err(e) => res.1 == Err(e)
      }
    ensures IsBound(u, cls) && |kwargs| > 0 ==> res == (u, Err(TypeError))
    ensures !IsBound(u, cls) && |args| == 1 ==> res == (u, Ok(ProductType(args[0], kwargs, [cls])))
    ensures !IsBound(u, cls) && |args| != 1 ==> res == (u, Err(TypeError))
  {
    if IsBound(u, cls) then
      if |kwargs| > 0 then (u, Err(TypeError))
      else
        var (u', r) := New(u, cls, args);
        (u', match r { case Ok(o) => Ok(Instance(o)) case Err(e) => Err(e) })
    else if |args| == 1 then (u, Ok(ProductType(args[0], kwargs, [cls])))
    else (u, Err(TypeError))
  }

  /** `self.value == other.value` on two stored values: two tuples, or two
      lists, of equal length whose items are pairwise identical or `==`. A
      tuple and a list are never equal. */
  predicate ValuesEqual(eq: PyEq, x: Data, y: Data)
    requires x.TupleData? && y.TupleData?
  {
    && x.isList == y.isList && |x.items| == |y.items|
    && forall i :: 0 <= i < |x.items| ==> x.items[i] == y.items[i] || eq(x.items[i], y.items[i])
  }

  /** `Tuple.__eq__`: compares stored values when `b` is an instance of the
      type of `a`, and returns NotImplemented otherwise. */
  function EqMethod(u: Universe, eq: PyEq, a: Obj, b: Obj): EqAnswer
    requires a.data.TupleData?
  {
    if IsInstance(u, b, a.cls) then Answer(b.data.TupleData? && ValuesEqual(eq, a.data, b.data))
    else NotImplemented
  }

  /** When two Tuples are `==`: one is an instance of the type of the other,
      and the stored values compare equal, in the order of the operand whose
      method answers. */
  ghost predicate TupleEquals(u: Universe, eq: PyEq, a: Obj, b: Obj)
    requires a.data.TupleData?
  {
    b.data.TupleData? &&
    if IsInstance(u, b, a.cls) then ValuesEqual(eq, a.data, b.data)
    else IsInstance(u, a, b.cls) && ValuesEqual(eq, b.data, a.data)
  }

  /** `a == b` for a Tuple `a`, by Python's operator dispatch. A right
      operand that is not a Tuple is taken to return NotImplemented, as the
      builtin types do. When both methods return NotImplemented the types
      are unrelated, so the objects are not identical and `==` is False. */
  function Equal(u: Universe, eq: PyEq, a: Obj, b: Obj): (r: bool)
    requires a.data.TupleData?
    ensures r <==> TupleEquals(u, eq, a, b)
  {
    NotMutual(u.bases, b.cls, a.cls);
    Dispatch(u, a, b, EqMethod(u, eq, a, b), if b.data.TupleData? then EqMethod(u, eq, b, a) else NotImplemented)
  }

  /** `Tuple.__ne__`: the negation of `==`. */
  function NotEqual(u: Universe, eq: PyEq, a: Obj, b: Obj): (r: bool)
    requires a.data.TupleData?
    ensures r <==> !TupleEquals(u, eq, a, b)
  {
    !Equal(u, eq, a, b)
  }

  /** Tuple equality is reflexive, symmetric whenever item `==` is, and
      False between Tuples of unrelated types. */
  lemma EqualSymmetric(u: Universe, eq: PyEq, a: Obj, b: Obj)
    requires a.data.TupleData?
    ensures Equal(u, eq, a, a)
    ensures b.data.TupleData? && (forall x, y :: eq(x, y) == eq(y, x)) ==> Equal(u, eq, a, b) == Equal(u, eq, b, a)
    ensures !IsInstance(u, b, a.cls) && !IsInstance(u, a, b.cls) ==> !Equal(u, eq, a, b)
  {
    assert IsInstance(u, a, a.cls);
  }

  /** Python's index normalisation: a negative index counts from the end. */
  function Normalize(idx: int, len: nat): (k: Option<nat>)
    ensures k.Some? <==> -(len as int) <= idx < len
    ensures k.Some? ==> k.value < len && (idx >= 0 ==> k.value == idx) && (idx < 0 ==> k.value == idx + len)
  {
    if 0 <= idx < len then Some(idx)
    else if -(len as int) <= idx < 0 then Some(idx + len)
    else None
  }

  /** `Tuple.__getitem__`: the stored element, IndexError out of range. */
  function GetItem(t: Obj, idx: int): (r: Result<Obj>)
    requires t.data.TupleData?
    ensures r.Ok? <==> Normalize(idx, |t.data.items|).Some?
    ensures r.Ok? ==> r.value == t.data.items[Normalize(idx, |t.data.items|).value]
    ensures r.Err? ==> r.exc == IndexError
  {
    match Normalize(idx, |t.data.items|)
    case Some(k) => Ok(t.data.items[k])
    case None => Err(IndexError)
  }

  /** `Tuple.__setitem__`: the new value must be an instance of the field
      type at `idx` (TypeError otherwise, leaving the tuple as it was); only
      position `idx` changes, and the stored value stays a tuple. */
  function SetItem(u: Universe, t: Obj, idx: int, v: Obj): (r: Result<Obj>)
    requires WellTyped(u, t)
    ensures r.Ok? <==>
      Normalize(idx, |t.data.items|).Some? &&
      IsInstance(u, v, Fields(u, t.cls)[Normalize(idx, |t.data.items|).value])
    ensures Normalize(idx, |t.data.items|).None? ==> r == Err(IndexError)
    ensures Normalize(idx, |t.data.items|).Some? && r.Err? ==> r == Err(TypeError)
    ensures r.Ok? ==>
      var k := Normalize(idx, |t.data.items|).value;
      && r.value.cls == t.cls && r.value.data.TupleData? && !r.value.data.isList
      && |r.value.data.items| == |t.data.items|
      && r.value.data.items[k] == v
      && (forall i :: 0 <= i < |t.data.items| && i != k ==> r.value.data.items[i] == t.data.items[i])
      && WellTyped(u, r.value)
  {
    match Normalize(idx, |Fields(u, t.cls)|)
    case None => Err(IndexError)
    case Some(k) =>
      if IsInstance(u, v, Fields(u, t.cls)[k]) then Ok(Obj(t.cls, TupleData(t.data.items[k := v], false)))
      else Err(TypeError)
  }

  /** `Tuple.__setitem__` as the source writes it: the updated values are
      stored as the list `v` built to update them, not as a tuple. It
      succeeds and fails exactly as `SetItem` does. */
  function SetItemAsWritten(u: Universe, t: Obj, idx: int, v: Obj): (r: Result<Obj>)
    requires WellTyped(u, t)
    ensures r.Ok? <==> SetItem(u, t, idx, v).Ok?
    ensures r.Err? ==> r == SetItem(u, t, idx, v)
    ensures r.Ok? ==>
      r.value.data.TupleData? && r.value.data.isList &&
      r.value.data.items == SetItem(u, t, idx, v).value.data.items
  {
    match Normalize(idx, |Fields(u, t.cls)|)
    case None => Err(IndexError)
    case Some(k) =>
      if IsInstance(u, v, Fields(u, t.cls)[k]) then Ok(Obj(t.cls, TupleData(t.data.items[k := v], true)))
      else Err(TypeError)
  }

  /** As written, assigning to a position the value it already holds leaves
      a Tuple that is no longer `==` to its former self, whatever item `==`
      is: the list it now stores never equals the tuple the other stores. */
  lemma SetItemAsWrittenBreaksEquality(u: Universe, eq: PyEq, t: Obj, idx: int)
    requires WellTyped(u, t) && !t.data.isList && Normalize(idx, |t.data.items|).Some?
    ensures var v := t.data.items[Normalize(idx, |t.data.items|).value];
      && SetItemAsWritten(u, t, idx, v).Ok?
      && !Equal(u, eq, SetItemAsWritten(u, t, idx, v).value, t)
      && Equal(u, eq, t, t)
  {
    EqualSymmetric(u, eq, t, t);
  }

  /** With the values kept as a tuple, writing back the value a position
      already holds gives back the same Tuple, and `==` still holds. */
  lemma SetItemKeepsEquality(u: Universe, eq: PyEq, t: Obj, idx: int)
    requires WellTyped(u, t) && !t.data.isList && Normalize(idx, |t.data.items|).Some?
    ensures var v := t.data.items[Normalize(idx, |t.data.items|).value];
      && SetItem(u, t, idx, v) == Ok(t)
      && Equal(u, eq, SetItem(u, t, idx, v).value, t)
  {
    var k := Normalize(idx, |t.data.items|).value;
    var v := t.data.items[k];
    assert IsInstance(u, v, Fields(u, t.cls)[k]);
    assert t.data.items[k := v] == t.data.items;
    EqualSymmetric(u, eq, t, t);
  }

  /** Reading back an assigned position gives the assigned value; the other
      positions read as before. */
  lemma SetThenGet(u: Universe, t: Obj, idx: int, v: Obj, j: int)
    requires WellTyped(u, t) && SetItem(u, t, idx, v).Ok?
    ensures GetItem(SetItem(u, t, idx, v).value, idx) == Ok(v)
    ensures Normalize(j, |t.data.items|) != Normalize(idx, |t.data.items|) ==>
      GetItem(SetItem(u, t, idx, v).value, j) == GetItem(t, j)
  {
  }

  /** An element read from a well-typed Tuple is an instance of its field type. */
  lemma GetItemTyped(u: Universe, t: Obj, idx: int)
    requires WellTyped(u, t) && GetItem(t, idx).Ok?
    ensures IsInstance(u, GetItem(t, idx).value, Fields(u, t.cls)[Normalize(idx, |t.data.items|).value])
  {
  }

  /** With `int` (class 0), `bool` deriving from it (class 1) and an unbound
      Tuple (class 2): `Tuple(1, True)` binds the field types `(int, bool)`,
      and that bound type rejects `(1, 2)` with TypeError since `2` is no bool. */
  lemma BindingScenario()
    ensures var u := Universe([[], [0], []], [Plain, Plain, TupleKind(false, None)], map[]);
      var one, yes, two := Obj(0, Atom(1)), Obj(1, Atom(1)), Obj(0, Atom(2));
      var (u', r) := New(u, 2, [one, yes]);
      && r.Ok? && IsBound(u', r.value.cls) && Fields(u', r.value.cls) == [0, 1]
      && New(u', r.value.cls, [one, two]) == (u', Err(TypeError))
  {
    var u := Universe([[], [0], []], [Plain, Plain, TupleKind(false, None)], map[]);
    var one, yes, two := Obj(0, Atom(1)), Obj(1, Atom(1)), Obj(0, Atom(2));
    var (u', r) := New(u, 2, [one, yes]);
    var t := r.value.cls;
    assert u'.bases[..|u.bases|] == u.bases;
    assert SubclassOf(u'.bases, 1, 0) by {
      assert u'.bases[..|u.bases|][1] == u'.bases[1];
      assert u'.bases[1][0] == 0 && SubclassOf(u'.bases, 0, 0);
    }
    assert Valid(u);
    assert ExactTypes([one, yes]) == [0, 1];
    assert r.Ok? && IsBound(u', t) && Fields(u', t) == [0, 1];
    assert !IsInstance(u', two, 1) by {
      assert u'.bases[..|u.bases|][0] == u'.bases[0];
      assert u'.bases[0] == [];
    }
    assert !IsInstance(u', [one, two][1], Fields(u', t)[1]);
  }

  /** Items are compared with Python `==`, not by identity: in a Tuple bound
      to `(int, int)`, `(1, 1)` and `(True, 1)` are both accepted, and they
      are `==` exactly when `1 == True`. */
  lemma ItemEqualityScenario(eq: PyEq)
    ensures var u := Universe([[], [0], []], [Plain, Plain, TupleKind(false, Some([0, 0]))], map[]);
      var one, yes := Obj(0, Atom(1)), Obj(1, Atom(1));
      && Init(u, 2, [one, one]).Ok? && Init(u, 2, [yes, one]).Ok?
      && (Equal(u, eq, Init(u, 2, [one, one]).value, Init(u, 2, [yes, one]).value) <==> eq(one, yes))
  {
    var u := Universe([[], [0], []], [Plain, Plain, TupleKind(false, Some([0, 0]))], map[]);
    assert SubclassOf(u.bases, 1, 0) by {
      assert u.bases[1][0] == 0 && SubclassOf(u.bases, 0, 0);
    }
  }
}
