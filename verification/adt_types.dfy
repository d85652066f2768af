/** The runtime world the algebraic data types live in: classes with their
    bases and ADT kind, objects tagged with their exact class, and the table
    that binds an unbound Tuple to field types (`Tuple[key]`). */
module AdtTypes {
  import opened Outcomes
  import opened Classes

  /** What kind of class a class is, with its declared schema. A Tuple or
      Product is unbound until its field types are fixed. A Sum lists its
      alternatives. */
  datatype Kind =
    | Plain
    | TupleKind(product: bool, fields: Option<seq<ClassId>>)
    | SumKind(alternatives: seq<ClassId>)
    | EnumKind

  /** A Python object: `cls` is its exact runtime type, `type(o)`. */
  datatype Obj = Obj(cls: ClassId, data: Data)

  /** What an object holds: an opaque atom (an int, a str, ...), a class
      object, or the stored value of a Tuple, Sum or Enum instance. A Tuple
      stores a Python tuple, or a list where `isList` says so. */
  datatype Data =
    | Atom(id: int)
    | ClassObject(c: ClassId)
    | TupleData(items: seq<Obj>, isList: bool)
    | SumData(item: Obj)
    | EnumData(item: Obj)

  /** The classes, their kinds, and the bound Tuple type for each
      (unbound Tuple, field types) pair resolved so far. */
  datatype Universe = Universe(
    bases: Graph,
    kinds: seq<Kind>,
    bound: map<(ClassId, seq<ClassId>), ClassId>)

  predicate IsInstance(u: Universe, o: Obj, t: ClassId) {
    SubclassOf(u.bases, o.cls, t)
  }

  /** Python `==` between two stored values. It is a parameter of the model:
      `1 == True` and `1 == 1.0` hold between objects that differ. */
  type PyEq = (Obj, Obj) -> bool

  /** Python `v == c` between an object `v` and a class object `c` that is
      not `v` itself. Class objects compare by identity, so the answer is
      whatever the object's own `__eq__` returns. Like `PyEq`, it is a parameter
      of the model: an object that compares equal to everything is `==` to
      every class. */
  type ClassEq = (Obj, ClassId) -> bool

  /** What an `__eq__` method returns. */
  datatype EqAnswer = Answer(b: bool) | NotImplemented

  /** The `==` operator, given what `a.__eq__(b)` and the reflected
      `b.__eq__(a)` return. When the type of `b` is a proper subclass of the
      type of `a`, the reflected method is tried first. When both return
      NotImplemented, `==` falls back to identity. */
  function Dispatch(u: Universe, a: Obj, b: Obj, direct: EqAnswer, reflected: EqAnswer): bool {
    if a.cls != b.cls && IsInstance(u, b, a.cls) then Settle(reflected, direct, a == b)
    else Settle(direct, reflected, a == b)
  }

  /** The first answer that is not NotImplemented, else `same`. */
  function Settle(first: EqAnswer, second: EqAnswer, same: bool): bool {
    match first
    case Answer(x) => x
    case NotImplemented =>
      match second
      case Answer(y) => y
      case NotImplemented => same
  }

  /** `tuple(type(v) for v in vs)`. */
  function ExactTypes(vs: seq<Obj>): (ts: seq<ClassId>)
    ensures |ts| == |vs| && forall i :: 0 <= i < |vs| ==> ts[i] == vs[i].cls
  {
    seq(|vs|, i requires 0 <= i < |vs| => vs[i].cls)
  }

  predicate IsTupleClass(u: Universe, c: ClassId) {
    c < |u.kinds| && u.kinds[c].TupleKind?
  }

  predicate IsBound(u: Universe, c: ClassId) {
    IsTupleClass(u, c) && u.kinds[c].fields.Some?
  }

  function Fields(u: Universe, c: ClassId): seq<ClassId>
    requires IsBound(u, c)
  {
    u.kinds[c].fields.value
  }

  /** Each binding `(cls, key) -> t` is a Tuple type of the same flavour as
      `cls`, subclassing it, with exactly the fields `key`. */
  ghost predicate Valid(u: Universe) {
    && |u.bases| == |u.kinds|
    && WellFounded(u.bases)
    && forall k :: k in u.bound ==>
         && IsTupleClass(u, k.0) && u.kinds[k.0].fields.None?
         && u.bound[k] < |u.kinds|
         && u.kinds[u.bound[k]] == TupleKind(u.kinds[k.0].product, Some(k.1))
         && SubclassOf(u.bases, u.bound[k], k.0)
  }

  ghost predicate Extends(u: Universe, u': Universe) {
    && Grows(u.bases, u'.bases)
    && |u.kinds| <= |u'.kinds| && u'.kinds[..|u.kinds|] == u.kinds
    && forall k :: k in u.bound ==> k in u'.bound && u'.bound[k] == u.bound[k]
  }

  lemma KindKept(u: Universe, u': Universe, c: ClassId)
    requires Extends(u, u') && c < |u.kinds|
    ensures u'.kinds[c] == u.kinds[c]
  {
    assert u'.kinds[..|u.kinds|][c] == u'.kinds[c];
  }

  /** `cls[key]` on an unbound Tuple: the bound subclass of `cls` with field
      types `key`, created on first request and the same class afterwards. */
  function Bind(u: Universe, cls: ClassId, key: seq<ClassId>): (b: (Universe, ClassId))
    requires Valid(u) && IsTupleClass(u, cls) && !IsBound(u, cls)
    ensures Valid(b.0) && Extends(u, b.0)
    ensures (cls, key) in b.0.bound && b.0.bound[(cls, key)] == b.1
    ensures IsBound(b.0, b.1) && Fields(b.0, b.1) == key && SubclassOf(b.0.bases, b.1, cls)
    ensures (cls, key) in u.bound ==> b == (u, u.bound[(cls, key)])
  {
    if (cls, key) in u.bound then (u, u.bound[(cls, key)])
    else
      var t := |u.bases|;
      var u' := Universe(u.bases + [[cls]], u.kinds + [TupleKind(u.kinds[cls].product, Some(key))],
                         u.bound[(cls, key) := t]);
      BindValid(u, cls, key, u');
      (u', t)
  }

  /** Adding the new bound Tuple type `|u.bases|` for `(cls, key)` keeps the
      table's invariant and extends the universe. */
  lemma BindValid(u: Universe, cls: ClassId, key: seq<ClassId>, u': Universe)
    requires Valid(u) && IsTupleClass(u, cls) && !IsBound(u, cls) && (cls, key) !in u.bound
    requires u' == Universe(u.bases + [[cls]], u.kinds + [TupleKind(u.kinds[cls].product, Some(key))],
                            u.bound[(cls, key) := |u.bases|])
    ensures Valid(u') && Extends(u, u')
    ensures IsBound(u', |u.bases|) && Fields(u', |u.bases|) == key && SubclassOf(u'.bases, |u.bases|, cls)
  {
    var t := |u.bases|;
    Define(u.bases, [cls]);
    assert u'.kinds[..|u.kinds|] == u.kinds;
    NewClassSupers(u.bases, [cls], cls);
    assert [cls][0] == cls && SubclassOf(u.bases, cls, cls);
    assert SubclassOf(u'.bases, t, cls);
    assert Extends(u, u');
    forall k | k in u'.bound
      ensures IsTupleClass(u', k.0) && u'.kinds[k.0].fields.None?
      ensures u'.bound[k] < |u'.kinds|
      ensures u'.kinds[u'.bound[k]] == TupleKind(u'.kinds[k.0].product, Some(k.1))
      ensures SubclassOf(u'.bases, u'.bound[k], k.0)
    {
      if k in u.bound {
        BoundKept(u, u', k);
      }
    }
  }

  /** A binding of a valid universe stays well formed as the universe grows. */
  lemma BoundKept(u: Universe, u': Universe, k: (ClassId, seq<ClassId>))
    requires Valid(u) && Extends(u, u') && k in u.bound
    ensures IsTupleClass(u', k.0) && u'.kinds[k.0].fields.None?
    ensures u'.bound[k] < |u'.kinds|
    ensures u'.kinds[u'.bound[k]] == TupleKind(u'.kinds[k.0].product, Some(k.1))
    ensures SubclassOf(u'.bases, u'.bound[k], k.0)
  {
    SubclassStable(u.bases, u'.bases, u.bound[k], k.0);
    KindKept(u, u', k.0);
    KindKept(u, u', u.bound[k]);
  }
}
