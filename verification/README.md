# Sized bit-vector types, algebraic data types and modifiers

This project models three pieces of the `bit_vector` / `hwtypes` Python
library:

- **`AbstractBitVectorMeta`**, the metaclass behind every bit-vector family.
  - An unsized family `BV` is turned into its sized type `BV[n]` by `__getitem__`.
  - Each `(family, width)` pair is interned in a class cache, so `BV[n] is BV[n]`.
  - The generic bases of a family are propagated, so `Derived[n]` subclasses `Base[n]`.
  - Class creation (`__new__`) rejects a class that inherits two different sizes.
  - `BV(value)` infers the width from the value. The old `BV(value, size)` form is deprecated.
  - The properties `size`, `is_sized` and `unsized_t` read a per-class info record.
- **The `AbstractBit` / `AbstractBitVector` operation contract.**
  - The primitives are left to a backend.
  - The derived operations `__ne__`, `bvnand` … `bvsub` are compositions of the primitives.
  - A reference backend over bit sequences is used to prove that each derived operation computes what its name promises.
- **The algebraic data types of `hwtypes/adt.py`**: `Tuple`, `Product`, `Sum` and `Enum`.
  - Construction binds the field types and type-checks the values.
  - Also covered: indexing and item assignment, and `Sum.match`.
  - Equality and inequality follow Python's operator dispatch. The reflected method of a right operand whose type is a proper subclass is tried first, and `NotImplemented` falls through to the other operand's method. Python `==` between stored values is a parameter of the model (`AdtTypes.PyEq`), since `1 == True` holds between different objects.
- **The modifier contract, as its tests state it.**
  - `make_modifier` with and without `cache`.
  - Applying a modifier `M(B)` is interned, so a second application gives the same class.
  - `M(B)` subclasses `M`, `B` and `M(A)` for every ancestor `A` of `B`.
  - `is_modifier`, `is_modified`, `get_modifier` and `get_unmodified`, including their TypeError cases.

Python classes are numbered in order of definition (`Classes.ClassId`). Every
class lists its direct bases, and a base always has a smaller number than the
class. `issubclass` is `Classes.SubclassOf`.

Each mutable global table is an immutable value threaded through the
operations:
- the metaclass's class cache and class info (`SizedTypes.Registry`);
- the Tuple binding table (`AdtTypes.Universe`);
- the modifier registry (`Modifiers.State`).

Every table has a `Valid` invariant. Each operation preserves that invariant
and only ever extends the table.

Python exceptions are the `Err` side of `Outcomes.Result`: TypeError,
ValueError, AttributeError, IndexError and OverflowError.

Files:
- `outcomes.dfy`: Option, Result and the exceptions.
- `arith.dfy`: powers of two and Euclidean division facts.
- `classes.dfy`: the class graph.
- `sized_types.dfy`: `__new__`, `__getitem__` and the properties.
- `construction.dfy`: `__call__` and width inference.
- `bit_algebra.dfy`: the derived operations over any backend.
- `bit_vectors.dfy`: the reference bit-sequence backend.
- `adt_types.dfy`: objects, kinds and Tuple binding.
- `tuples.dfy`: Tuple and Product.
- `sums.dfy`: Sum and Enum.
- `modifiers.dfy`: the modifier registry.

## Model

| member | source | states |
|---|---|---|
| SizedTypes.BasesSize | bit_vector/bit_vector_abc.py:42-48 | Scanning the bases fails with TypeError exactly when two sized bases have different sizes. It yields no size exactly when no base is sized. Otherwise the size it yields is the size of every sized base. |
| SizedTypes.NewClass | bit_vector/bit_vector_abc.py:41-56 | The new class gets the next id and the given bases, and the registry stays valid. With no sized base, the class records itself as its unsized type and has no size. With a sized base, it records no unsized type and the common size. A size conflict raises TypeError and leaves the registry unchanged. |
| SizedTypes.IsSized | bit_vector/bit_vector_abc.py:94-96 | A type is sized iff it has a size. In a valid registry, that holds iff the type is not its own unsized type. |
| SizedTypes.Size | bit_vector/bit_vector_abc.py:90-92 | A type has a size iff it is sized. In a valid registry, a sized type with an unsized type `f` is the type cached as `f[size]`. An unsized type is its own unsized type. |
| SizedTypes.UnsizedT | bit_vector/bit_vector_abc.py:82-88 | A missing unsized type raises AttributeError. In a valid registry, that happens iff the type is sized and no cache entry produced it: it was made by subclassing a sized type. Otherwise the result is an unsized metaclass instance, and it is the type itself iff that type is unsized. |
| SizedTypes.SizedRoundTrip | bit_vector/bit_vector_abc.py:78-92 | `c.unsized_t[c.size] is c` for every sized type `c` that has an unsized type. The lookup hits the cache and changes nothing. |
| SizedTypes.MetaBases | bit_vector/bit_vector_abc.py:73 | Every base it keeps is made by the metaclass, and every base made by the metaclass is kept. |
| SizedTypes.MetaBasesAppend | bit_vector/bit_vector_abc.py:73 | The filter keeps declaration order: filtering a concatenation gives the concatenation of the filtered parts. |
| SizedTypes.Instantiate | bit_vector/bit_vector_abc.py:58-96 | A cache hit is returned before any check. On a miss: a non-int index raises TypeError, a negative one raises ValueError, and an already sized class raises TypeError. The call succeeds iff there is a hit, or the index is a non-negative int and the class is unsized. On success, `(cls, n)` maps to the result in the cache, a miss creates a fresh class, and the registry stays valid. The result has `size == n`, is sized, and has `unsized_t == cls`. |
| SizedTypes.Create | bit_vector/bit_vector_abc.py:72-80 | A missing `cls[n]` becomes a new class beyond all existing ids. It is recorded in the cache under `(cls, n)` with info `(cls, n)`. |
| SizedTypes.InstantiateBases | bit_vector/bit_vector_abc.py:72-74 | Every generic base `b` of `cls` is instantiated at the same width. The result lists `b[n]` in order, as it now stands in the cache. |
| SizedTypes.InstanceBasesAgree | bit_vector/bit_vector_abc.py:72-76 | The bases `cls, b1[n], …` of the new class all exist and never conflict in size, so creating `cls[n]` cannot fail. |
| SizedTypes.InstantiateIdempotent | bit_vector/bit_vector_abc.py:59-62 | Asking for `cls[n]` again returns the identical class and changes nothing. |
| SizedTypes.DistinctSizes | bit_vector/bit_vector_abc.py:72-80 | `cls[p]` and `cls[q]` are different classes when `p != q`. |
| SizedTypes.InstanceBases | bit_vector/bit_vector_abc.py:72-76 | The bases of `cls[n]` are `cls` followed by `b[n]` for each generic base `b`, and `cls[n]` is a subclass of each of them. |
| SizedTypes.CachedBases | bit_vector/bit_vector_abc.py:72-79 | The same holds for every cache entry of a valid registry. |
| SizedTypes.PlainAncestorsPlain | bit_vector/bit_vector_abc.py:73 | A class not made by the metaclass has no ancestor made by it. |
| SizedTypes.AncestorPropagation | bit_vector/bit_vector_abc.py:72-74 | If the family `f` derives, directly or not, from a generic `b` and `f[n]` exists, then `b[n]` exists and `f[n]` is a subclass of `b[n]`. |
| Construction.NatBitLengthBounds | bit_vector/bit_vector_abc.py:29 | `bit_length` of a positive `n` is the `k` with `2^(k-1) <= n < 2^k`. |
| Construction.IntWidthMinimal | bit_vector/bit_vector_abc.py:28-31 | The width inferred from an int is the least `w >= 1` whose `2^w` exceeds the magnitude of the int. |
| Construction.InferWidth | bit_vector/bit_vector_abc.py:19-33 | The width is taken, in this order of precedence, from: a bit-vector's size, `1` for a bit, the length of a sequence (at least 1), an int's bit length, or `int(value)`'s bit length (minimal, at least 1). A value with none of these raises TypeError. An exception raised by `int(value)` (OverflowError, ValueError, TypeError) propagates. Inference fails in exactly these two cases. |
| Construction.Call | bit_vector/bit_vector_abc.py:14-37 | A sized type with a size argument raises TypeError. A sized type without one constructs directly. An unsized type warns iff a size argument is given. With a missing or `None` size, the result is `cls[inferred width]`, and an inference failure raises the exception of the inference. An explicit size behaves exactly like `cls[size]`. A successful result is sized, and for an unsized `cls` its `unsized_t` is `cls`. |
| Construction.WarningHarmless | bit_vector/bit_vector_abc.py:19-37 | Passing `None` as the size only adds the warning. When the width can be inferred, passing it explicitly gives the same class and registry. |
| BitAlgebra.ComplementPairs | bit_vector/bit_vector_abc.py:199-229 | For any backend whose bit inversion is an involution: `bvne` is the negation of `bveq`, `bvugt` of `bvule`, `bvuge` of `bvult`, `bvsgt` of `bvsle`, and `bvsge` of `bvslt`. |
| BitVectors.BitNeMeaning | bit_vector/bit_vector_abc.py:103-104 | On a boolean bit, `a != b` computed as `~(a == b)` is inequality. |
| BitVectors.BitwiseMeaning | bit_vector/bit_vector_abc.py:158-173 | `bvnand`, `bvnor` and `bvxnor` keep the width. At each position they are the NAND, NOR and XNOR of the operand bits. |
| BitVectors.ComparisonMeaning | bit_vector/bit_vector_abc.py:199-229 | `bveq`/`bvne` are equality and inequality of the vectors. `bvule`, `bvugt` and `bvuge` compare the unsigned values. `bvsle`, `bvsgt` and `bvsge` compare the two's complement values. |
| BitVectors.SubMeaning | bit_vector/bit_vector_abc.py:247-248 | `bvsub` computed as `a + (-b)` keeps the width, and its unsigned value is `a - b` modulo `2^w`. |
| BitVectors.FromIntValue | bit_vector/bit_vector_abc.py:232-245 | The `w`-bit truncation used by the reference `bvneg`/`bvadd` reads back as the integer modulo `2^w`. |
| BitVectors.UnsignedInjective | bit_vector/bit_vector_abc.py:196-210 | Equal-width vectors with equal unsigned values are equal, so `bvcomp` agrees with value equality. |
| AdtTypes.Bind | hwtypes/adt.py:26-27 | `cls[key]` on an unbound Tuple is a bound subclass of `cls` whose fields are exactly `key`. It is created once and the same class is returned afterwards. The universe stays valid and only grows. |
| Tuples.FirstMismatch | hwtypes/adt.py:33-35 | Finds the first position whose value is not an instance of its field type. There is none iff every value is an instance. |
| Tuples.Init | hwtypes/adt.py:29-37 | Succeeds iff the arity matches and every value is an instance of its field type. A wrong arity raises ValueError, otherwise a type mismatch raises TypeError. On success the instance stores the values and is well typed. |
| Tuples.New | hwtypes/adt.py:22-27 | A bound Tuple is initialised directly. An unbound Tuple is first bound to the exact types of the values, and then always succeeds as an instance of that bound subclass of `cls`. An unbound Product is excluded; `Tuples.ProductNew` handles it. |
| Tuples.ProductNew | hwtypes/adt.py:70-79 | A bound Product constructs as a Tuple, and keyword arguments raise TypeError there. An unbound Product with one positional argument defines a new Product type named by it, with the keyword fields and base `cls`. Any other call on an unbound Product raises TypeError. |
| Tuples.Equal | hwtypes/adt.py:39-43 | Under Python's dispatch, `a == b` holds iff `b` is a Tuple, one operand is an instance of the other's type, and the stored values compare equal. The values are compared in the order of the operand whose `__eq__` answers. Stored values are equal iff both are tuples or both are lists, of equal length, with items pairwise identical or `==`. |
| Tuples.EqualSymmetric | hwtypes/adt.py:39-43 | Tuple `==` is reflexive. It is symmetric whenever item `==` is. It is False between Tuples of unrelated types. |
| Tuples.NotEqual | hwtypes/adt.py:45-46 | `!=` holds exactly when the condition for `==` fails. |
| Tuples.ItemEqualityScenario | hwtypes/adt.py:29-43 | A Tuple bound to `(int, int)` accepts both `(1, 1)` and `(True, 1)`. The two are `==` exactly when `1 == True`. |
| Tuples.Normalize | hwtypes/adt.py:51-52 | An index is valid iff `-len <= idx < len`. A negative index counts from the end. |
| Tuples.GetItem | hwtypes/adt.py:51-52 | Returns the value at the normalised index. An out-of-range index raises IndexError. |
| Tuples.GetItemTyped | hwtypes/adt.py:51-52 | An item read from a well-typed Tuple is an instance of its field type. |
| Tuples.SetItem | hwtypes/adt.py:54-60 | Succeeds iff the index is in range and the value is an instance of that field's type. On success only that position changes, the values stay a tuple, and the Tuple stays well typed. Otherwise it raises IndexError or TypeError. |
| Tuples.SetItemAsWritten | hwtypes/adt.py:54-60 | Assignment as the source writes it: it succeeds and fails exactly like `SetItem`, with the same items, but the values are stored as a list. |
| Tuples.SetItemAsWrittenBreaksEquality | hwtypes/adt.py:39-58 | As written, assigning to a position the value it already holds leaves a Tuple that is not `==` to the Tuple before the assignment, though that Tuple is `==` to itself. |
| Tuples.SetItemKeepsEquality | hwtypes/adt.py:54-58 | With the values kept as a tuple, writing back the value a position holds gives back the same Tuple, which is `==` to the original. |
| Tuples.SetThenGet | hwtypes/adt.py:54-60 | Reading a position just assigned gives the assigned value. Every other position is unchanged. |
| Tuples.BindingScenario | hwtypes/adt.py:22-35 | `Tuple(1, True)` binds `(int, bool)`, and that bound type rejects `(1, 2)` with TypeError. |
| Sums.Init | hwtypes/adt.py:92-95 | A Sum accepts a value iff its exact type is among the alternatives, or some alternative's class object is the value or `==` to it (Python's containment test). Otherwise it raises TypeError. The instance stores the value. |
| Sums.MatchAfterInit | hwtypes/adt.py:110-111 | `match` returns the value's exact type and the value. The tag is an alternative iff the value was accepted by its type. A value accepted only by containment gets its own type as tag, not an alternative. |
| Sums.Equal | hwtypes/adt.py:97-98 | Under Python's dispatch, `a == b` holds iff the two Sums have the same exact type and `==` values. |
| Sums.NotEqual | hwtypes/adt.py:100-101 | `!=` holds exactly when the condition for `==` fails. |
| Sums.EqualAfterInit | hwtypes/adt.py:97-98 | Two instances built by one Sum type are equal iff their values are `==`. |
| Sums.SubclassInstancesUnequal | hwtypes/adt.py:97-98 | For a Sum type and its subclass holding the same value, `base.__eq__(derived)` called directly compares the values. Yet `base == derived` and `derived == base` are both False, because the subclass's method is tried first. |
| Sums.IntBoolScenario | hwtypes/adt.py:92-95 | `Sum[int, bool]` accepts `1` and matches it to `int`. A `str` is accepted iff it is `==` to `int` or to `bool`, and is then matched to `str`; otherwise TypeError. |
| Sums.EnumInit | hwtypes/adt.py:117-122 | An Enum member stores its value and `value` returns it. |
| Sums.EnumEqual | hwtypes/adt.py:131-132 | Under Python's dispatch, `a == b` holds iff the two members have the same exact type and `==` values. |
| Sums.EnumNotEqual | hwtypes/adt.py:134-135 | `!=` holds exactly when the condition for `==` fails. |
| Sums.EnumEqualByValue | hwtypes/adt.py:131-132 | Two members of one Enum type are equal iff their values are `==`. |
| Modifiers.MakeModifier | tests/test_modifiers.py:45-51 | With `cache`, the modifier made earlier under the same name is returned, and otherwise a new one is recorded under the name. Without `cache`, a new modifier class is always made. |
| Modifiers.MakeModifierCache | tests/test_modifiers.py:45-51 | Two cached calls under one name give the identical modifier. An uncached call gives a new one, distinct from it. |
| Modifiers.Apply | tests/test_modifiers.py:11-14 | `M(B)` is recorded under `(M, B)`. A recorded application is returned unchanged. Every new entry is `M` applied to `B` or to a class below it. |
| Modifiers.ApplyAll | tests/test_modifiers.py:16-19 | `M` is applied to each base of `B`, and the results are listed in order as recorded. |
| Modifiers.ApplyIdempotent | tests/test_modifiers.py:14 | `M(B) is M(B)`: a second application returns the same class and changes nothing. |
| Modifiers.ApplyUnwraps | tests/test_modifiers.py:29-36 | `M(B)` is modified and is not a modifier. `get_modifier` returns `M` and `get_unmodified` returns `B`. |
| Modifiers.GetModifier | tests/test_modifiers.py:35-39 | Succeeds iff the class is modified, and raises TypeError otherwise. In a valid state the result is a modifier, and applying it to the unmodified class gives back the class. |
| Modifiers.GetUnmodified | tests/test_modifiers.py:36-42 | Succeeds iff the class is modified, and raises TypeError otherwise. In a valid state the result is the first direct base of the class. |
| Modifiers.UnwrapRoundTrip | tests/test_modifiers.py:12-36 | Every modified class is the interned result of applying its modifier to its unmodified class. Unwrapping it and applying again gives back the class and changes nothing. |
| Modifiers.UnmodifiedRejected | tests/test_modifiers.py:38-42 | On a class that is not modified, both `get_modifier` and `get_unmodified` raise TypeError. |
| Modifiers.ModifiedDirectSupers | tests/test_modifiers.py:16-18 | `M(B)` is a subclass of `M` and of every ancestor of `B`. |
| Modifiers.ModifiedSupers | tests/test_modifiers.py:19 | For every ancestor `A` of `B`, `M(A)` has been made and `M(B)` is a subclass of it. |
| Modifiers.BasicScenario | tests/test_modifiers.py:10-42 | In the basic scenario, `GlobalBit = Global(Bit)` satisfies each subclass, predicate and unwrapping assertion of the test. |

## Left out

- Weak references: the class cache and class info are weak dictionaries in the source. The model keeps every entry forever, so a class never disappears from the cache.
- Cache hit before validation: `cls[idx]` looks the cache up before checking the index. An index that is not an int but equals and hashes like one (`1.0`, say) therefore returns the cached `cls[1]`. The model keeps this order (`SizedTypes.Index.OtherIndex`).
- Width 0: `cls[0]` is accepted even though the ValueError message says sizes must be positive. The model follows the code.
- `Construction.InferWidth`: the "at least 1" bound is stated only for the cases that apply `max(…, 1)`. A zero-width bit-vector value gives width 0, as in the code.
- Warnings: they are not modelled as output. `Construction.Call` only reports, as a flag, whether the deprecation warning was issued.
- The body of `super().__call__(value)`: the concrete value construction of each backend is not part of this model. `Construction.Call` returns the class the value is constructed in.
- Python's class machinery outside the size check: metaclass selection, MRO computation and the duplicate-base check of `type.__new__` are not modelled. Class names, `__module__` and the class namespace are left out too.
- The abstract primitives (`bvand`, `bvult`, `bvadd`, …) and `adc`: they are uninterpreted in `BitAlgebra`. `BitVectors` is a reference semantics used to state what the derived operations mean; it is not the library's own BitVector implementation. The shifts, rotations, multiplication, division and the extension operations have no derived definition in the abstract class and are left out.
- `hwtypes/adt_meta.py` is not part of this model. `Tuple[key]` binding is modelled as an interning table (`AdtTypes.Bind`). `fields` of a bound Tuple is its key. `type(self)[idx]` in `__setitem__` is taken to index the field types like a Python sequence. `from_fields` is left abstract: `Tuples.ProductNew` returns its arguments as the description of the new type.
- `Tuples.GetItem`: the index is an int. Slices and other index objects are not modelled.
- `Tuples.SetItem`: the index is an int. Slices and other index objects are not modelled.
- `Tuples.Equal`, `Sums.Equal`, `Sums.EnumEqual`: a right operand that is not a Tuple, Sum or Enum respectively is taken to return `NotImplemented` from its reflected `__eq__`, as Python's builtin types do. Python `==` between stored values is a parameter (`AdtTypes.PyEq`), and so is `==` between an object and a class object it is not (`AdtTypes.ClassEq`, used by `Sums.Init`); only the symmetry of `PyEq` is ever assumed (`Tuples.EqualSymmetric`). Identity is value equality of the modelled objects.
- `Sum.match` returns `type(self.value)`, not the matched alternative (`Sums.MatchAfterInit`).
- Modifier application interning: test line 14 requires `Global(Bit) is Global(Bit)` without `cache=True`, so application is always interned. `hwtypes/modifiers.py` is not part of this model, so the modifier contract is modelled from its tests alone. A modifier class has no bases of its own, and instances (`GlobalBit(0)`, lines 21-27) follow from the subclass facts.
- `Product.value_dict`, `__repr__`, `__hash__`, Enum names and auto-numbering (`new_instruction`), and `new()`: these are naming, printing or hashing, not part of the modelled behaviour.
- Object identity: two Python objects with equal contents are equal values here. `is` on classes is id equality.
- Concurrency and the module-level `_DEBUG` switch of the modifiers are not modelled.

## Findings

| source | as written | input that shows it | evidently intended | confidence | as-written member | corrected member |
|---|---|---|---|---|---|---|
| hwtypes/adt.py:54-58 | `__setitem__` stores the updated values as the list `v`, while `__init__` stores a tuple. Tuple `==` compares `self.value == other.value`, and a list never equals a tuple. | A bound `T = Tuple[int, int]` and `t = T(1, 2)`. After `t[0] = 1`, `t == T(1, 2)` is False, though both hold the items `1, 2`. `hash(t)` then raises TypeError as well. | Store `tuple(v)`, so assignment keeps the value a tuple. | not executed | Tuples.SetItemAsWrittenBreaksEquality | Tuples.SetItemKeepsEquality |
