/** The sized-type registry of `AbstractBitVectorMeta`: class creation
    (`__new__`), instantiation `cls[n]` (`__getitem__`) with its cache, and the
    `unsized_t`, `size` and `is_sized` properties. */
module SizedTypes {
  import opened Outcomes
  import opened Classes

  /** What `_class_info` records for a class made by the metaclass: the
      unsized type it belongs to, and its size (None while unsized). */
  datatype Info = Info(unsized: Option<ClassId>, size: Option<nat>)

  /** All classes defined so far, with their bases and `_class_info` entry
      (None for a class whose metaclass is not `AbstractBitVectorMeta`), and
      the instantiation cache `(cls, n) -> cls[n]`. The cache never evicts. */
  datatype Registry = Registry(
    bases: Graph,
    info: seq<Option<Info>>,
    cache: map<(ClassId, nat), ClassId>)

  /** The argument of `cls[idx]`: an int, or some other object, which may
      compare and hash equal to an int (as `1.0` does to `1`). */
  datatype Index = IntIndex(n: int) | OtherIndex(equalInt: Option<int>)

  /** The registry after an operation, and what the operation returned or raised. */
  datatype Step<+T> = Step(reg: Registry, result: Result<T>)

  predicate IsMeta(r: Registry, c: ClassId) {
    c < |r.info| && r.info[c].Some?
  }

  /** `getattr(c, 'is_sized', False)`: only a sized metaclass instance has a size. */
  predicate HasSize(r: Registry, c: ClassId) {
    IsMeta(r, c) && r.info[c].value.size.Some?
  }

  /** The `is_sized` property: whether a size is recorded. On a valid
      registry, exactly the types that are not their own unsized type. */
  function IsSized(r: Registry, c: ClassId): (b: bool)
    requires IsMeta(r, c)
    ensures b <==> Size(r, c).Some?
    ensures Valid(r) ==> (b <==> UnsizedT(r, c) != Ok(c))
  {
    InfoFacts(r, c);
    r.info[c].value.size.Some?
  }

  /** The `size` property: None on an unsized type. On a valid registry a
      sized type with an unsized type `f` is the cached `f[size]`, and an
      unsized type is its own unsized type. */
  function Size(r: Registry, c: ClassId): (s: Option<nat>)
    requires IsMeta(r, c)
    ensures s.Some? <==> HasSize(r, c)
    ensures Valid(r) && s.Some? && UnsizedT(r, c).Ok? ==>
      (UnsizedT(r, c).value, s.value) in r.cache && r.cache[(UnsizedT(r, c).value, s.value)] == c
    ensures Valid(r) && s.None? ==> UnsizedT(r, c) == Ok(c)
  {
    InfoFacts(r, c);
    r.info[c].value.size
  }

  /** The `unsized_t` property: AttributeError when no unsized type is
      recorded. On a valid registry that happens exactly for the sized types
      that no `f[n]` produced (those made by subclassing a sized type), and
      the unsized type, when there is one, is an unsized metaclass instance. */
  function UnsizedT(r: Registry, c: ClassId): (res: Result<ClassId>)
    requires IsMeta(r, c)
    ensures res.Err? ==> res == Err(AttributeError)
    ensures Valid(r) ==>
      (res.Err? <==> HasSize(r, c) && forall k :: k in r.cache ==> r.cache[k] != c)
    ensures Valid(r) && res.Ok? ==> UnsizedMeta(r, res.value) && (res.value == c <==> !HasSize(r, c))
  {
    InfoFacts(r, c);
    match r.info[c].value.unsized
    case Some(t) => Ok(t)
    case None => Err(AttributeError)
  }

  /** What the invariant says about the `_class_info` entry of one class. */
  lemma InfoFacts(r: Registry, c: ClassId)
    requires IsMeta(r, c)
    ensures Valid(r) ==> InfoOk(r, c)
    ensures Valid(r) && r.info[c].value.unsized.None? ==> forall k :: k in r.cache ==> r.cache[k] != c
    ensures Valid(r) && r.info[c].value.unsized.Some? ==>
      UnsizedMeta(r, r.info[c].value.unsized.value)
  {
    if Valid(r) {
      assert InfoOk(r, c);
      if r.info[c].value.unsized.None? {
        forall k | k in r.cache ensures r.cache[k] != c {
          assert EntryOk(r, k.0, k.1, r.cache[k]);
        }
      } else if r.info[c].value.size.Some? {
        var f, n := r.info[c].value.unsized.value, r.info[c].value.size.value;
        assert EntryOk(r, f, n, c);
      }
    }
  }

  /** The bases that are instances of `AbstractBitVectorMeta`, in declaration order. */
  function MetaBases(r: Registry, bs: seq<ClassId>): (ms: seq<ClassId>)
    ensures forall j :: 0 <= j < |ms| ==> ms[j] in bs && IsMeta(r, ms[j])
    ensures forall i :: 0 <= i < |bs| && IsMeta(r, bs[i]) ==> bs[i] in ms
  {
    if bs == [] then []
    else (if IsMeta(r, bs[0]) then [bs[0]] else []) + MetaBases(r, bs[1..])
  }

  /** The filter keeps declaration order: it distributes over concatenation. */
  lemma {:induction false} MetaBasesAppend(r: Registry, xs: seq<ClassId>, ys: seq<ClassId>)
    ensures MetaBases(r, xs + ys) == MetaBases(r, xs) + MetaBases(r, ys)
  {
    if xs == [] {
      assert xs + ys == ys;
    } else {
      var head := if IsMeta(r, xs[0]) then [xs[0]] else [];
      assert (xs + ys)[0] == xs[0] && (xs + ys)[1..] == xs[1..] + ys;
      calc {
        MetaBases(r, xs + ys);
        head + MetaBases(r, xs[1..] + ys);
        { MetaBasesAppend(r, xs[1..], ys); }
        head + (MetaBases(r, xs[1..]) + MetaBases(r, ys));
        (head + MetaBases(r, xs[1..])) + MetaBases(r, ys);
      }
    }
  }

  /** `[b[n] for b in ms]`, read from the cache. */
  function Resolved(r: Registry, ms: seq<ClassId>, n: nat): seq<ClassId>
    requires forall j :: 0 <= j < |ms| ==> (ms[j], n) in r.cache
  {
    seq(|ms|, j requires 0 <= j < |ms| => r.cache[(ms[j], n)])
  }

  /** A cache entry `(f, n) -> t`: `f` is unsized, `t` records `(f, n)`, and
      the bases of `t` are `f` followed by `b[n]` for each generic base `b` of `f`. */
  ghost predicate EntryOk(r: Registry, f: ClassId, n: nat, t: ClassId)
    requires |r.bases| == |r.info| && WellFounded(r.bases)
  {
    && f < |r.info| && t < |r.info|
    && r.info[f].Some? && r.info[f].value.size.None?
    && r.info[t] == Some(Info(Some(f), Some(n)))
    && var ms := MetaBases(r, r.bases[f]);
       && (forall j :: 0 <= j < |ms| ==> (ms[j], n) in r.cache)
       && r.bases[t] == [f] + Resolved(r, ms, n)
  }

  /** The registry invariant. A class with a metaclass base is itself made by
      the metaclass (Python picks the most derived metaclass), and a class
      made without a sized base stays unsized, so no base of it is sized. */
  ghost predicate Valid(r: Registry) {
    && |r.bases| == |r.info|
    && WellFounded(r.bases)
    && (forall c, i :: 0 <= c < |r.info| && r.info[c].None? && 0 <= i < |r.bases[c]| ==>
          !IsMeta(r, r.bases[c][i]))
    && (forall c, i ::
          (0 <= c < |r.info| && r.info[c].Some? && r.info[c].value.size.None? && 0 <= i < |r.bases[c]|) ==>
          !HasSize(r, r.bases[c][i]))
    && (forall k :: k in r.cache ==> EntryOk(r, k.0, k.1, r.cache[k]))
    && (forall c :: 0 <= c < |r.info| ==> InfoOk(r, c))
  }

  /** The `_class_info` entry of `c` agrees with how it was made: an unsized
      class is its own unsized type, and a class recorded as `(f, n)` is the
      cached `f[n]`. */
  ghost predicate InfoOk(r: Registry, c: ClassId)
    requires c < |r.info|
  {
    r.info[c].Some? ==>
      var i := r.info[c].value;
      && (i.size.None? ==> i.unsized == Some(c))
      && (i.unsized.Some? && i.size.Some? ==>
            (i.unsized.value, i.size.value) in r.cache && r.cache[(i.unsized.value, i.size.value)] == c)
  }

  /** `r'` keeps every class, its bases, its info and every cache entry of `r`. */
  ghost predicate Extends(r: Registry, r': Registry) {
    && Grows(r.bases, r'.bases)
    && |r.info| <= |r'.info| && r'.info[..|r.info|] == r.info
    && (forall k :: k in r.cache ==> k in r'.cache && r'.cache[k] == r.cache[k])
  }

  lemma {:induction false} MetaBasesStable(r: Registry, r': Registry, bs: seq<ClassId>)
    requires Extends(r, r')
    requires forall i :: 0 <= i < |bs| ==> bs[i] < |r.info|
    ensures MetaBases(r, bs) == MetaBases(r', bs)
  {
    if bs != [] {
      assert r'.info[..|r.info|][bs[0]] == r'.info[bs[0]];
      MetaBasesStable(r, r', bs[1..]);
    }
  }

  lemma EntryStable(r: Registry, r': Registry, f: ClassId, n: nat, t: ClassId)
    requires |r.bases| == |r.info| && WellFounded(r.bases)
    requires |r'.bases| == |r'.info| && WellFounded(r'.bases)
    requires Extends(r, r') && EntryOk(r, f, n, t)
    ensures EntryOk(r', f, n, t)
  {
    assert r'.info[..|r.info|][f] == r'.info[f];
    assert r'.info[..|r.info|][t] == r'.info[t];
    assert r'.bases[..|r.bases|][f] == r'.bases[f];
    assert r'.bases[..|r.bases|][t] == r'.bases[t];
    MetaBasesStable(r, r', r.bases[f]);
  }

  /** Appending classes and cache entries keeps the old part of the invariant. */
  lemma ExtendValid(r: Registry, r': Registry)
    requires Valid(r) && Extends(r, r')
    requires |r'.bases| == |r'.info| && WellFounded(r'.bases)
    requires forall k :: k in r'.cache && k !in r.cache ==> EntryOk(r', k.0, k.1, r'.cache[k])
    requires forall c, i :: |r.info| <= c < |r'.info| && r'.info[c].None? && 0 <= i < |r'.bases[c]| ==>
          !IsMeta(r', r'.bases[c][i])
    requires forall c, i ::
          (|r.info| <= c < |r'.info| && r'.info[c].Some? && r'.info[c].value.size.None? && 0 <= i < |r'.bases[c]|) ==>
          !HasSize(r', r'.bases[c][i])
    requires forall c :: |r.info| <= c < |r'.info| ==> InfoOk(r', c)
    ensures Valid(r')
  {
    forall c | 0 <= c < |r.info| ensures InfoOk(r', c) {
      InfoKept(r, r', c);
      assert InfoOk(r, c);
    }
    forall k | k in r'.cache
      ensures EntryOk(r', k.0, k.1, r'.cache[k])
    {
      if k in r.cache {
        EntryStable(r, r', k.0, k.1, r.cache[k]);
      }
    }
    forall c, i | 0 <= c < |r.info| && 0 <= i < |r'.bases[c]|
      ensures r'.info[c] == r.info[c] && r'.bases[c] == r.bases[c]
      ensures IsMeta(r', r'.bases[c][i]) == IsMeta(r, r.bases[c][i])
      ensures HasSize(r', r'.bases[c][i]) == HasSize(r, r.bases[c][i])
    {
      assert r'.info[..|r.info|][c] == r'.info[c];
      assert r'.bases[..|r.bases|][c] == r'.bases[c];
      var b := r.bases[c][i];
      assert r'.info[..|r.info|][b] == r'.info[b];
    }
  }

  /** A size conflict among the bases, or between a base and the size `acc`
      already taken from an earlier base. */
  ghost predicate Conflict(r: Registry, bs: seq<ClassId>, acc: Option<nat>) {
    || (exists i, j :: 0 <= i < |bs| && 0 <= j < |bs| && HasSize(r, bs[i]) && HasSize(r, bs[j]) &&
          r.info[bs[i]].value.size != r.info[bs[j]].value.size)
    || (acc.Some? && exists i :: 0 <= i < |bs| && HasSize(r, bs[i]) && r.info[bs[i]].value.size != acc)
  }

  /** Every sized base has size `n`. */
  ghost predicate AllSized(r: Registry, bs: seq<ClassId>, n: nat) {
    forall i :: 0 <= i < |bs| && HasSize(r, bs[i]) ==> r.info[bs[i]].value.size == Some(n)
  }

  predicate AnySized(r: Registry, bs: seq<ClassId>) {
    exists i :: 0 <= i < |bs| && HasSize(r, bs[i])
  }

  /** The loop of `__new__` over the bases: the size of the first sized base,
      TypeError if a later sized base disagrees. */
  function BasesSize(r: Registry, bs: seq<ClassId>, acc: Option<nat>): (res: Result<Option<nat>>)
    ensures res.Err? <==> Conflict(r, bs, acc)
    ensures res.Err? ==> res.exc == TypeError
    ensures res == Ok(None) <==> acc.None? && !AnySized(r, bs)
    ensures res.Ok? && res.value.Some? ==>
      AllSized(r, bs, res.value.value) && (acc.Some? ==> acc == res.value)
  {
    if bs == [] then Ok(acc)
    else
      var b := bs[0];
      var rest := BasesSize(r, bs[1..], if HasSize(r, b) && acc.None? then r.info[b].value.size else acc);
      assert forall i :: 0 <= i < |bs[1..]| ==> bs[1..][i] == bs[i + 1];
      if HasSize(r, b) && acc.Some? && r.info[b].value.size != acc then
        Err(TypeError)
      else
        rest
  }

  /** `AbstractBitVectorMeta.__new__`: define a class with bases `bs`. With no
      sized base it is recorded as its own unsized type with no size; with
      sized bases it takes their common size and has no unsized type. */
  function NewClass(r: Registry, bs: seq<ClassId>): (s: Step<ClassId>)
    requires Valid(r) && forall i :: 0 <= i < |bs| ==> bs[i] < |r.bases|
    ensures Valid(s.reg) && Extends(r, s.reg) && s.reg.cache == r.cache
    ensures s.result.Err? <==> Conflict(r, bs, None)
    ensures s.result.Err? ==> s == Step(r, Err(TypeError))
    ensures s.result.Ok? ==>
      var t := s.result.value;
      && t == |r.bases| && |s.reg.bases| == t + 1 && s.reg.bases[t] == bs
      && (!AnySized(r, bs) ==> s.reg.info[t] == Some(Info(Some(t), None)))
      && (AnySized(r, bs) ==>
            s.reg.info[t].Some? && s.reg.info[t].value.unsized.None? &&
            s.reg.info[t].value.size.Some? && AllSized(r, bs, s.reg.info[t].value.size.value))
  {
    match BasesSize(r, bs, None)
    case Err(e) => Step(r, Err(e))
    case Ok(size) =>
      var t := |r.bases|;
      var info := if size.None? then Info(Some(t), None) else Info(None, size);
      var r' := Registry(r.bases + [bs], r.info + [Some(info)], r.cache);
      DefineValid(r, bs, size);
      Step(r', Ok(t))
  }

  /** Recording a class made by `__new__` with bases `bs` and the size the
      bases agree on keeps the registry valid. */
  lemma DefineValid(r: Registry, bs: seq<ClassId>, size: Option<nat>)
    requires Valid(r) && forall i :: 0 <= i < |bs| ==> bs[i] < |r.bases|
    requires size.None? ==> !AnySized(r, bs)
    ensures var t := |r.bases|;
      var info := if size.None? then Info(Some(t), None) else Info(None, size);
      var r' := Registry(r.bases + [bs], r.info + [Some(info)], r.cache);
      Valid(r') && Extends(r, r')
  {
    var t := |r.bases|;
    var info := if size.None? then Info(Some(t), None) else Info(None, size);
    var r' := Registry(r.bases + [bs], r.info + [Some(info)], r.cache);
    assert r'.bases[..|r.bases|] == r.bases && r'.info[..|r.info|] == r.info;
    Define(r.bases, bs);
    assert InfoOk(r', t);
    ExtendValid(r, r');
  }

  /** The key `cls[idx]` is looked up under: the int the index equals, if any. */
  function KeyOf(idx: Index): Option<int> {
    match idx
    case IntIndex(n) => Some(n)
    case OtherIndex(k) => k
  }

  /** The cache lookup that `__getitem__` tries before anything else. */
  function Cached(r: Registry, cls: ClassId, idx: Index): (hit: Option<ClassId>)
    ensures hit.Some? <==> KeyOf(idx).Some? && KeyOf(idx).value >= 0 && (cls, KeyOf(idx).value as nat) in r.cache
  {
    match KeyOf(idx)
    case Some(k) => if k >= 0 && (cls, k as nat) in r.cache then Some(r.cache[(cls, k as nat)]) else None
    case None => None
  }

  /** `AbstractBitVectorMeta.__getitem__`: `cls[idx]`. A cached instance is
      returned before any validation. Otherwise a non-int index raises
      TypeError, a negative one ValueError (0 is accepted), and a sized `cls`
      TypeError; else `b[n]` is instantiated for each generic base `b`, a class
      with bases `cls, b[n]...` is defined and recorded as `(cls, n)`. */
  function Instantiate(r: Registry, cls: ClassId, idx: Index): (s: Step<ClassId>)
    requires Valid(r) && IsMeta(r, cls)
    ensures Valid(s.reg) && Extends(r, s.reg)
    ensures forall k :: k in s.reg.cache && k !in r.cache ==> k.0 <= cls
    ensures Cached(r, cls, idx).Some? ==> s == Step(r, Ok(Cached(r, cls, idx).value))
    ensures Cached(r, cls, idx).None? && !idx.IntIndex? ==> s == Step(r, Err(TypeError))
    ensures Cached(r, cls, idx).None? && idx.IntIndex? && idx.n < 0 ==> s == Step(r, Err(ValueError))
    ensures Cached(r, cls, idx).None? && idx.IntIndex? && idx.n >= 0 && IsSized(r, cls) ==>
      s == Step(r, Err(TypeError))
    ensures s.result.Ok? <==>
      Cached(r, cls, idx).Some? || (idx.IntIndex? && idx.n >= 0 && !IsSized(r, cls))
    ensures s.result.Ok? ==>
      var k := KeyOf(idx).value as nat;
      var t := s.result.value;
      && KeyOf(idx).Some? && KeyOf(idx).value >= 0
      && (cls, k) in s.reg.cache && s.reg.cache[(cls, k)] == t
      && IsMeta(s.reg, t) && Size(s.reg, t) == Some(k) && UnsizedT(s.reg, t) == Ok(cls)
    ensures s.result.Ok? && Cached(r, cls, idx).None? ==> s.result.value >= |r.bases|
    decreases cls, 2, 0
  {
    match Cached(r, cls, idx)
    case Some(t) =>
      var k := KeyOf(idx).value as nat;
      assert EntryOk(r, cls, k, r.cache[(cls, k)]);
      Step(r, Ok(t))
    case None =>
      if !idx.IntIndex? then Step(r, Err(TypeError))
      else if idx.n < 0 then Step(r, Err(ValueError))
      else if IsSized(r, cls) then Step(r, Err(TypeError))
      else Create(r, cls, idx.n as nat)
  }

  /** The cache-miss path of `__getitem__` on an unsized `cls` and a valid
      size `n`: a new class `cls[n]`, recorded in the cache. */
  function Create(r: Registry, cls: ClassId, n: nat): (s: Step<ClassId>)
    requires Valid(r) && UnsizedMeta(r, cls) && (cls, n) !in r.cache
    ensures Valid(s.reg) && Extends(r, s.reg)
    ensures forall k :: k in s.reg.cache && k !in r.cache ==> k.0 <= cls
    ensures s.result.Ok? && s.result.value >= |r.bases|
    ensures (cls, n) in s.reg.cache && s.reg.cache[(cls, n)] == s.result.value
    ensures IsMeta(s.reg, s.result.value) && s.reg.info[s.result.value] == Some(Info(Some(cls), Some(n)))
    decreases cls, 1, 0
  {
    var ms := MetaBases(r, r.bases[cls]);
    MetaBasesUnsized(r, cls);
    var sb := InstantiateBases(r, cls, ms, n);
    var ts := sb.result.value;
    InstanceBasesAgree(r, sb.reg, cls, ms, n, ts);
    var d := NewClass(sb.reg, [cls] + ts);
    var t := d.result.value;
    var r' := Registry(d.reg.bases, d.reg.info[t := Some(Info(Some(cls), Some(n)))], d.reg.cache[(cls, n) := t]);
    RecordValid(r, sb.reg, d.reg, r', cls, n, t);
    ExtendsTransitive(r, sb.reg, r');
    Step(r', Ok(t))
  }

  /** The bases `cls, b[n]...` of a new instance are defined and agree on size `n`. */
  lemma InstanceBasesAgree(r: Registry, rb: Registry, cls: ClassId, ms: seq<ClassId>, n: nat, ts: seq<ClassId>)
    requires Valid(r) && UnsizedMeta(r, cls) && Valid(rb) && Extends(r, rb)
    requires ResolvedAs(rb, ms, n, ts)
    ensures forall i :: 0 <= i < |[cls] + ts| ==> ([cls] + ts)[i] < |rb.bases|
    ensures !Conflict(rb, [cls] + ts, None)
    ensures (forall j :: 0 <= j < |ms| ==> (ms[j], n) in rb.cache) && Resolved(rb, ms, n) == ts
  {
    InfoKept(r, rb, cls);
    var bs := [cls] + ts;
    assert AllSized(rb, bs, n) by {
      forall i | 0 <= i < |bs| && HasSize(rb, bs[i]) ensures rb.info[bs[i]].value.size == Some(n) {
        assert i > 0 && bs[i] == ts[i - 1];
      }
    }
  }

  /** A metaclass instance that has no size yet. */
  predicate UnsizedMeta(r: Registry, c: ClassId) {
    IsMeta(r, c) && r.info[c].value.size.None?
  }

  /** `ts[j]` is the cached `ms[j][n]`, a class of size `n`. */
  ghost predicate ResolvedAs(r: Registry, ms: seq<ClassId>, n: nat, ts: seq<ClassId>) {
    && |ts| == |ms|
    && forall j :: 0 <= j < |ms| ==>
         && (ms[j], n) in r.cache && r.cache[(ms[j], n)] == ts[j]
         && ts[j] < |r.info| && r.info[ts[j]].Some? && r.info[ts[j]].value.size == Some(n)
  }

  /** `b[n]` for each generic base `b` of `cls`, in order. None of these can
      fail: the bases of an unsized class are unsized. */
  function InstantiateBases(r: Registry, cls: ClassId, ms: seq<ClassId>, n: nat): (s: Step<seq<ClassId>>)
    requires Valid(r) && cls < |r.info|
    requires forall j :: 0 <= j < |ms| ==> ms[j] < cls && UnsizedMeta(r, ms[j])
    ensures Valid(s.reg) && Extends(r, s.reg)
    ensures forall k :: k in s.reg.cache && k !in r.cache ==> k.0 < cls
    ensures s.result.Ok? && ResolvedAs(s.reg, ms, n, s.result.value)
    decreases cls, 0, |ms|
  {
    if ms == [] then Step(r, Ok([]))
    else
      assert UnsizedMeta(r, ms[0]);
      var head := Instantiate(r, ms[0], IntIndex(n));
      var rest := ms[1..];
      UnsizedMetaKept(r, head.reg, ms);
      var tail := InstantiateBases(head.reg, cls, rest, n);
      var t0 := head.result.value;
      ResolvedCons(head.reg, tail.reg, ms, n, t0, tail.result.value);
      ExtendsTransitive(r, head.reg, tail.reg);
      Step(tail.reg, Ok([t0] + tail.result.value))
  }

  lemma UnsizedMetaKept(r: Registry, r': Registry, ms: seq<ClassId>)
    requires |ms| > 0 && Extends(r, r') && forall j :: 0 <= j < |ms| ==> UnsizedMeta(r, ms[j])
    ensures forall j :: 0 <= j < |ms[1..]| ==> UnsizedMeta(r', ms[1..][j])
  {
    forall j | 0 <= j < |ms[1..]| ensures UnsizedMeta(r', ms[1..][j]) {
      assert ms[1..][j] == ms[j + 1];
      InfoKept(r, r', ms[j + 1]);
    }
  }

  lemma ResolvedCons(r: Registry, r': Registry, ms: seq<ClassId>, n: nat, t0: ClassId, ts: seq<ClassId>)
    requires |ms| > 0 && Extends(r, r') && ResolvedAs(r', ms[1..], n, ts)
    requires (ms[0], n) in r.cache && r.cache[(ms[0], n)] == t0
    requires t0 < |r.info| && r.info[t0].Some? && r.info[t0].value.size == Some(n)
    ensures ResolvedAs(r', ms, n, [t0] + ts)
  {
    InfoKept(r, r', t0);
    forall j | 1 <= j < |ms| ensures ms[j] == ms[1..][j - 1] && ([t0] + ts)[j] == ts[j - 1] {}
  }

  /** The generic bases of an unsized class are unsized and defined before it. */
  lemma MetaBasesUnsized(r: Registry, cls: ClassId)
    requires Valid(r) && UnsizedMeta(r, cls)
    ensures var ms := MetaBases(r, r.bases[cls]);
      forall j :: 0 <= j < |ms| ==> ms[j] < cls && UnsizedMeta(r, ms[j])
  {
    var ms := MetaBases(r, r.bases[cls]);
    forall j | 0 <= j < |ms| ensures ms[j] < cls && UnsizedMeta(r, ms[j]) {
      var i :| 0 <= i < |r.bases[cls]| && r.bases[cls][i] == ms[j];
      assert !HasSize(r, r.bases[cls][i]);
    }
  }

  lemma InfoKept(r: Registry, r': Registry, c: ClassId)
    requires Extends(r, r') && c < |r.info|
    ensures r'.info[c] == r.info[c]
  {
    assert r'.info[..|r.info|][c] == r'.info[c];
  }

  lemma ExtendsTransitive(r1: Registry, r2: Registry, r3: Registry)
    requires Extends(r1, r2) && Extends(r2, r3)
    ensures Extends(r1, r3)
  {
    assert r3.bases[..|r1.bases|] == r3.bases[..|r2.bases|][..|r1.bases|];
    assert r3.info[..|r1.info|] == r3.info[..|r2.info|][..|r1.info|];
  }

  /** Recording the new instance `t = cls[n]` keeps the registry valid. */
  lemma RecordValid(r: Registry, rb: Registry, rd: Registry, r': Registry, cls: ClassId, n: nat, t: ClassId)
    requires Valid(r) && IsMeta(r, cls) && !IsSized(r, cls) && (cls, n) !in r.cache
    requires Valid(rb) && Extends(r, rb)
    requires forall k :: k in rb.cache && k !in r.cache ==> k.0 < cls
    requires var ms := MetaBases(r, r.bases[cls]);
      forall j :: 0 <= j < |ms| ==> (ms[j], n) in rb.cache
    requires Valid(rd) && Extends(rb, rd) && rd.cache == rb.cache
    requires t == |rb.bases| && |rd.bases| == t + 1
    requires rd.bases[t] == [cls] + Resolved(rb, MetaBases(r, r.bases[cls]), n)
    requires r' == Registry(rd.bases, rd.info[t := Some(Info(Some(cls), Some(n)))], rd.cache[(cls, n) := t])
    ensures Valid(r') && Extends(rb, r')
    ensures forall k :: k in r'.cache && k !in r.cache ==> k.0 <= cls
  {
    assert (cls, n) !in rb.cache;
    assert rd.bases[..|rb.bases|] == rb.bases;
    assert r'.info[..|rb.info|] == rd.info[..|rb.info|];
    assert Extends(rb, r');
    ExtendsTransitive(r, rb, r');
    NewEntryOk(r, rb, rd, r', cls, n, t);
    ExtendValid(rb, r');
  }

  /** The entry recorded for `cls[n]` satisfies the cache invariant. */
  lemma NewEntryOk(r: Registry, rb: Registry, rd: Registry, r': Registry, cls: ClassId, n: nat, t: ClassId)
    requires Valid(r) && IsMeta(r, cls) && !IsSized(r, cls)
    requires Extends(rb, r') && Extends(r, r') && Valid(rd) && rd.cache == rb.cache
    requires var ms := MetaBases(r, r.bases[cls]);
      forall j :: 0 <= j < |ms| ==> (ms[j], n) in rb.cache
    requires t == |rb.bases| && |rd.bases| == t + 1
    requires rd.bases[t] == [cls] + Resolved(rb, MetaBases(r, r.bases[cls]), n)
    requires r' == Registry(rd.bases, rd.info[t := Some(Info(Some(cls), Some(n)))], rd.cache[(cls, n) := t])
    ensures EntryOk(r', cls, n, t)
  {
    assert r'.info[..|r.info|][cls] == r'.info[cls];
    assert r'.bases[..|r.bases|][cls] == r'.bases[cls];
    MetaBasesStable(r, r', r.bases[cls]);
  }

  /** Instantiating `cls[n]` again returns the identical class and changes nothing. */
  lemma InstantiateIdempotent(r: Registry, cls: ClassId, n: int)
    requires Valid(r) && IsMeta(r, cls)
    requires Instantiate(r, cls, IntIndex(n)).result.Ok?
    ensures var s := Instantiate(r, cls, IntIndex(n));
      Instantiate(s.reg, cls, IntIndex(n)) == s
  {
    var s := Instantiate(r, cls, IntIndex(n));
    InfoKept(r, s.reg, cls);
    assert Cached(s.reg, cls, IntIndex(n)) == Some(s.result.value);
  }

  /** `c.unsized_t[c.size] is c` for every sized type that has an unsized
      type: the lookup hits the cache and changes nothing. */
  lemma SizedRoundTrip(r: Registry, c: ClassId)
    requires Valid(r) && IsMeta(r, c) && IsSized(r, c) && UnsizedT(r, c).Ok?
    ensures IsMeta(r, UnsizedT(r, c).value)
    ensures Instantiate(r, UnsizedT(r, c).value, IntIndex(Size(r, c).value)) == Step(r, Ok(c))
  {
  }

  /** Different sizes give different classes: `cls[p]` is not `cls[q]` for `p != q`. */
  lemma DistinctSizes(r: Registry, cls: ClassId, p: nat, q: nat)
    requires Valid(r) && UnsizedMeta(r, cls) && p != q
    ensures var s1 := Instantiate(r, cls, IntIndex(p));
      var s2 := Instantiate(s1.reg, cls, IntIndex(q));
      s1.result.Ok? && s2.result.Ok? && s1.result.value != s2.result.value
  {
    var s1 := Instantiate(r, cls, IntIndex(p));
    InfoKept(r, s1.reg, cls);
    var s2 := Instantiate(s1.reg, cls, IntIndex(q));
    InfoKept(s1.reg, s2.reg, s1.result.value);
  }

  /** The bases of `t = cls[n]` are `cls` followed by `b[n]` for each generic
      base `b` of `cls` in declaration order, so `t` is a subclass of each. */
  lemma InstanceBases(r: Registry, cls: ClassId, n: nat)
    requires Valid(r) && IsMeta(r, cls)
    requires Instantiate(r, cls, IntIndex(n)).result.Ok?
    ensures var s := Instantiate(r, cls, IntIndex(n));
      var t := s.result.value;
      var ms := MetaBases(s.reg, s.reg.bases[cls]);
      && (forall j :: 0 <= j < |ms| ==> (ms[j], n) in s.reg.cache)
      && s.reg.bases[t] == [cls] + Resolved(s.reg, ms, n)
      && SubclassOf(s.reg.bases, t, cls)
      && (forall j :: 0 <= j < |ms| ==> SubclassOf(s.reg.bases, t, s.reg.cache[(ms[j], n)]))
  {
    var s := Instantiate(r, cls, IntIndex(n));
    CachedBases(s.reg, cls, n);
  }

  /** The same, for any entry of the cache of a valid registry. */
  lemma CachedBases(r: Registry, f: ClassId, n: nat)
    requires Valid(r) && (f, n) in r.cache
    ensures var t := r.cache[(f, n)];
      var ms := MetaBases(r, r.bases[f]);
      && (forall j :: 0 <= j < |ms| ==> (ms[j], n) in r.cache)
      && r.bases[t] == [f] + Resolved(r, ms, n)
      && SubclassOf(r.bases, t, f)
      && (forall j :: 0 <= j < |ms| ==> SubclassOf(r.bases, t, r.cache[(ms[j], n)]))
  {
    var t := r.cache[(f, n)];
    assert EntryOk(r, f, n, t);
    var ms := MetaBases(r, r.bases[f]);
    BaseIsSuperclass(r.bases, t, 0);
    forall j | 0 <= j < |ms| ensures SubclassOf(r.bases, t, r.cache[(ms[j], n)]) {
      BaseIsSuperclass(r.bases, t, j + 1);
    }
  }

  /** A class that is not made by the metaclass only has such ancestors. */
  lemma {:induction false} PlainAncestorsPlain(r: Registry, a: ClassId, b: ClassId)
    requires Valid(r) && a < |r.info| && r.info[a].None? && SubclassOf(r.bases, a, b)
    ensures !IsMeta(r, b)
    decreases a
  {
    if a != b {
      var i :| 0 <= i < |r.bases[a]| && r.bases[a][i] < a && SubclassOf(r.bases, r.bases[a][i], b);
      PlainAncestorsPlain(r, r.bases[a][i], b);
    }
  }

  /** Ancestor propagation: for a generic family `f` deriving, directly or
      not, from a generic `b`, `f[n]` is a subclass of `b[n]`. */
  lemma {:induction false} AncestorPropagation(r: Registry, f: ClassId, b: ClassId, n: nat)
    requires Valid(r) && (f, n) in r.cache && IsMeta(r, b) && SubclassOf(r.bases, f, b)
    ensures (b, n) in r.cache && SubclassOf(r.bases, r.cache[(f, n)], r.cache[(b, n)])
    decreases f
  {
    var t := r.cache[(f, n)];
    assert EntryOk(r, f, n, t);
    if f != b {
      var i :| 0 <= i < |r.bases[f]| && r.bases[f][i] < f && SubclassOf(r.bases, r.bases[f][i], b);
      var p := r.bases[f][i];
      if !IsMeta(r, p) {
        PlainAncestorsPlain(r, p, b);
      }
      var ms := MetaBases(r, r.bases[f]);
      var j :| 0 <= j < |ms| && ms[j] == p;
      AncestorPropagation(r, p, b, n);
      BaseIsSuperclass(r.bases, t, j + 1);
      SubclassTransitive(r.bases, t, r.cache[(p, n)], r.cache[(b, n)]);
    }
  }
}
