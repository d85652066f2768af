/** Type modifiers: `make_modifier(name, cache)` makes a modifier, and
    applying a modifier `M` to a class `B` gives the class `M(B)`, interned
    per `(M, B)`, which is a subclass of `B`, of `M`, and of `M(A)` for every
    base `A` of `B`. Only what the modifier tests pin down is modelled. */
module Modifiers {
  import opened Outcomes
  import opened Classes

  /** A class is ordinary, a modifier made under a name, or the result of
      applying a modifier to a base. */
  datatype Role = Ordinary | Modifier(name: string) | Modified(modifier: ClassId, base: ClassId)

  /** The classes with their bases and roles, the applied modifiers
      `(M, B) -> M(B)`, and the modifiers cached by name. */
  datatype State = State(
    bases: Graph,
    roles: seq<Role>,
    applied: map<(ClassId, ClassId), ClassId>,
    named: map<string, ClassId>)

  /** `[M(p) for p in ps]`, read from the applied table. */
  function ModifiedAll(s: State, m: ClassId, ps: seq<ClassId>): seq<ClassId>
    requires forall i :: 0 <= i < |ps| ==> (m, ps[i]) in s.applied
  {
    seq(|ps|, i requires 0 <= i < |ps| => s.applied[(m, ps[i])])
  }

  /** An applied entry `(M, B) -> T`: `T` is recorded as `M` applied to `B`,
      and its bases are `B`, `M(A)` for each base `A` of `B`, then `M`. */
  ghost predicate EntryOk(s: State, m: ClassId, b: ClassId, t: ClassId)
    requires |s.bases| == |s.roles|
  {
    && m < t && b < t && t < |s.roles|
    && s.roles[m].Modifier?
    && s.roles[t] == Modified(m, b)
    && (forall i :: 0 <= i < |s.bases[b]| ==> (m, s.bases[b][i]) in s.applied)
    && s.bases[t] == [b] + ModifiedAll(s, m, s.bases[b]) + [m]
  }

  ghost predicate Valid(s: State) {
    && |s.bases| == |s.roles|
    && WellFounded(s.bases)
    && (forall k :: k in s.applied ==> EntryOk(s, k.0, k.1, s.applied[k]))
    && (forall n :: n in s.named ==> s.named[n] < |s.roles| && s.roles[s.named[n]] == Modifier(n))
    && (forall c :: 0 <= c < |s.roles| ==> RoleRecorded(s, c))
  }

  /** A class recorded as `M` applied to `B` is the interned `M(B)`. */
  ghost predicate RoleRecorded(s: State, c: ClassId)
    requires c < |s.roles|
  {
    s.roles[c].Modified? ==>
      var k := (s.roles[c].modifier, s.roles[c].base);
      k in s.applied && s.applied[k] == c
  }

  ghost predicate Extends(s: State, s': State) {
    && Grows(s.bases, s'.bases)
    && |s.roles| <= |s'.roles| && s'.roles[..|s.roles|] == s.roles
    && (forall k :: k in s.applied ==> k in s'.applied && s'.applied[k] == s.applied[k])
    && (forall n :: n in s.named ==> n in s'.named && s'.named[n] == s.named[n])
  }

  lemma RoleKept(s: State, s': State, c: ClassId)
    requires Extends(s, s') && c < |s.roles|
    ensures s'.roles[c] == s.roles[c]
  {
    assert s'.roles[..|s.roles|][c] == s'.roles[c];
  }

  lemma ExtendsTransitive(s1: State, s2: State, s3: State)
    requires Extends(s1, s2) && Extends(s2, s3)
    ensures Extends(s1, s3)
  {
    assert s3.bases[..|s1.bases|] == s3.bases[..|s2.bases|][..|s1.bases|];
    assert s3.roles[..|s1.roles|] == s3.roles[..|s2.roles|][..|s1.roles|];
  }

  lemma EntryStable(s: State, s': State, m: ClassId, b: ClassId, t: ClassId)
    requires |s.bases| == |s.roles| && |s'.bases| == |s'.roles|
    requires Extends(s, s') && EntryOk(s, m, b, t)
    ensures EntryOk(s', m, b, t)
  {
    RoleKept(s, s', m);
    RoleKept(s, s', t);
    assert s'.bases[..|s.bases|][b] == s'.bases[b];
    assert s'.bases[..|s.bases|][t] == s'.bases[t];
  }

  /** `is_modifier`. */
  predicate IsModifier(s: State, c: ClassId) {
    c < |s.roles| && s.roles[c].Modifier?
  }

  /** `is_modified`. */
  predicate IsModified(s: State, c: ClassId) {
    c < |s.roles| && s.roles[c].Modified?
  }

  /** What the invariant says about a modified class. */
  lemma RoleFacts(s: State, c: ClassId)
    requires c < |s.roles|
    ensures Valid(s) && s.roles[c].Modified? ==>
      RoleRecorded(s, c) && EntryOk(s, s.roles[c].modifier, s.roles[c].base, c)
  {
    if Valid(s) && s.roles[c].Modified? {
      assert RoleRecorded(s, c);
    }
  }

  /** `get_modifier`: TypeError on a class that is not modified. On a valid
      state the modifier of `M(B)` is a modifier, and applying it to
      `get_unmodified` of the class finds the class itself. */
  function GetModifier(s: State, c: ClassId): (res: Result<ClassId>)
    requires c < |s.roles|
    ensures res.Ok? <==> IsModified(s, c)
    ensures res.Err? ==> res == Err(TypeError)
    ensures Valid(s) && res.Ok? ==>
      && IsModifier(s, res.value)
      && (res.value, GetUnmodified(s, c).value) in s.applied
      && s.applied[(res.value, GetUnmodified(s, c).value)] == c
  {
    RoleFacts(s, c);
    match s.roles[c]
    case Modified(m, _) => Ok(m)
    case _ => Err(TypeError)
  }

  /** `get_unmodified`: TypeError on a class that is not modified. On a valid
      state the class unwrapped from `M(B)` is `B`, a direct base of it. */
  function GetUnmodified(s: State, c: ClassId): (res: Result<ClassId>)
    requires c < |s.roles|
    ensures res.Ok? <==> IsModified(s, c)
    ensures res.Err? ==> res == Err(TypeError)
    ensures Valid(s) && res.Ok? ==> res.value < c && |s.bases[c]| > 0 && s.bases[c][0] == res.value
  {
    RoleFacts(s, c);
    match s.roles[c]
    case Modified(_, b) => Ok(b)
    case _ => Err(TypeError)
  }

  /** `make_modifier(name, cache)`: with `cache`, the modifier made earlier
      under the same cached name if any; otherwise a new modifier class,
      remembered under its name when `cache` is set. */
  function MakeModifier(s: State, name: string, cache: bool): (r: (State, ClassId))
    requires Valid(s)
    ensures Valid(r.0) && Extends(s, r.0) && r.0.applied == s.applied
    ensures IsModifier(r.0, r.1) && r.0.roles[r.1] == Modifier(name)
    ensures cache && name in s.named ==> r == (s, s.named[name])
    ensures !(cache && name in s.named) ==> r.1 == |s.roles|
    ensures cache ==> name in r.0.named && r.0.named[name] == r.1
  {
    if cache && name in s.named then (s, s.named[name])
    else
      var t := |s.bases|;
      var s' := State(s.bases + [[]], s.roles + [Modifier(name)], s.applied,
                      if cache then s.named[name := t] else s.named);
      assert s'.bases[..|s.bases|] == s.bases && s'.roles[..|s.roles|] == s.roles;
      forall k | k in s'.applied ensures EntryOk(s', k.0, k.1, s'.applied[k]) {
        EntryStable(s, s', k.0, k.1, s.applied[k]);
      }
      forall c | 0 <= c < |s'.roles| ensures RoleRecorded(s', c) {
        if c < |s.roles| {
          assert RoleRecorded(s, c);
        }
      }
      (s', t)
  }

  /** Applying modifier `m` to class `b`: the class made earlier for
      `(m, b)`, else `m` is first applied to each base of `b` and a new class
      is made with bases `b`, those results, and `m`. */
  function Apply(s: State, m: ClassId, b: ClassId): (r: (State, ClassId))
    requires Valid(s) && IsModifier(s, m) && b < |s.bases|
    ensures Valid(r.0) && Extends(s, r.0)
    ensures forall k :: k in r.0.applied && k !in s.applied ==> k.0 == m && k.1 <= b
    ensures (m, b) in r.0.applied && r.0.applied[(m, b)] == r.1
    ensures (m, b) in s.applied ==> r == (s, s.applied[(m, b)])
    decreases b, 1, 0
  {
    if (m, b) in s.applied then (s, s.applied[(m, b)])
    else
      var (s1, ts) := ApplyAll(s, m, b, s.bases[b]);
      var t := |s1.bases|;
      var s' := State(s1.bases + [[b] + ts + [m]], s1.roles + [Modified(m, b)],
                      s1.applied[(m, b) := t], s1.named);
      RecordValid(s, s1, s', m, b, ts, t);
      (s', t)
  }

  /** `m` applied to each of `ps`, the bases of some class `below`. */
  function ApplyAll(s: State, m: ClassId, below: ClassId, ps: seq<ClassId>): (r: (State, seq<ClassId>))
    requires Valid(s) && IsModifier(s, m) && below < |s.bases|
    requires forall i :: 0 <= i < |ps| ==> ps[i] < below
    ensures Valid(r.0) && Extends(s, r.0)
    ensures forall k :: k in r.0.applied && k !in s.applied ==> k.0 == m && k.1 < below
    ensures AppliedAs(r.0, m, ps, r.1)
    decreases below, 0, |ps|
  {
    if ps == [] then (s, [])
    else
      var (s1, t) := Apply(s, m, ps[0]);
      RoleKept(s, s1, m);
      var (s2, ts) := ApplyAll(s1, m, below, ps[1..]);
      ExtendsTransitive(s, s1, s2);
      AppliedCons(s1, s2, m, ps, t, ts);
      (s2, [t] + ts)
  }

  /** `ts[i]` is the recorded `m(ps[i])`. */
  ghost predicate AppliedAs(s: State, m: ClassId, ps: seq<ClassId>, ts: seq<ClassId>) {
    |ts| == |ps| && forall i :: 0 <= i < |ps| ==> (m, ps[i]) in s.applied && s.applied[(m, ps[i])] == ts[i]
  }

  lemma AppliedCons(s1: State, s2: State, m: ClassId, ps: seq<ClassId>, t: ClassId, ts: seq<ClassId>)
    requires |ps| > 0 && Extends(s1, s2) && AppliedAs(s2, m, ps[1..], ts)
    requires (m, ps[0]) in s1.applied && s1.applied[(m, ps[0])] == t
    ensures AppliedAs(s2, m, ps, [t] + ts)
  {
    forall i | 1 <= i < |ps| ensures ps[i] == ps[1..][i - 1] && ([t] + ts)[i] == ts[i - 1] {}
  }

  /** Recording `t = m(b)` keeps the state valid. */
  lemma RecordValid(s: State, s1: State, s': State, m: ClassId, b: ClassId, ts: seq<ClassId>, t: ClassId)
    requires Valid(s) && IsModifier(s, m) && b < |s.bases| && (m, b) !in s.applied
    requires Valid(s1) && Extends(s, s1)
    requires forall k :: k in s1.applied && k !in s.applied ==> k.0 == m && k.1 < b
    requires AppliedAs(s1, m, s.bases[b], ts)
    requires t == |s1.bases|
    requires s' == State(s1.bases + [[b] + ts + [m]], s1.roles + [Modified(m, b)], s1.applied[(m, b) := t], s1.named)
    ensures Valid(s') && Extends(s, s')
    ensures forall k :: k in s'.applied && k !in s.applied ==> k.0 == m && k.1 <= b
  {
    var bs := [b] + ts + [m];
    forall i | 0 <= i < |bs| ensures bs[i] < t {
      if 0 < i < |bs| - 1 {
        assert bs[i] == ts[i - 1];
        assert EntryOk(s1, m, s.bases[b][i - 1], ts[i - 1]);
      }
    }
    Define(s1.bases, bs);
    assert s'.roles[..|s1.roles|] == s1.roles;
    assert Extends(s1, s');
    ExtendsTransitive(s, s1, s');
    NewEntryOk(s, s1, s', m, b, ts, t);
    assert RoleRecorded(s', t);
    OldEntriesOk(s1, s', (m, b));
  }

  lemma NewEntryOk(s: State, s1: State, s': State, m: ClassId, b: ClassId, ts: seq<ClassId>, t: ClassId)
    requires Valid(s) && IsModifier(s, m) && b < |s.bases|
    requires Valid(s1) && Extends(s, s1) && Extends(s, s')
    requires AppliedAs(s1, m, s.bases[b], ts)
    requires t == |s1.bases|
    requires s' == State(s1.bases + [[b] + ts + [m]], s1.roles + [Modified(m, b)], s1.applied[(m, b) := t], s1.named)
    ensures EntryOk(s', m, b, t)
  {
    RoleKept(s, s', m);
    assert s'.bases[..|s.bases|][b] == s'.bases[b];
    forall i | 0 <= i < |ts| ensures ts[i] < t {
      assert EntryOk(s1, m, s.bases[b][i], ts[i]);
    }
    assert ModifiedAll(s', m, s'.bases[b]) == ts;
  }

  lemma OldEntriesOk(s1: State, s': State, key: (ClassId, ClassId))
    requires Valid(s1) && Extends(s1, s') && |s'.bases| == |s'.roles|
    requires key in s'.applied && EntryOk(s', key.0, key.1, s'.applied[key])
    requires forall k :: k in s'.applied ==> k in s1.applied || k == key
    requires forall n :: n in s'.named ==> n in s1.named && s'.named[n] == s1.named[n]
    requires WellFounded(s'.bases)
    requires forall c :: |s1.roles| <= c < |s'.roles| ==> RoleRecorded(s', c)
    ensures Valid(s')
  {
    forall c | 0 <= c < |s1.roles| ensures RoleRecorded(s', c) {
      RoleKept(s1, s', c);
      assert RoleRecorded(s1, c);
    }
    forall k | k in s'.applied ensures EntryOk(s', k.0, k.1, s'.applied[k]) {
      if k != key {
        EntryStable(s1, s', k.0, k.1, s1.applied[k]);
      }
    }
    forall n | n in s'.named ensures s'.named[n] < |s'.roles| && s'.roles[s'.named[n]] == Modifier(n) {
      RoleKept(s1, s', s1.named[n]);
    }
  }

  /** Applying the same modifier to the same class again returns the
      identical class and changes nothing. */
  lemma ApplyIdempotent(s: State, m: ClassId, b: ClassId)
    requires Valid(s) && IsModifier(s, m) && b < |s.bases|
    ensures var r := Apply(s, m, b);
      IsModifier(r.0, m) && Apply(r.0, m, b) == r
  {
    RoleKept(s, Apply(s, m, b).0, m);
  }

  /** `M(B)` is recorded as modified, and `get_modifier` / `get_unmodified`
      recover `M` and `B` from it. */
  lemma ApplyUnwraps(s: State, m: ClassId, b: ClassId)
    requires Valid(s) && IsModifier(s, m) && b < |s.bases|
    ensures var (s', t) := Apply(s, m, b);
      && IsModified(s', t) && !IsModifier(s', t)
      && GetModifier(s', t) == Ok(m) && GetUnmodified(s', t) == Ok(b)
  {
    var (s', t) := Apply(s, m, b);
    assert EntryOk(s', m, b, t);
  }

  /** Every modified class is the interned result of applying its modifier
      to its unmodified class: unwrapping and re-applying gives it back. */
  lemma UnwrapRoundTrip(s: State, c: ClassId)
    requires Valid(s) && IsModified(s, c)
    ensures IsModifier(s, GetModifier(s, c).value) && GetUnmodified(s, c).value < |s.bases|
    ensures Apply(s, GetModifier(s, c).value, GetUnmodified(s, c).value) == (s, c)
  {
  }

  /** On a class that is not modified, both unwrappers raise TypeError; a
      modifier itself is not modified. */
  lemma UnmodifiedRejected(s: State, c: ClassId)
    requires c < |s.roles| && !IsModified(s, c)
    ensures GetModifier(s, c) == Err(TypeError) && GetUnmodified(s, c) == Err(TypeError)
    ensures IsModifier(s, c) ==> !IsModified(s, c)
  {
  }

  /** `M(B)` is a subclass of `M` and of every ancestor of `B`. */
  lemma ModifiedDirectSupers(s: State, m: ClassId, b: ClassId, a: ClassId)
    requires Valid(s) && (m, b) in s.applied && SubclassOf(s.bases, b, a)
    ensures SubclassOf(s.bases, s.applied[(m, b)], m) && SubclassOf(s.bases, s.applied[(m, b)], a)
  {
    var t := s.applied[(m, b)];
    assert EntryOk(s, m, b, t);
    BaseIsSuperclass(s.bases, t, 0);
    BaseIsSuperclass(s.bases, t, |s.bases[t]| - 1);
    SubclassTransitive(s.bases, t, b, a);
  }

  /** Subtype closure: `M(B)` is a subclass of `M(A)` for every ancestor `A`
      of `B`, and `M(A)` has been made. */
  lemma {:induction false} ModifiedSupers(s: State, m: ClassId, b: ClassId, a: ClassId)
    requires Valid(s) && (m, b) in s.applied && SubclassOf(s.bases, b, a)
    ensures (m, a) in s.applied && SubclassOf(s.bases, s.applied[(m, b)], s.applied[(m, a)])
    decreases b
  {
    if b != a {
      var i :| 0 <= i < |s.bases[b]| && s.bases[b][i] < b && SubclassOf(s.bases, s.bases[b][i], a);
      var p := s.bases[b][i];
      ModifiedSupers(s, m, p, a);
      ModifiedBase(s, m, b, i);
      SubclassTransitive(s.bases, s.applied[(m, b)], s.applied[(m, p)], s.applied[(m, a)]);
    }
  }

  /** `M(B)` is a subclass of `M(P)` for each direct base `P` of `B`. */
  lemma ModifiedBase(s: State, m: ClassId, b: ClassId, i: nat)
    requires Valid(s) && (m, b) in s.applied && b < |s.bases| && i < |s.bases[b]|
    ensures (m, s.bases[b][i]) in s.applied
    ensures SubclassOf(s.bases, s.applied[(m, b)], s.applied[(m, s.bases[b][i])])
  {
    var t := s.applied[(m, b)];
    assert EntryOk(s, m, b, t);
    BaseIsSuperclass(s.bases, t, i + 1);
    assert s.bases[t][i + 1] == ModifiedAll(s, m, s.bases[b])[i];
  }

  /** `make_modifier` with `cache` twice under one name gives the identical
      modifier; without `cache` it gives a new one, distinct from any class
      made before, the cached one included. */
  lemma MakeModifierCache(s: State, name: string)
    requires Valid(s)
    ensures var (s1, g1) := MakeModifier(s, name, true);
      var (s2, g2) := MakeModifier(s1, name, true);
      var (s3, g3) := MakeModifier(s2, name, false);
      g1 == g2 && g3 != g1 && g3 == |s2.roles|
  {
  }

  /** The basic modifier scenario: `Bit` (class 1) deriving from
      `AbstractBit` (class 0), a modifier `Global`, and `GlobalBit = Global(Bit)`. */
  lemma BasicScenario(s0: State)
    requires s0 == State([[], [0]], [Ordinary, Ordinary], map[], map[])
    ensures var (s1, global) := MakeModifier(s0, "Global", false);
      var (s2, globalBit) := Apply(s1, global, 1);
      && Apply(s2, global, 1).1 == globalBit
      && SubclassOf(s2.bases, globalBit, 1) && SubclassOf(s2.bases, globalBit, 0)
      && SubclassOf(s2.bases, globalBit, global)
      && Apply(s2, global, 0).0 == s2
      && SubclassOf(s2.bases, globalBit, Apply(s2, global, 0).1)
      && IsModifier(s2, global) && IsModified(s2, globalBit)
      && !IsModifier(s2, 1) && !IsModified(s2, 1) && !IsModified(s2, global)
      && GetModifier(s2, globalBit) == Ok(global) && GetUnmodified(s2, globalBit) == Ok(1)
      && GetModifier(s2, 1) == Err(TypeError) && GetUnmodified(s2, 1) == Err(TypeError)
  {
    assert Valid(s0);
    var (s1, global) := MakeModifier(s0, "Global", false);
    var (s2, globalBit) := Apply(s1, global, 1);
    RoleKept(s1, s2, global);
    RoleKept(s0, s1, 1);
    RoleKept(s1, s2, 1);
    ApplyIdempotent(s1, global, 1);
    ApplyUnwraps(s1, global, 1);
    assert SubclassOf(s2.bases, 1, 0) by {
      assert s2.bases[..|s0.bases|][1] == s2.bases[1];
      assert s2.bases[1][0] == 0 && SubclassOf(s2.bases, 0, 0);
    }
    ModifiedDirectSupers(s2, global, 1, 0);
    ModifiedDirectSupers(s2, global, 1, 1);
    ModifiedSupers(s2, global, 1, 0);
    UnmodifiedRejected(s2, 1);
  }
}
