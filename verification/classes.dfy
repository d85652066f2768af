/** The class graph shared by the bit-vector registry, the algebraic data
    types and the modifiers: classes are numbered in order of definition and
    each class lists its direct bases in declaration order. */
module Classes {

  type ClassId = nat

  /** `g[c]` is the tuple of direct bases of class `c`. */
  type Graph = seq<seq<ClassId>>

  /** A class is defined after its bases, so every base has a smaller id. */
  ghost predicate WellFounded(g: Graph) {
    forall c, i :: 0 <= c < |g| && 0 <= i < |g[c]| ==> g[c][i] < c
  }

  /** Python's `issubclass(a, b)`: `a` is `b` or some base of `a` is a
      subclass of `b`. */
  predicate SubclassOf(g: Graph, a: ClassId, b: ClassId)
    decreases a
  {
    a == b ||
    (a < |g| && exists i :: 0 <= i < |g[a]| && g[a][i] < a && SubclassOf(g, g[a][i], b))
  }

  /** `g'` keeps every class of `g` with the same bases, possibly adding more. */
  ghost predicate Grows(g: Graph, g': Graph) {
    |g| <= |g'| && g'[..|g|] == g
  }

  lemma BaseIsSuperclass(g: Graph, c: ClassId, i: nat)
    requires WellFounded(g) && c < |g| && i < |g[c]|
    ensures SubclassOf(g, c, g[c][i])
  {
    assert SubclassOf(g, g[c][i], g[c][i]);
  }

  lemma {:induction false} SubclassTransitive(g: Graph, a: ClassId, b: ClassId, c: ClassId)
    requires SubclassOf(g, a, b) && SubclassOf(g, b, c)
    ensures SubclassOf(g, a, c)
    decreases a
  {
    if a != b {
      var i :| 0 <= i < |g[a]| && g[a][i] < a && SubclassOf(g, g[a][i], b);
      SubclassTransitive(g, g[a][i], b, c);
    }
  }

  /** A superclass is never defined later, so two distinct classes are never
      subclasses of each other. */
  lemma {:induction false} SubclassBelow(g: Graph, a: ClassId, b: ClassId)
    requires SubclassOf(g, a, b)
    ensures b <= a
    ensures SubclassOf(g, b, a) ==> a == b
    decreases a
  {
    if a != b {
      var i :| 0 <= i < |g[a]| && g[a][i] < a && SubclassOf(g, g[a][i], b);
      SubclassBelow(g, g[a][i], b);
      if SubclassOf(g, b, a) {
        SubclassBelow(g, b, a);
      }
    }
  }

  /** The same, as a fact about any two classes. */
  lemma NotMutual(g: Graph, a: ClassId, b: ClassId)
    ensures a != b && SubclassOf(g, a, b) ==> !SubclassOf(g, b, a)
  {
    if SubclassOf(g, a, b) {
      SubclassBelow(g, a, b);
    }
  }

  /** Defining new classes never changes which old classes are subclasses of what. */
  lemma {:induction false} SubclassStable(g: Graph, g': Graph, a: ClassId, b: ClassId)
    requires Grows(g, g') && a < |g|
    ensures SubclassOf(g, a, b) <==> SubclassOf(g', a, b)
    decreases a
  {
    assert g'[a] == g[a] by { assert g'[..|g|][a] == g'[a]; }
    forall i | 0 <= i < |g[a]| && g[a][i] < a
      ensures SubclassOf(g, g[a][i], b) <==> SubclassOf(g', g[a][i], b)
    {
      SubclassStable(g, g', g[a][i], b);
    }
  }

  /** The class defined with bases `bs` right after the classes of `g` is a
      subclass of exactly itself and the superclasses of its bases. */
  lemma {:induction false} NewClassSupers(g: Graph, bs: seq<ClassId>, b: ClassId)
    requires forall i :: 0 <= i < |bs| ==> bs[i] < |g|
    ensures SubclassOf(g + [bs], |g|, b) <==>
      (b == |g| || exists i :: 0 <= i < |bs| && SubclassOf(g, bs[i], b))
  {
    var g' := g + [bs];
    assert Grows(g, g');
    assert g'[|g|] == bs;
    forall i | 0 <= i < |bs|
      ensures SubclassOf(g, bs[i], b) <==> SubclassOf(g', bs[i], b)
    {
      SubclassStable(g, g', bs[i], b);
    }
  }

  /** Defining a class whose bases all exist already keeps the graph well founded. */
  lemma Define(g: Graph, bs: seq<ClassId>)
    requires WellFounded(g) && forall i :: 0 <= i < |bs| ==> bs[i] < |g|
    ensures WellFounded(g + [bs]) && Grows(g, g + [bs])
  {
    var g' := g + [bs];
    assert g'[..|g|] == g;
    forall c, i | 0 <= c < |g'| && 0 <= i < |g'[c]| ensures g'[c][i] < c {
      if c < |g| {
        assert g'[c] == g[c];
      }
    }
  }
}
