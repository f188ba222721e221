/** Small facts about sets and sequences that several modules use. */
module Collections {

  // Stated as a disjunction so that a loop over a set of numbers can pick.
  lemma EmptyOrInhabited(s: set<int>)
    ensures s == {} || exists x :: x in s
  {
    assert (forall x :: x !in s) ==> s == {};
  }

  lemma SubsetSize<T>(a: set<T>, b: set<T>)
    requires a <= b
    ensures |a| <= |b|
  {
    assert b == a + (b - a);
    assert |b| == |a| + |b - a|;
  }

  function Elements<T(==)>(s: seq<T>): set<T> {
    set x | x in s
  }

  ghost predicate StrictlyIncreasing(xs: seq<nat>) {
    forall i, j :: 0 <= i < j < |xs| ==> xs[i] < xs[j]
  }

  // What the elements contribute together.
  ghost function UnionOf<X, T>(xs: seq<X>, f: X -> set<T>): set<T> {
    if xs == [] then {} else UnionOf(xs[..|xs| - 1], f) + f(xs[|xs| - 1])
  }

  lemma {:induction false} UnionMembers<X, T>(xs: seq<X>, f: X -> set<T>, t: T)
    ensures t in UnionOf(xs, f) <==> exists j :: 0 <= j < |xs| && t in f(xs[j])
  {
    if xs != [] {
      UnionMembers(xs[..|xs| - 1], f, t);
    }
  }

  lemma UnionNext<X, T>(xs: seq<X>, f: X -> set<T>, i: nat)
    requires i < |xs|
    ensures UnionOf(xs[..i + 1], f) == UnionOf(xs[..i], f) + f(xs[i])
  {
    assert xs[..i + 1][..i] == xs[..i];
  }

  // i is the last position with the property, or -1 when there is none.
  ghost predicate IsLast<X>(xs: seq<X>, has: X -> bool, i: int) {
    && -1 <= i < |xs| && (i >= 0 ==> has(xs[i]))
    && forall j :: i < j < |xs| ==> !has(xs[j])
  }

  // A map filled in order: the last value for a key stays.
  ghost function Filled<X, V>(xs: seq<X>, has: X -> bool, value: X -> V): Filling<V> {
    if xs == [] then Nothing
    else if has(xs[|xs| - 1]) then Just(value(xs[|xs| - 1]))
    else Filled(xs[..|xs| - 1], has, value)
  }

  datatype Filling<V> = Nothing | Just(value: V)

  lemma {:induction false} FilledIsLast<X, V>(xs: seq<X>, has: X -> bool, value: X -> V) returns (i: int)
    ensures IsLast(xs, has, i)
    ensures Filled(xs, has, value) == if i >= 0 then Just(value(xs[i])) else Nothing
  {
    i := |xs| - 1;
    if xs != [] && !has(xs[i]) {
      i := FilledIsLast(xs[..|xs| - 1], has, value);
    }
  }
}
