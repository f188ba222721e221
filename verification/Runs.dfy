/** Runs of a step system: the state after a sequence of steps, and when a run
    reaches a state that the same steps leave alone. */
module Runs {

  function Fold<S, A>(s: S, steps: seq<A>, act: (S, A) -> S): S {
    if steps == [] then s else act(Fold(s, steps[..|steps| - 1], act), steps[|steps| - 1])
  }

  lemma {:induction false} FoldAppend<S, A>(s: S, a: seq<A>, b: seq<A>, act: (S, A) -> S)
    ensures Fold(s, a + b, act) == Fold(Fold(s, a, act), b, act)
    decreases |b|
  {
    if b == [] {
      assert a + b == a;
    } else {
      var n := |b| - 1;
      FoldAppend(s, a, b[..n], act);
      assert (a + b)[..|a + b| - 1] == a + b[..n];
    }
  }

  lemma FoldOne<S, A>(s: S, steps: seq<A>, step: A, act: (S, A) -> S)
    ensures Fold(s, steps + [step], act) == act(Fold(s, steps, act), step)
  {
    assert (steps + [step])[..|steps|] == steps;
  }

  // A run up to and including step i.
  lemma FoldNext<S, A>(s: S, steps: seq<A>, i: nat, act: (S, A) -> S)
    requires i < |steps|
    ensures Fold(s, steps[..i + 1], act) == act(Fold(s, steps[..i], act), steps[i])
  {
    assert steps[..i + 1][..i] == steps[..i];
  }

  // Every step of the run reported success.
  ghost predicate AllSucceed<S, A>(s: S, steps: seq<A>, act: (S, A) -> S, succeeds: (S, A) -> bool) {
    forall i :: 0 <= i < |steps| ==> succeeds(Fold(s, steps[..i], act), steps[i])
  }

  // A successful step settles what it is about, and unsettles nothing that
  // another of the steps is about.
  ghost predicate Settles<S(!new), A>(steps: seq<A>, act: (S, A) -> S, inv: S -> bool,
                                      succeeds: (S, A) -> bool, settled: (S, A) -> bool) {
    forall t: S, i, j ::
      0 <= j <= i < |steps| && inv(t) && succeeds(t, steps[i]) && (j < i ==> settled(t, steps[j])) ==>
        settled(act(t, steps[i]), steps[j])
  }

  lemma {:induction false} SuccessSettles<S(!new), A>(s: S, steps: seq<A>, k: nat, act: (S, A) -> S, inv: S -> bool,
                                                      succeeds: (S, A) -> bool, settled: (S, A) -> bool)
    requires k <= |steps| && inv(s) && AllSucceed(s, steps, act, succeeds)
    requires forall t: S, i :: 0 <= i < |steps| && inv(t) ==> inv(act(t, steps[i]))
    requires Settles(steps, act, inv, succeeds, settled)
    ensures inv(Fold(s, steps[..k], act))
    ensures forall j :: 0 <= j < k ==> settled(Fold(s, steps[..k], act), steps[j])
  {
    if k == 0 {
      assert steps[..0] == [];
    } else {
      SuccessSettles(s, steps, k - 1, act, inv, succeeds, settled);
      FoldNext(s, steps, k - 1, act);
      var mid := Fold(s, steps[..k - 1], act);
      assert inv(mid) && succeeds(mid, steps[k - 1]);
      forall j | 0 <= j < k ensures settled(act(mid, steps[k - 1]), steps[j]) {
      }
    }
  }

  lemma {:induction false} FixedIsLeftAlone<S, A>(s: S, steps: seq<A>, act: (S, A) -> S)
    requires forall i :: 0 <= i < |steps| ==> act(s, steps[i]) == s
    ensures Fold(s, steps, act) == s
  {
    if steps != [] {
      FixedIsLeftAlone(s, steps[..|steps| - 1], act);
    }
  }

  // What one more step keeps holds of every run.
  lemma {:induction false} EveryRun<A(!new)>(steps: seq<A>, may: A -> bool, holds: seq<A> -> bool)
    requires holds([]) && forall i :: 0 <= i < |steps| ==> may(steps[i])
    requires forall before, step :: holds(before) && may(step) ==> holds(before + [step])
    ensures holds(steps)
  {
    if steps != [] {
      var n := |steps| - 1;
      EveryRun(steps[..n], may, holds);
      assert steps == steps[..n] + [steps[n]];
    }
  }
}
