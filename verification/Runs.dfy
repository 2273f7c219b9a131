/** Runs of a system of labelled steps, and the two ways of reasoning over them. */
module Runs {

  /** states[i] steps to states[i + 1] by labels[i], from an initial state. */
  ghost predicate IsRun<S(!new), L(!new)>(init: S -> bool, next: (S, L, S) -> bool, states: seq<S>, labels: seq<L>) {
    && |states| == |labels| + 1
    && init(states[0])
    && forall i :: 0 <= i < |labels| ==> next(states[i], labels[i], states[i + 1])
  }

  /** What holds at the start and is kept by every step holds throughout. */
  lemma {:induction false} Invariant<S(!new), L(!new)>(
      init: S -> bool, next: (S, L, S) -> bool, inv: S -> bool, states: seq<S>, labels: seq<L>, i: nat)
    requires IsRun(init, next, states, labels) && i < |states|
    requires inv(states[0])
    requires forall s, l, s' :: inv(s) && next(s, l, s') ==> inv(s')
    ensures inv(states[i])
  {
    if i > 0 {
      Invariant(init, next, inv, states, labels, i - 1);
      assert next(states[i - 1], labels[i - 1], states[i]);
    }
  }

  /** A reflexive and transitive relation that every step from an invariant state obeys holds between any two states. */
  lemma {:induction false} Monotone<S(!new), L(!new)>(
      init: S -> bool, next: (S, L, S) -> bool, inv: S -> bool, rel: (S, S) -> bool,
      states: seq<S>, labels: seq<L>, i: nat, j: nat)
    requires IsRun(init, next, states, labels) && i <= j < |states|
    requires inv(states[0])
    requires forall s, l, s' :: inv(s) && next(s, l, s') ==> inv(s')
    requires forall s :: rel(s, s)
    requires forall s, l, s' :: inv(s) && next(s, l, s') ==> rel(s, s')
    requires forall s, s', s'' :: rel(s, s') && rel(s', s'') ==> rel(s, s'')
    ensures rel(states[i], states[j])
  {
    if i < j {
      Monotone(init, next, inv, rel, states, labels, i, j - 1);
      Invariant(init, next, inv, states, labels, j - 1);
      assert next(states[j - 1], labels[j - 1], states[j]);
    }
  }
}
