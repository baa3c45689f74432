/** Runs of completed actions: a state machine's step applied to a sequence
    of actions, first to last. */
module Runs {

  function Fold<S, A>(step: (S, A) -> S, s: S, actions: seq<A>): S
    decreases |actions|
  {
    if actions == [] then s else Fold(step, step(s, actions[0]), actions[1..])
  }

  /** Appending one action to a run applies it to the run's final state, so
      a run may equally be read from its last action backwards. */
  lemma {:induction false} FoldSnoc<S, A>(step: (S, A) -> S, s: S, actions: seq<A>, a: A)
    ensures Fold(step, s, actions + [a]) == step(Fold(step, s, actions), a)
    decreases |actions|
  {
    if actions != [] {
      assert (actions + [a])[1..] == actions[1..] + [a];
      FoldSnoc(step, step(s, actions[0]), actions[1..], a);
    }
  }
}
