/** A state carried through a sequence of inputs by any step function. */
module Folds {

  /** The state after the first k inputs. */
  function At<S, V>(step: (S, V) -> S, start: S, vs: seq<V>, k: nat): S
    requires k <= |vs|
  {
    if k == 0 then start else step(At(step, start, vs, k - 1), vs[k - 1])
  }

  lemma {:induction false} AtPrefix<S, V>(step: (S, V) -> S, start: S, vs: seq<V>, us: seq<V>, k: nat)
    requires k <= |vs|
    ensures At(step, start, vs + us, k) == At(step, start, vs, k)
  {
    if k > 0 {
      AtPrefix(step, start, vs, us, k - 1);
    }
  }

  lemma {:induction false} AtCompose<S, V>(step: (S, V) -> S, start: S, vs: seq<V>, us: seq<V>, k: nat)
    requires k <= |us|
    ensures At(step, start, vs + us, |vs| + k) == At(step, At(step, start, vs, |vs|), us, k)
  {
    if k == 0 {
      AtPrefix(step, start, vs, us, |vs|);
    } else {
      AtCompose(step, start, vs, us, k - 1);
      assert (vs + us)[|vs| + k - 1] == us[k - 1];
    }
  }

  /** Two stretches of inputs, one after the other. */
  lemma AtChain<S, V>(step: (S, V) -> S, start: S, vs: seq<V>, us: seq<V>, mid: S, end: S)
    requires mid == At(step, start, vs, |vs|) && end == At(step, mid, us, |us|)
    ensures end == At(step, start, vs + us, |vs + us|)
  {
    AtCompose(step, start, vs, us, |us|);
  }

  /** What every step from i on keeps, holds from i on. */
  lemma {:induction false} AtKeeps<S(!new), V>(step: (S, V) -> S, start: S, vs: seq<V>, i: nat, k: nat, inv: S -> bool)
    requires i <= k <= |vs| && inv(At(step, start, vs, i))
    requires forall s, j :: i <= j < k && inv(s) ==> inv(step(s, vs[j]))
    ensures inv(At(step, start, vs, k))
  {
    if i < k {
      AtKeeps(step, start, vs, i, k - 1, inv);
    }
  }
}
