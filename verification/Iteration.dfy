/** Repeated application of one step, whatever the step does. */
module Iteration {

  function Iterate<S>(step: S -> S, start: S, n: nat): S {
    if n == 0 then start else step(Iterate(step, start, n - 1))
  }

  lemma IterateOnce<S>(step: S -> S, start: S, n: nat, now: S, next: S)
    requires now == Iterate(step, start, n) && next == step(now)
    ensures next == Iterate(step, start, n + 1)
  {
  }

  lemma {:induction false} SettledStays<S>(step: S -> S, start: S, m: nat, n: nat)
    requires m <= n && Iterate(step, start, m) == Iterate(step, start, m + 1)
    ensures Iterate(step, start, n) == Iterate(step, start, m)
  {
    if m < n {
      SettledStays(step, start, m, n - 1);
    }
  }

  /** A loop that stops at the first step without effect, or else one step after the bound, ends at
      the bound's value, which is a fixpoint, provided the bound suffices. */
  lemma StopsAtFixpoint<S>(step: S -> S, start: S, bound: nat, n: nat, now: S, changed: bool)
    requires Iterate(step, start, bound) == Iterate(step, start, bound + 1)
    requires n <= bound + 1 && now == Iterate(step, start, n)
    requires if changed then n == bound + 1 else n > 0 && Iterate(step, start, n - 1) == now
    ensures now == Iterate(step, start, bound)
    ensures step(now) == now
  {
    if !changed {
      SettledStays(step, start, n - 1, bound);
    }
  }
}
