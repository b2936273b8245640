/** The shared cache of the TrueNAS runtime observation (nabla/api/homelab_runtime.py): a failed refresh
    keeps serving the last reachable observation, marked as stale. */
module RuntimeCache {
  import opened Wrappers

  datatype Observation<A> = Observation(reachable: bool, stale: bool, apps: A, error: string)

  datatype State<A> = State(cache: Option<Observation<A>>, expiresAt: real)

  /** One call: the clock before and after a refresh, the time to live, and what a refresh would observe
      now. An empty error stands for none. */
  datatype Call<A> = Call(now: real, later: real, ttl: real, observed: Observation<A>)

  const FALLBACK_ERROR := "TrueNAS refresh failed; serving last known good snapshot"

  predicate Refreshes<A>(s: State<A>, call: Call<A>) {
    s.cache.None? || call.now >= s.expiresAt
  }

  function Stale<A>(previous: Observation<A>, observed: Observation<A>): Observation<A> {
    previous.(stale := true, error := if observed.error != "" then observed.error else FALLBACK_ERROR)
  }

  function Next<A>(s: State<A>, call: Call<A>): State<A> {
    if !Refreshes(s, call) then s
    else
      State(Some(if call.observed.reachable || s.cache.None? || !s.cache.value.reachable then call.observed
                 else Stale(s.cache.value, call.observed)),
            call.later + call.ttl)
  }

  class Cache<A> {
    var cache: Option<Observation<A>>
    var expiresAt: real

    constructor ()
      ensures cache == None
    {
      cache, expiresAt := None, 0.0;
    }

    method CachedRuntime(call: Call<A>) returns (snapshot: Observation<A>)
      modifies this
      ensures State(cache, expiresAt) == Next(old(State(cache, expiresAt)), call)
      ensures cache == Some(snapshot)
    {
      if cache.Some? && call.now < expiresAt {
        return cache.value;
      }
      var previous, refreshed := cache, call.observed;
      expiresAt := call.later + call.ttl;
      if refreshed.reachable || previous.None? || !previous.value.reachable {
        cache := Some(refreshed);
        return refreshed;
      }
      snapshot := Stale(previous.value, refreshed);
      cache := Some(snapshot);
    }
  }

  // ---------------------------------------------------------------- runs of calls

  ghost predicate StepAt<A>(states: seq<State<A>>, calls: seq<Call<A>>, i: nat)
    requires |states| == |calls| + 1 && i < |calls|
  {
    states[i + 1] == Next(states[i], calls[i])
  }

  ghost predicate Run<A>(states: seq<State<A>>, calls: seq<Call<A>>) {
    && |states| == |calls| + 1 && states[0].cache == None
    && forall i :: 0 <= i < |calls| ==> StepAt(states, calls, i)
  }

  /** Call `i` refreshed and could reach TrueNAS. */
  predicate Reached<A>(states: seq<State<A>>, calls: seq<Call<A>>, i: nat)
    requires |states| == |calls| + 1 && i < |calls|
  {
    Refreshes(states[i], calls[i]) && calls[i].observed.reachable
  }

  /** Call `g` is the last up to call `n` that reached TrueNAS. */
  ghost predicate LastReached<A>(states: seq<State<A>>, calls: seq<Call<A>>, g: nat, n: nat)
    requires |states| == |calls| + 1 && n < |calls|
  {
    && g <= n && Reached(states, calls, g)
    && forall i :: g < i <= n ==> !Reached(states, calls, i)
  }

  /** Some refresh after call `g` and up to call `n` was made, in vain. */
  ghost predicate FailedSince<A>(states: seq<State<A>>, calls: seq<Call<A>>, g: nat, n: nat)
    requires |states| == |calls| + 1 && n < |calls|
  {
    exists i :: g < i <= n && Refreshes(states[i], calls[i])
  }

  /** Call `r` is the last before call `n` that refreshed. */
  ghost predicate LastRefresh<A>(states: seq<State<A>>, calls: seq<Call<A>>, r: nat, n: nat)
    requires |states| == |calls| + 1 && n <= |calls|
  {
    && r < n && Refreshes(states[r], calls[r])
    && forall i :: r < i < n ==> !Refreshes(states[i], calls[i])
  }

  /** A call refreshes exactly if none did before it, or the time to live has passed since the end of the last
      refresh; every other call returns what is there. */
  lemma {:induction false} RefreshesAfterTtl<A>(states: seq<State<A>>, calls: seq<Call<A>>, n: nat)
    returns (last: Option<nat>)
    requires Run(states, calls) && n < |calls|
    ensures last.None? <==> n == 0
    ensures last.Some? ==> LastRefresh(states, calls, last.value, n)
    ensures last.Some? ==> states[n].expiresAt == calls[last.value].later + calls[last.value].ttl
    ensures states[n].cache.Some? <==> n > 0
    ensures Refreshes(states[n], calls[n]) <==>
              last.None? || calls[n].now >= calls[last.value].later + calls[last.value].ttl
    ensures !Refreshes(states[n], calls[n]) ==> states[n + 1] == states[n]
  {
    assert StepAt(states, calls, n);
    if n == 0 {
      last := None;
    } else {
      last := RefreshesAfterTtl(states, calls, n - 1);
      assert StepAt(states, calls, n - 1);
      if Refreshes(states[n - 1], calls[n - 1]) {
        last := Some(n - 1);
      }
    }
  }

  /** The error of what is served although a refresh failed: that of the last failure, or a fixed text. */
  lemma {:induction false} ErrorOfLastFailure<A>(states: seq<State<A>>, calls: seq<Call<A>>, g: nat, r: nat, n: nat)
    requires Run(states, calls) && n < |calls| && LastReached(states, calls, g, n)
    requires g < r <= n && LastRefresh(states, calls, r, n + 1)
    ensures states[n + 1].cache.Some?
    ensures states[n + 1].cache.value.error == if calls[r].observed.error != "" then calls[r].observed.error
                                               else "TrueNAS refresh failed; serving last known good snapshot"
  {
    assert StepAt(states, calls, n);
    assert !Reached(states, calls, n);
    assert LastReached(states, calls, g, n - 1);
    LastKnownGoodServed(states, calls, g, n - 1);
    if r < n {
      ErrorOfLastFailure(states, calls, g, r, n - 1);
    }
  }

  /** Once TrueNAS was reached, every call returns a reachable snapshot with the apps of the last
      observation that reached it, marked as stale as soon as a later refresh failed. */
  lemma {:induction false} LastKnownGoodServed<A>(states: seq<State<A>>, calls: seq<Call<A>>, g: nat, n: nat)
    requires Run(states, calls) && n < |calls| && LastReached(states, calls, g, n)
    ensures states[n + 1].cache.Some?
    ensures var snapshot := states[n + 1].cache.value;
            && snapshot.reachable && snapshot.apps == calls[g].observed.apps
            && (snapshot.stale <==> calls[g].observed.stale || FailedSince(states, calls, g, n))
  {
    assert StepAt(states, calls, n);
    if g < n {
      assert !Reached(states, calls, n);
      assert LastReached(states, calls, g, n - 1);
      LastKnownGoodServed(states, calls, g, n - 1);
      FailedSinceNext(states, calls, g, n);
    }
  }

  lemma FailedSinceNext<A>(states: seq<State<A>>, calls: seq<Call<A>>, g: nat, n: nat)
    requires |states| == |calls| + 1 && g < n < |calls|
    ensures FailedSince(states, calls, g, n) <==> FailedSince(states, calls, g, n - 1) || Refreshes(states[n], calls[n])
  {
    if FailedSince(states, calls, g, n) {
      var i :| g < i <= n && Refreshes(states[i], calls[i]);
      assert i < n ==> FailedSince(states, calls, g, n - 1);
    }
  }

  /** Before TrueNAS was ever reached, a call returns what the last refresh observed, which is not reachable. */
  lemma {:induction false} UnreachableUntilReached<A>(states: seq<State<A>>, calls: seq<Call<A>>, n: nat)
    requires Run(states, calls) && n < |calls| && forall i :: 0 <= i <= n ==> !Reached(states, calls, i)
    ensures states[n + 1].cache.Some? && !states[n + 1].cache.value.reachable
    ensures exists r: nat :: LastRefresh(states, calls, r, n + 1) && states[n + 1].cache.value == calls[r].observed
  {
    assert StepAt(states, calls, n);
    assert !Reached(states, calls, n);
    if n > 0 {
      UnreachableUntilReached(states, calls, n - 1);
    }
    if Refreshes(states[n], calls[n]) {
      assert LastRefresh(states, calls, n, n + 1);
    } else {
      var r: nat :| LastRefresh(states, calls, r, n) && states[n].cache.value == calls[r].observed;
      assert LastRefresh(states, calls, r, n + 1);
    }
  }
}
