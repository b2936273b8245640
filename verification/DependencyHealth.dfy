/** Propagation of confirmed failures along required dependencies
    (nabla/api/homelab_dependency_health.py, the rounds of propagate_required_dependency_health). */
module DependencyHealth {
  import opened DependencyGraph
  import opened Iteration
  import opened Wrappers

  datatype HealthState = Ok | Warn | Fail | Unknown

  /** What one indexed row contributes: its own state, and whether its evidence is stale. */
  datatype Observation = Observation(local: HealthState, stale: bool)

  type Index<Id> = map<Id, Observation>            // the rows by id
  type States<Id> = map<Id, HealthState>

  predicate Impaired(state: HealthState) {
    state == Fail || state == Warn
  }

  function DependencyState(states: seq<HealthState>): Option<HealthState> {
    if states == [] then None
    else if Fail in states then Some(Fail)
    else if Warn in states then Some(Warn)
    else if Unknown in states then Some(Unknown)
    else Some(Ok)
  }

  function EffectiveState(local: HealthState, dependency: Option<HealthState>): HealthState {
    if local == Fail then Fail
    else if dependency == Some(Fail) || dependency == Some(Warn) then Warn
    else local
  }

  function TargetsOf<Id>(required: Required<Id>, id: Id): seq<Id> {
    if id in required then required[id] else []
  }

  function TargetState<Id>(target: Id, states: States<Id>, index: Index<Id>): HealthState {
    if target !in index || index[target].stale then Unknown
    else if target in states then states[target]
    else Unknown
  }

  function TargetStates<Id>(targets: seq<Id>, states: States<Id>, index: Index<Id>): seq<HealthState> {
    seq(|targets|, i requires 0 <= i < |targets| => TargetState(targets[i], states, index))
  }

  function Resolve<Id>(id: Id, index: Index<Id>, required: Required<Id>, states: States<Id>): HealthState
    requires id in index
  {
    EffectiveState(index[id].local, DependencyState(TargetStates(TargetsOf(required, id), states, index)))
  }

  function LocalStates<Id>(index: Index<Id>): States<Id> {
    map id | id in index :: index[id].local
  }

  /** One round: every row is resolved against the states of the round before. */
  function Round<Id>(index: Index<Id>, required: Required<Id>, states: States<Id>): States<Id> {
    map id | id in index :: Resolve(id, index, required, states)
  }

  function RoundStep<Id>(index: Index<Id>, required: Required<Id>): States<Id> -> States<Id> {
    states => Round(index, required, states)
  }

  ghost function Rounds<Id>(index: Index<Id>, required: Required<Id>, n: nat): States<Id> {
    Iterate(RoundStep(index, required), LocalStates(index), n)
  }

  /** The propagation of the source, round by round, with its bound of one round more than rows. */
  method Propagate<Id(!new)>(index: Index<Id>, required: Required<Id>) returns (states: States<Id>)
    ensures states == Rounds(index, required, |index|)
    ensures states == RoundStep(index, required)(states)
  {
    ghost var step, start := RoundStep(index, required), LocalStates(index);
    states := LocalStates(index);
    var round := 0;
    var changed := true;
    while round < |index| + 1 && changed
      invariant round <= |index| + 1
      invariant states.Keys == index.Keys
      invariant states == Iterate(step, start, round)
      invariant !changed ==> round > 0 && Iterate(step, start, round - 1) == states
    {
      var next, differs := NextStates(index, required, states);
      IterateOnce(step, start, round, states, next);
      states, changed := next, differs;
      round := round + 1;
    }
    RoundsSettle(index, required);
    StopsAtFixpoint(step, start, |index|, round, states, changed);
  }

  method NextStates<Id(!new)>(index: Index<Id>, required: Required<Id>, states: States<Id>)
    returns (next: States<Id>, changed: bool)
    requires states.Keys == index.Keys
    ensures next == RoundStep(index, required)(states)
    ensures next.Keys == index.Keys
    ensures !changed <==> next == states
  {
    next := states;
    changed := false;
    var left := index.Keys;
    while left != {}
      invariant left <= index.Keys && next.Keys == index.Keys
      invariant forall id :: id in left ==> next[id] == states[id]
      invariant forall id :: id in index && id !in left ==> next[id] == Resolve(id, index, required, states)
      invariant !changed <==> next == states
    {
      var id :| id in left;
      left := left - {id};
      var resolved := Resolve(id, index, required, states);
      if resolved != states[id] {
        next := next[id := resolved];
        changed := true;
      }
    }
  }

  // ---------------------------------------------------------------- impairment within n relations

  /** A target counts only if its row is present and its evidence is not stale. */
  predicate Live<Id>(index: Index<Id>, target: Id) {
    target in index && !index[target].stale
  }

  /** An impaired row is reached from `id` over at most `n` required relations with live targets. */
  ghost predicate ImpairedWithin<Id(!new)>(index: Index<Id>, required: Required<Id>, id: Id, n: nat)
    requires id in index
  {
    || Impaired(index[id].local)
    || (n > 0 &&
        exists t :: t in TargetsOf(required, id) && Live(index, t) && ImpairedWithin(index, required, t, n - 1))
  }

  /** The state of a row is settled by its own state and by whether it is impaired. */
  function StateFrom(local: HealthState, impaired: bool): HealthState {
    if local != Fail && impaired then Warn else local
  }

  ghost predicate ImpairedTarget<Id(!new)>(targets: seq<Id>, index: Index<Id>, states: States<Id>)
    requires states.Keys == index.Keys
  {
    exists t :: t in targets && Live(index, t) && Impaired(states[t])
  }

  /** Dependencies degrade exactly when some live target is impaired. */
  lemma DependencyImpaired<Id(!new)>(targets: seq<Id>, index: Index<Id>, states: States<Id>, local: HealthState)
    requires states.Keys == index.Keys
    ensures EffectiveState(local, DependencyState(TargetStates(targets, states, index))) ==
            StateFrom(local, Impaired(local) || ImpairedTarget(targets, index, states))
  {
    var seen := TargetStates(targets, states, index);
    if t :| t in targets && Live(index, t) && Impaired(states[t]) {
      var i :| 0 <= i < |targets| && targets[i] == t;
      assert seen[i] == states[t] && seen[i] in seen;
    }
    if s :| s in seen && Impaired(s) {
      var i :| 0 <= i < |seen| && seen[i] == s;
      assert targets[i] in targets && Live(index, targets[i]) && states[targets[i]] == s;
    }
  }

  lemma ResolveByImpairment<Id(!new)>(id: Id, index: Index<Id>, required: Required<Id>, states: States<Id>)
    requires id in index && states.Keys == index.Keys
    ensures Resolve(id, index, required, states) == StateFrom(index[id].local,
              Impaired(index[id].local) || ImpairedTarget(TargetsOf(required, id), index, states))
  {
    DependencyImpaired(TargetsOf(required, id), index, states, index[id].local);
  }

  lemma {:induction false} RoundsByImpairment<Id(!new)>(index: Index<Id>, required: Required<Id>, n: nat, id: Id)
    requires id in index
    ensures Rounds(index, required, n).Keys == index.Keys
    ensures Rounds(index, required, n)[id] == StateFrom(index[id].local, ImpairedWithin(index, required, id, n))
  {
    if n > 0 {
      var before := Rounds(index, required, n - 1);
      forall t | t in index
        ensures before.Keys == index.Keys
        ensures before[t] == StateFrom(index[t].local, ImpairedWithin(index, required, t, n - 1))
      {
        RoundsByImpairment(index, required, n - 1, t);
      }
      RoundsByImpairment(index, required, n - 1, id);
      ResolveByImpairment(id, index, required, before);
    }
  }

  // ---------------------------------------------------------------- the round bound

  ghost function ImpairedSet<Id(!new)>(index: Index<Id>, required: Required<Id>, n: nat): set<Id> {
    set id | id in index && ImpairedWithin(index, required, id, n)
  }

  lemma {:induction false} ImpairedSetGrows<Id(!new)>(index: Index<Id>, required: Required<Id>, n: nat, id: Id)
    requires id in index && ImpairedWithin(index, required, id, n)
    ensures ImpairedWithin(index, required, id, n + 1)
  {
    if !Impaired(index[id].local) {
      var t :| t in TargetsOf(required, id) && Live(index, t) && ImpairedWithin(index, required, t, n - 1);
      ImpairedSetGrows(index, required, n - 1, t);
    }
  }

  lemma SetsEqualNext<Id(!new)>(index: Index<Id>, required: Required<Id>, m: nat, n: nat)
    requires ImpairedSet(index, required, m) == ImpairedSet(index, required, n)
    ensures ImpairedSet(index, required, m + 1) == ImpairedSet(index, required, n + 1)
  {
    forall t | t in index ensures ImpairedWithin(index, required, t, m) <==> ImpairedWithin(index, required, t, n) {
      assert t in ImpairedSet(index, required, m) <==> t in ImpairedSet(index, required, n);
    }
  }

  /** Until it stops growing, the impaired set gains a row every round. */
  lemma {:induction false} GrowsOrStops<Id(!new)>(index: Index<Id>, required: Required<Id>, n: nat)
    ensures ImpairedSet(index, required, n) <= ImpairedSet(index, required, n + 1)
    ensures || ImpairedSet(index, required, n) == ImpairedSet(index, required, n + 1)
            || |ImpairedSet(index, required, n + 1)| > n
  {
    var now, next := ImpairedSet(index, required, n), ImpairedSet(index, required, n + 1);
    forall id | id in now ensures id in next {
      ImpairedSetGrows(index, required, n, id);
    }
    if now != next {
      if n > 0 {
        GrowsOrStops(index, required, n - 1);
        if ImpairedSet(index, required, n - 1) == now {
          SetsEqualNext(index, required, n - 1, n);
        }
      }
      assert now < next;
      ProperSubsetIsSmaller(now, next);
    }
  }

  lemma ProperSubsetIsSmaller<T>(small: set<T>, large: set<T>)
    requires small < large
    ensures |small| < |large|
  {
    assert large == small + (large - small);
  }

  /** After as many rounds as there are rows nothing changes any more. */
  lemma RoundsSettle<Id(!new)>(index: Index<Id>, required: Required<Id>)
    ensures ImpairedSet(index, required, |index|) == ImpairedSet(index, required, |index| + 1)
    ensures Rounds(index, required, |index| + 1) == Rounds(index, required, |index|)
  {
    var n := |index|;
    GrowsOrStops(index, required, n);
    SubsetCardinality(ImpairedSet(index, required, n + 1), index.Keys);
    var now, next := Rounds(index, required, n), Rounds(index, required, n + 1);
    forall id | id in index ensures now.Keys == index.Keys && now[id] == next[id] {
      RoundsByImpairment(index, required, n, id);
      RoundsByImpairment(index, required, n + 1, id);
      assert id in ImpairedSet(index, required, n) <==> id in ImpairedSet(index, required, n + 1);
    }
  }

  // ---------------------------------------------------------------- meaning by paths

  /** The graph along which a failure travels: required relations whose targets are live. */
  ghost function LiveGraph<Id(!new)>(index: Index<Id>, required: Required<Id>): Graph<Id> {
    map id | id in index :: set t | t in TargetsOf(required, id) && Live(index, t)
  }

  ghost predicate LocallyImpaired<Id>(index: Index<Id>, id: Id) {
    id in index && Impaired(index[id].local)
  }

  /** Some path of required relations with live targets leads to a row that is itself impaired. */
  ghost predicate ReachesImpaired<Id(!new)>(index: Index<Id>, required: Required<Id>, id: Id) {
    exists origin :: LocallyImpaired(index, origin) && Reaches(LiveGraph(index, required), id, origin)
  }

  lemma {:induction false} PathOfImpairment<Id(!new)>(index: Index<Id>, required: Required<Id>, id: Id, n: nat)
    requires id in index && ImpairedWithin(index, required, id, n)
    ensures ReachesImpaired(index, required, id)
  {
    var graph := LiveGraph(index, required);
    if Impaired(index[id].local) {
      ReachesSelf(graph, id);
      assert LocallyImpaired(index, id);
    } else {
      var t :| t in TargetsOf(required, id) && Live(index, t) && ImpairedWithin(index, required, t, n - 1);
      PathOfImpairment(index, required, t, n - 1);
      var origin :| LocallyImpaired(index, origin) && Reaches(graph, t, origin);
      assert t in Successors(graph, id);
      ReachesEdge(graph, id, t);
      ReachesTransitive(graph, id, t, origin);
    }
  }

  lemma {:induction false} ImpairmentOfPath<Id(!new)>(index: Index<Id>, required: Required<Id>, walk: seq<Id>)
    requires Walk(LiveGraph(index, required), walk) && walk[0] in index && LocallyImpaired(index, walk[|walk| - 1])
    ensures ImpairedWithin(index, required, walk[0], |walk| - 1)
  {
    if |walk| > 1 {
      assert walk[0 + 1] in Successors(LiveGraph(index, required), walk[0]);
      var rest := walk[1..];
      assert Walk(LiveGraph(index, required), rest);
      ImpairmentOfPath(index, required, rest);
      assert walk[1] in TargetsOf(required, walk[0]) && Live(index, walk[1]);
    }
  }

  /** However long the path, as many relations as there are rows suffice. */
  lemma {:induction false} BoundSuffices<Id(!new)>(index: Index<Id>, required: Required<Id>, id: Id, n: nat)
    requires id in index && ImpairedWithin(index, required, id, n)
    ensures ImpairedWithin(index, required, id, |index|)
    decreases |index| - n
  {
    if n < |index| {
      ImpairedSetGrows(index, required, n, id);
      BoundSuffices(index, required, id, n + 1);
    } else {
      StoppedSets(index, required, n);
      assert id in ImpairedSet(index, required, n);
    }
  }

  lemma {:induction false} StoppedSets<Id(!new)>(index: Index<Id>, required: Required<Id>, n: nat)
    requires n >= |index|
    ensures ImpairedSet(index, required, n) == ImpairedSet(index, required, |index|)
  {
    if n > |index| {
      StoppedSets(index, required, n - 1);
      SetsEqualNext(index, required, n - 1, |index|);
      RoundsSettle(index, required);
    }
  }

  /** The outcome of the propagation, for every finite graph, cyclic or not: a row fails exactly when
      it fails itself; a row that does not fail is degraded exactly when a live path leads from it to
      a failed or degraded row; every other row keeps its own state. */
  lemma SettledMeaning<Id(!new)>(index: Index<Id>, required: Required<Id>, id: Id)
    requires id in index
    ensures id in Rounds(index, required, |index|)
    ensures var state := Rounds(index, required, |index|)[id];
            && (state == Fail <==> index[id].local == Fail)
            && (state == Warn <==> index[id].local != Fail && ReachesImpaired(index, required, id))
            && (!ReachesImpaired(index, required, id) ==> state == index[id].local)
  {
    RoundsByImpairment(index, required, |index|, id);
    if ImpairedWithin(index, required, id, |index|) {
      PathOfImpairment(index, required, id, |index|);
    }
    if ReachesImpaired(index, required, id) {
      var origin :| LocallyImpaired(index, origin) && Reaches(LiveGraph(index, required), id, origin);
      var walk :| WalkFromTo(LiveGraph(index, required), walk, id, origin);
      ImpairmentOfPath(index, required, walk);
      BoundSuffices(index, required, id, |walk| - 1);
    }
  }

  /** Among all assignments that a round leaves alone, the outcome is the least: any other one
      agrees with it or degrades the row. */
  lemma SettledIsLeast<Id(!new)>(index: Index<Id>, required: Required<Id>, other: States<Id>, id: Id)
    requires Round(index, required, other) == other && id in index
    ensures id in Rounds(index, required, |index|)
    ensures other[id] == Rounds(index, required, |index|)[id] || other[id] == Warn
  {
    RoundsByImpairment(index, required, |index|, id);
    ResolveByImpairment(id, index, required, other);
    assert other[id] == Resolve(id, index, required, other);
    if ImpairedWithin(index, required, id, |index|) {
      FixpointIsImpaired(index, required, other, id, |index|);
    }
  }

  lemma {:induction false} FixpointIsImpaired<Id(!new)>(index: Index<Id>, required: Required<Id>, other: States<Id>,
                                                        id: Id, n: nat)
    requires Round(index, required, other) == other
    requires id in index && ImpairedWithin(index, required, id, n)
    ensures Impaired(other[id])
  {
    assert other[id] == Resolve(id, index, required, other);
    ResolveByImpairment(id, index, required, other);
    if !Impaired(index[id].local) {
      var t :| t in TargetsOf(required, id) && Live(index, t) && ImpairedWithin(index, required, t, n - 1);
      FixpointIsImpaired(index, required, other, t, n - 1);
    }
  }
}
