/** The published rows of the dependency-health report
    (nabla/api/homelab_dependency_health.py, propagate_required_dependency_health). */
module DependencyRows {
  import opened DependencyGraph
  import opened DependencyHealth
  import opened Lists
  import opened Sorting
  import opened Wrappers

  datatype RelationType =
    | DependsOn | ConsumesApi | ProvidesApi | PartOf | HostedBy | RoutesTo
    | ObservedBy | StoresIn | AuthenticatesVia | ExposedBy | Automates

  datatype Relation<Id> = Relation(source: Id, target: Id, kind: RelationType, required: bool)

  /** A row's id: a nonempty string, another true value known by its rendering, or nothing usable. */
  datatype RowId<Id> = Text(id: Id) | Rendered(id: Id) | Absent

  datatype Row<Id> = Row(id: RowId<Id>, state: HealthState, observationStale: bool, runtimeStale: bool)

  datatype Evidence<Id> = Evidence(target: Id, targetState: HealthState, targetEffectiveState: HealthState)

  datatype PublishedRow<Id> = PublishedRow(
    id: RowId<Id>,
    state: HealthState,
    localState: HealthState,
    dependencyState: Option<HealthState>,
    effectiveState: HealthState,
    requiredDependencies: seq<Id>,
    blockedBy: seq<Id>,
    degradedBy: seq<Id>,
    unconfirmedDependencies: seq<Id>,
    dependencyCycle: seq<Id>,
    dependencyEvidence: seq<Evidence<Id>>)

  // ---------------------------------------------------------------- required relations and index

  predicate BearsHealth(kind: RelationType) {
    kind in {DependsOn, ConsumesApi, RoutesTo, StoresIn, AuthenticatesVia, ExposedBy}
  }

  /** The targets of the required, health-bearing relations that leave `source`, in order. */
  function RequiredTargets<Id(==)>(relations: seq<Relation<Id>>, source: Id): seq<Id> {
    if relations == [] then []
    else
      var rest, last := relations[..|relations| - 1], relations[|relations| - 1];
      RequiredTargets(rest, source) +
      if last.required && BearsHealth(last.kind) && last.source == source then [last.target] else []
  }

  /** `required` groups exactly the required, health-bearing relations by source. */
  ghost predicate Groups<Id(!new)>(required: Required<Id>, relations: seq<Relation<Id>>) {
    forall source :: TargetsOf(required, source) == RequiredTargets(relations, source)
  }

  function RequiredOf<Id(==)>(relations: seq<Relation<Id>>): Required<Id> {
    if relations == [] then map[]
    else
      var rest, last := RequiredOf(relations[..|relations| - 1]), relations[|relations| - 1];
      if last.required && BearsHealth(last.kind)
      then rest[last.source := TargetsOf(rest, last.source) + [last.target]]
      else rest
  }

  lemma {:induction false} RequiredOfGroups<Id(!new)>(relations: seq<Relation<Id>>)
    ensures Groups(RequiredOf(relations), relations)
    ensures forall source :: source in RequiredOf(relations) ==> RequiredOf(relations)[source] != []
  {
    if relations != [] {
      RequiredOfGroups(relations[..|relations| - 1]);
    }
  }

  /** All that the other kinds of relation say is where things are and who watches or drives them. */
  function NeededBy<Id(==)>(source: Id): Relation<Id> -> bool {
    (r: Relation<Id>) =>
      && r.source == source && r.required
      && r.kind !in {ProvidesApi, PartOf, HostedBy, ObservedBy, Automates}
  }

  function TargetsIn<Id>(relations: seq<Relation<Id>>): seq<Id> {
    seq(|relations|, i requires 0 <= i < |relations| => relations[i].target)
  }

  /** The relations that count, in their order: all but the optional ones and those of five kinds. */
  lemma {:induction false} RequiredTargetsMeaning<Id>(relations: seq<Relation<Id>>, source: Id)
    ensures RequiredTargets(relations, source) == TargetsIn(Filter(relations, NeededBy(source)))
  {
    hide Filter, NeededBy, BearsHealth, TargetsIn;
    NothingIn<Id>(source);
    if relations != [] {
      var rest, last := relations[..|relations| - 1], relations[|relations| - 1];
      RequiredTargetsMeaning(rest, source);
      assert relations == rest + [last];
      LastCounts(last, source);
      FilterAppend(rest, [last], NeededBy(source));
      FilterSingle(last, NeededBy(source));
      TargetsJoin(Filter(rest, NeededBy(source)), Filter([last], NeededBy(source)));
    }
  }

  lemma NothingIn<Id>(source: Id)
    ensures TargetsIn(Filter([], NeededBy(source))) == []
  {
  }

  lemma LastCounts<Id>(last: Relation<Id>, source: Id)
    ensures NeededBy(source)(last) <==> last.required && BearsHealth(last.kind) && last.source == source
  {
    var needed := NeededBy(source);
    assert needed(last) <==>
           last.source == source && last.required &&
           last.kind !in {ProvidesApi, PartOf, HostedBy, ObservedBy, Automates};
    EachKind(last.kind);
  }

  lemma EachKind(kind: RelationType)
    ensures BearsHealth(kind) <==> kind !in {ProvidesApi, PartOf, HostedBy, ObservedBy, Automates}
  {
    match kind
    case DependsOn =>
    case ConsumesApi =>
    case ProvidesApi =>
    case PartOf =>
    case HostedBy =>
    case RoutesTo =>
    case ObservedBy =>
    case StoresIn =>
    case AuthenticatesVia =>
    case ExposedBy =>
    case Automates =>
  }

  lemma TargetsJoin<Id>(a: seq<Relation<Id>>, b: seq<Relation<Id>>)
    ensures TargetsIn(a + b) == TargetsIn(a) + TargetsIn(b)
    ensures |b| == 1 ==> TargetsIn(b) == [b[0].target]
    ensures |b| == 0 ==> TargetsIn(b) == []
  {
  }

  method RequiredRelations<Id(==)>(relations: seq<Relation<Id>>) returns (required: Required<Id>)
    ensures required == RequiredOf(relations)
  {
    required := map[];
    for i := 0 to |relations|
      invariant required == RequiredOf(relations[..i])
    {
      var relation := relations[i];
      assert relations[..i + 1][..i] == relations[..i];
      if relation.required && BearsHealth(relation.kind) {
        required := required[relation.source := TargetsOf(required, relation.source) + [relation.target]];
      }
    }
    assert relations[..|relations|] == relations;
  }

  /** The rows by id: the last row of an id wins, and only nonempty string ids are indexed. */
  function IndexRows<Id(==)>(rows: seq<Row<Id>>): Index<Id> {
    if rows == [] then map[]
    else
      var rest, last := IndexRows(rows[..|rows| - 1]), rows[|rows| - 1];
      match last.id
      case Text(id) => rest[id := Observation(last.state, last.observationStale || last.runtimeStale)]
      case _ => rest
  }

  /** No row after `i` has the id. */
  ghost predicate LastOfId<Id(!new)>(rows: seq<Row<Id>>, id: Id, i: nat) {
    i < |rows| && rows[i].id == Text(id) && forall j :: i < j < |rows| ==> rows[j].id != Text(id)
  }

  /** An id is indexed exactly if some row has it as its text; what is indexed is the state of the last such row,
      and whether its observation or its runtime is stale. */
  lemma {:induction false} IndexMeaning<Id(!new)>(rows: seq<Row<Id>>, id: Id)
    ensures id in IndexRows(rows) <==> exists i: nat :: LastOfId(rows, id, i)
    ensures forall i: nat :: LastOfId(rows, id, i) ==>
              && id in IndexRows(rows) && IndexRows(rows)[id].local == rows[i].state
              && (IndexRows(rows)[id].stale <==> rows[i].observationStale || rows[i].runtimeStale)
  {
    if rows != [] {
      var n := |rows| - 1;
      IndexMeaning(rows[..n], id);
      if rows[n].id == Text(id) {
        assert LastOfId(rows, id, n);
      } else {
        forall i: nat ensures LastOfId(rows, id, i) <==> LastOfId(rows[..n], id, i) {
          if LastOfId(rows, id, i) {
            assert i < n;
          }
        }
      }
    }
  }

  // ---------------------------------------------------------------- publishing

  function KeyOf<Id>(id: RowId<Id>): Option<Id> {
    match id
    case Text(key) => Some(key)
    case Rendered(key) => Some(key)
    case Absent => None
  }

  function RelationsOf<Id>(id: RowId<Id>, required: Required<Id>): seq<Id> {
    match KeyOf(id)
    case None => []
    case Some(key) => TargetsOf(required, key)
  }

  function StateOr<Id>(key: Id, states: States<Id>, default: HealthState): HealthState {
    if key in states then states[key] else default
  }

  function TargetsInState<Id>(targets: seq<Id>, states: seq<HealthState>, wanted: HealthState): seq<Id>
    requires |states| == |targets|
  {
    if targets == [] then []
    else (if states[0] == wanted then [targets[0]] else []) + TargetsInState(targets[1..], states[1..], wanted)
  }

  function PublishRow<Id>(row: Row<Id>, index: Index<Id>, required: Required<Id>, settled: States<Id>,
                          cycle: seq<Id>): PublishedRow<Id>
  {
    var targets := RelationsOf(row.id, required);
    var states := TargetStates(targets, settled, index);
    var dependency := DependencyState(states);
    var fallback := EffectiveState(row.state, dependency);
    var effective := match KeyOf(row.id) case None => fallback case Some(key) => StateOr(key, settled, fallback);
    PublishedRow(
      row.id, effective, row.state, dependency, effective, targets,
      TargetsInState(targets, states, Fail), TargetsInState(targets, states, Warn),
      TargetsInState(targets, states, Unknown), cycle,
      seq(|targets|, i requires 0 <= i < |targets| =>
        Evidence(targets[i], states[i], StateOr(targets[i], settled, Unknown))))
  }

  /** The cycle a row reports: its component, sorted, if its node is on a cycle, else nothing. */
  ghost predicate ReportsCycle<Id(!new)>(cycle: seq<Id>, id: RowId<Id>, required: Required<Id>, le: Order<Id>) {
    match KeyOf(id)
    case None => cycle == []
    case Some(key) => if HasPartner(required, key) then ListsComponent(cycle, required, key, le) else cycle == []
  }

  ghost predicate Blocking<Id(!new)>(index: Index<Id>, t: Id) {
    Live(index, t) && index[t].local == Fail
  }

  ghost predicate Degrading<Id(!new)>(index: Index<Id>, required: Required<Id>, t: Id) {
    Live(index, t) && index[t].local != Fail && ReachesImpaired(index, required, t)
  }

  ghost predicate Unconfirmed<Id(!new)>(index: Index<Id>, required: Required<Id>, t: Id) {
    !Live(index, t) || (index[t].local == Unknown && !ReachesImpaired(index, required, t))
  }

  /** What becomes of a row that is indexed: a failure stays one, a path to an impaired row degrades. */
  ghost predicate SettlesAs<Id(!new)>(state: HealthState, index: Index<Id>, required: Required<Id>, key: Id)
    requires key in index
  {
    state == if index[key].local == Fail then Fail
             else if ReachesImpaired(index, required, key) then Warn
             else index[key].local
  }

  /** The published state: that of the indexed row of its id, else that of the row and its dependencies. */
  ghost predicate StateMeaning<Id(!new)>(state: HealthState, row: Row<Id>, index: Index<Id>, required: Required<Id>) {
    if row.id.Absent? then state == row.state
    else if row.id.id in index then SettlesAs(state, index, required, row.id.id)
    else state == if row.state != Fail && DependencyDegrades(index, required, row.id.id) then Warn else row.state
  }

  /** The state of the dependencies is the worst one that is blamed on any of them. */
  ghost predicate DependencyMeaning<Id(!new)>(p: PublishedRow<Id>) {
    && (p.dependencyState == None <==> p.requiredDependencies == [])
    && (p.dependencyState == Some(Fail) <==> p.blockedBy != [])
    && (p.dependencyState == Some(Warn) <==> p.blockedBy == [] && p.degradedBy != [])
    && (p.dependencyState == Some(Unknown) <==>
          p.blockedBy == [] && p.degradedBy == [] && p.unconfirmedDependencies != [])
  }

  ghost predicate ShowsTarget<Id(!new)>(e: Evidence<Id>, target: Id, index: Index<Id>, required: Required<Id>) {
    && e.target == target
    && (if target in index then SettlesAs(e.targetEffectiveState, index, required, target)
        else e.targetEffectiveState == Unknown)
    && e.targetState == if Live(index, target) then e.targetEffectiveState else Unknown
  }

  /** Field by field what is published of a row, in terms of the input rows and relations alone. */
  ghost predicate Publishes<Id(!new)>(p: PublishedRow<Id>, row: Row<Id>, index: Index<Id>, required: Required<Id>,
                                      needed: seq<Id>)
  {
    && p.id == row.id && p.localState == row.state && p.state == p.effectiveState
    && StateMeaning(p.state, row, index, required)
    && p.requiredDependencies == needed
    && p.blockedBy == Filter(needed, (t: Id) => Blocking(index, t))
    && p.degradedBy == Filter(needed, (t: Id) => Degrading(index, required, t))
    && p.unconfirmedDependencies == Filter(needed, (t: Id) => Unconfirmed(index, required, t))
    && DependencyMeaning(p)
    && |p.dependencyEvidence| == |needed|
    && forall i :: 0 <= i < |needed| ==> ShowsTarget(p.dependencyEvidence[i], needed[i], index, required)
  }

  /** The dependencies of a row: those of its id, if it has one. */
  function NeededOf<Id(==)>(row: Row<Id>, relations: seq<Relation<Id>>): seq<Id> {
    if row.id.Absent? then [] else RequiredTargets(relations, row.id.id)
  }

  /** The row is published against the settled states, and reports its cycle. */
  ghost predicate PublishedFrom<Id(!new)>(published: PublishedRow<Id>, row: Row<Id>, index: Index<Id>,
                                          required: Required<Id>, settled: States<Id>, le: Order<Id>)
  {
    && published == PublishRow(row, index, required, settled, published.dependencyCycle)
    && ReportsCycle(published.dependencyCycle, row.id, required, le)
  }

  method PropagateRequiredDependencyHealth<Id(==,!new)>(rows: seq<Row<Id>>, relations: seq<Relation<Id>>, le: Order<Id>)
    returns (result: seq<PublishedRow<Id>>)
    requires TotalOrder(le)
    ensures |result| == |rows|
    ensures var index, required := IndexRows(rows), RequiredOf(relations);
            forall i :: 0 <= i < |rows| ==>
              && PublishedFrom(result[i], rows[i], index, required, Rounds(index, required, |index|), le)
              && Publishes(result[i], rows[i], index, required, NeededOf(rows[i], relations))
  {
    hide IndexRows, RequiredOf, PublishedFrom, Publishes, Rounds;
    var index := IndexRows(rows);
    var required := RequiredRelations(relations);
    var cycles := RequiredDependencyCycles(required, le);
    var states := Propagate(index, required);
    result := PublishRows(rows, index, required, states, cycles, le);
    forall i | 0 <= i < |rows| ensures Publishes(result[i], rows[i], index, required, NeededOf(rows[i], relations)) {
      PublishedMeaning(result[i], rows[i], relations, index, le);
    }
  }

  method PublishRows<Id(==,!new)>(rows: seq<Row<Id>>, index: Index<Id>, required: Required<Id>, states: States<Id>,
                                  cycles: map<Id, seq<Id>>, ghost le: Order<Id>)
    returns (result: seq<PublishedRow<Id>>)
    requires forall v :: v in cycles <==> HasPartner(required, v)
    requires forall v :: v in cycles ==> ListsComponent(cycles[v], required, v, le)
    ensures |result| == |rows|
    ensures forall i :: 0 <= i < |rows| ==> PublishedFrom(result[i], rows[i], index, required, states, le)
  {
    result := [];
    for i := 0 to |rows|
      invariant |result| == i
      invariant forall k :: 0 <= k < i ==> PublishedFrom(result[k], rows[k], index, required, states, le)
    {
      var published := PublishWithCycle(rows[i], index, required, states, cycles, le);
      result := result + [published];
    }
  }

  method PublishWithCycle<Id(==,!new)>(row: Row<Id>, index: Index<Id>, required: Required<Id>, states: States<Id>,
                                       cycles: map<Id, seq<Id>>, ghost le: Order<Id>)
    returns (published: PublishedRow<Id>)
    requires forall v :: v in cycles <==> HasPartner(required, v)
    requires forall v :: v in cycles ==> ListsComponent(cycles[v], required, v, le)
    ensures PublishedFrom(published, row, index, required, states, le)
  {
    var key := KeyOf(row.id);
    var cycle := if key.Some? && key.value in cycles then cycles[key.value] else [];
    published := PublishRow(row, index, required, states, cycle);
  }

  // ---------------------------------------------------------------- what a published row says

  lemma {:induction false} StatesSplitTargets<Id>(targets: seq<Id>, states: seq<HealthState>)
    requires |states| == |targets|
    ensures multiset(targets) == InAnyState(targets, states)
  {
    if targets != [] {
      StatesSplitTargets(targets[1..], states[1..]);
      assert targets == [targets[0]] + targets[1..];
      HeadInAnyState(targets, states);
    }
  }

  ghost function InAnyState<Id>(targets: seq<Id>, states: seq<HealthState>): multiset<Id>
    requires |states| == |targets|
  {
    multiset(TargetsInState(targets, states, Fail)) + multiset(TargetsInState(targets, states, Warn)) +
    multiset(TargetsInState(targets, states, Unknown)) + multiset(TargetsInState(targets, states, Ok))
  }

  lemma HeadInAnyState<Id>(targets: seq<Id>, states: seq<HealthState>)
    requires |states| == |targets| > 0
    ensures InAnyState(targets, states) == multiset{targets[0]} + InAnyState(targets[1..], states[1..])
  {
    HeadInState(targets, states, Fail);
    HeadInState(targets, states, Warn);
    HeadInState(targets, states, Unknown);
    HeadInState(targets, states, Ok);
  }

  lemma HeadInState<Id>(targets: seq<Id>, states: seq<HealthState>, wanted: HealthState)
    requires |states| == |targets| > 0
    ensures multiset(TargetsInState(targets, states, wanted)) ==
            (if states[0] == wanted then multiset{targets[0]} else multiset{}) +
            multiset(TargetsInState(targets[1..], states[1..], wanted))
  {
    var rest := TargetsInState(targets[1..], states[1..], wanted);
    assert [] + rest == rest;
  }

  lemma {:induction false} InStateMeaning<Id>(targets: seq<Id>, states: seq<HealthState>, wanted: HealthState,
                                              target: Id)
    requires |states| == |targets|
    ensures target in TargetsInState(targets, states, wanted) <==>
            exists i :: 0 <= i < |targets| && targets[i] == target && states[i] == wanted
  {
    if targets != [] {
      InStateMeaning(targets[1..], states[1..], wanted, target);
      if i :| 0 <= i < |targets| && targets[i] == target && states[i] == wanted {
        assert i > 0 ==> targets[1..][i - 1] == target && states[1..][i - 1] == wanted;
      }
      if i :| 0 <= i < |targets| - 1 && targets[1..][i] == target && states[1..][i] == wanted {
        assert targets[i + 1] == target && states[i + 1] == wanted;
      }
    }
  }

  /** Every required dependency is blamed, missed or cleared exactly as often as it is declared. */
  lemma PublishedSplit<Id>(row: Row<Id>, index: Index<Id>, required: Required<Id>, settled: States<Id>, cycle: seq<Id>)
    returns (cleared: seq<Id>)
    ensures var p := PublishRow(row, index, required, settled, cycle);
            && multiset(p.requiredDependencies) ==
                 multiset(p.blockedBy) + multiset(p.degradedBy) + multiset(p.unconfirmedDependencies)
                 + multiset(cleared)
            && forall t :: t in cleared ==> t in index && !index[t].stale && StateOr(t, settled, Unknown) == Ok
  {
    var targets := RelationsOf(row.id, required);
    var states := TargetStates(targets, settled, index);
    cleared := TargetsInState(targets, states, Ok);
    StatesSplitTargets(targets, states);
    forall t | t in cleared ensures t in index && !index[t].stale && StateOr(t, settled, Unknown) == Ok {
      InStateMeaning(targets, states, Ok, t);
    }
  }

  /** Who is blamed, in terms of the input alone: a dependency blocks exactly when it is present,
      not stale and failed itself; it degrades exactly when it is present, not stale, not failed and
      a live path leads from it to an impaired row; it is unconfirmed exactly when it is missing or
      stale, or neither impaired nor known itself. */
  lemma BlameMeaning<Id(!new)>(row: Row<Id>, index: Index<Id>, required: Required<Id>, cycle: seq<Id>, target: Id)
    ensures var p := PublishRow(row, index, required, Rounds(index, required, |index|), cycle);
            var needed := target in RelationsOf(row.id, required);
            && (target in p.blockedBy <==> needed && Live(index, target) && index[target].local == Fail)
            && (target in p.degradedBy <==>
                  needed && Live(index, target) && index[target].local != Fail &&
                  ReachesImpaired(index, required, target))
            && (target in p.unconfirmedDependencies <==>
                  needed && (!Live(index, target) ||
                             (index[target].local == Unknown && !ReachesImpaired(index, required, target))))
  {
    var targets := RelationsOf(row.id, required);
    var settled := Rounds(index, required, |index|);
    var states := TargetStates(targets, settled, index);
    InStateMeaning(targets, states, Fail, target);
    InStateMeaning(targets, states, Warn, target);
    InStateMeaning(targets, states, Unknown, target);
    if Live(index, target) {
      SettledMeaning(index, required, target);
    }
    if target in targets {
      var i :| 0 <= i < |targets| && targets[i] == target;
      assert states[i] == TargetState(target, settled, index);
    }
  }

  lemma {:induction false} InStateIsFilter<Id>(targets: seq<Id>, states: seq<HealthState>, wanted: HealthState,
                                               keep: Id -> bool)
    requires |states| == |targets|
    requires forall i :: 0 <= i < |targets| ==> (states[i] == wanted <==> keep(targets[i]))
    ensures TargetsInState(targets, states, wanted) == Filter(targets, keep)
  {
    if targets != [] {
      InStateIsFilter(targets[1..], states[1..], wanted, keep);
    }
  }

  /** The settled state of a target, and the state that counts. */
  lemma TargetSettles<Id(!new)>(index: Index<Id>, required: Required<Id>, t: Id)
    ensures var settled := Rounds(index, required, |index|);
            && (t in index ==> t in settled && SettlesAs(settled[t], index, required, t))
            && (t !in index ==> t !in settled)
            && TargetState(t, settled, index) == (if Live(index, t) then settled[t] else Unknown)
  {
    SettledKeys(index, required, |index|);
    ImpairedReaches(index, required, t);
    if t in index {
      SettledMeaning(index, required, t);
    }
  }

  lemma TargetBlamed<Id(!new)>(index: Index<Id>, required: Required<Id>, t: Id)
    ensures var state := TargetState(t, Rounds(index, required, |index|), index);
            && (state == Fail <==> Blocking(index, t))
            && (state == Warn <==> Degrading(index, required, t))
            && (state == Unknown <==> Unconfirmed(index, required, t))
  {
    TargetSettles(index, required, t);
    ImpairedReaches(index, required, t);
  }

  lemma {:induction false} InStateEmpty<Id>(targets: seq<Id>, states: seq<HealthState>, wanted: HealthState)
    requires |states| == |targets|
    ensures TargetsInState(targets, states, wanted) == [] <==> wanted !in states
  {
    if targets != [] {
      InStateEmpty(targets[1..], states[1..], wanted);
      assert states == [states[0]] + states[1..];
    }
  }

  lemma PublishedState<Id(!new)>(row: Row<Id>, index: Index<Id>, required: Required<Id>, cycle: seq<Id>)
    ensures StateMeaning(PublishRow(row, index, required, Rounds(index, required, |index|), cycle).state,
                         row, index, required)
  {
    var settled := Rounds(index, required, |index|);
    SettledKeys(index, required, |index|);
    if !row.id.Absent? {
      var targets := TargetsOf(required, row.id.id);
      TargetSettles(index, required, row.id.id);
      DependencyImpaired(targets, index, settled, row.state);
      forall t | t in targets && Live(index, t) ensures Impaired(settled[t]) <==> ReachesImpaired(index, required, t) {
        TargetSettles(index, required, t);
        ImpairedReaches(index, required, t);
      }
    }
  }

  lemma PublishedBlame<Id(!new)>(row: Row<Id>, index: Index<Id>, required: Required<Id>, cycle: seq<Id>)
    ensures var p := PublishRow(row, index, required, Rounds(index, required, |index|), cycle);
            var needed := RelationsOf(row.id, required);
            && p.blockedBy == Filter(needed, (t: Id) => Blocking(index, t))
            && p.degradedBy == Filter(needed, (t: Id) => Degrading(index, required, t))
            && p.unconfirmedDependencies == Filter(needed, (t: Id) => Unconfirmed(index, required, t))
            && DependencyMeaning(p)
  {
    var targets := RelationsOf(row.id, required);
    var states := TargetStates(targets, Rounds(index, required, |index|), index);
    forall i | 0 <= i < |targets|
      ensures states[i] == Fail <==> Blocking(index, targets[i])
      ensures states[i] == Warn <==> Degrading(index, required, targets[i])
      ensures states[i] == Unknown <==> Unconfirmed(index, required, targets[i])
    {
      TargetBlamed(index, required, targets[i]);
    }
    InStateIsFilter(targets, states, Fail, (t: Id) => Blocking(index, t));
    InStateIsFilter(targets, states, Warn, (t: Id) => Degrading(index, required, t));
    InStateIsFilter(targets, states, Unknown, (t: Id) => Unconfirmed(index, required, t));
    InStateEmpty(targets, states, Fail);
    InStateEmpty(targets, states, Warn);
    InStateEmpty(targets, states, Unknown);
  }

  /** What is published of a row, field by field. */
  lemma PublishedMeaning<Id(!new)>(p: PublishedRow<Id>, row: Row<Id>, relations: seq<Relation<Id>>, index: Index<Id>,
                                   le: Order<Id>)
    requires var required := RequiredOf(relations);
             PublishedFrom(p, row, index, required, Rounds(index, required, |index|), le)
    ensures Publishes(p, row, index, RequiredOf(relations), NeededOf(row, relations))
  {
    hide Rounds, StateMeaning, DependencyMeaning, TargetsInState, Blocking, Degrading, Unconfirmed, SettlesAs;
    var required, needed := RequiredOf(relations), NeededOf(row, relations);
    RequiredOfGroups(relations);
    assert RelationsOf(row.id, required) == needed;
    PublishedState(row, index, required, p.dependencyCycle);
    PublishedBlame(row, index, required, p.dependencyCycle);
    forall i | 0 <= i < |needed| ensures ShowsTarget(p.dependencyEvidence[i], needed[i], index, required) {
      TargetSettles(index, required, needed[i]);
    }
  }

  /** What the evidence of a dependency shows: its settled state by its own row, and beside it the state
      that counts, which is unknown unless the row is present and not stale. */
  lemma EvidenceMeaning<Id(!new)>(row: Row<Id>, index: Index<Id>, required: Required<Id>, cycle: seq<Id>, i: nat)
    requires i < |RelationsOf(row.id, required)|
    ensures var p := PublishRow(row, index, required, Rounds(index, required, |index|), cycle);
            |p.dependencyEvidence| == |RelationsOf(row.id, required)| &&
            var e := p.dependencyEvidence[i];
            && e.target == RelationsOf(row.id, required)[i]
            && e.targetState == (if Live(index, e.target) then e.targetEffectiveState else Unknown)
            && (e.target !in index ==> e.targetEffectiveState == Unknown)
            && (e.target in index ==>
                  && (e.targetEffectiveState == Fail <==> index[e.target].local == Fail)
                  && (e.targetEffectiveState == Warn <==>
                        index[e.target].local != Fail && ReachesImpaired(index, required, e.target)))
  {
    var target := RelationsOf(row.id, required)[i];
    SettledKeys(index, required, |index|);
    if target in index {
      SettledMeaning(index, required, target);
    }
  }

  // ---------------------------------------------------------------- self-consistency and duplicate ids

  /** The published effective state is the one that the row's own published evidence calls for. */
  predicate SelfConsistent<Id>(row: PublishedRow<Id>) {
    row.effectiveState == EffectiveState(row.localState, row.dependencyState)
  }

  ghost predicate AllSelfConsistent<Id(!new)>(rows: seq<Row<Id>>, required: Required<Id>) {
    var index := IndexRows(rows);
    forall i :: 0 <= i < |rows| ==>
      SelfConsistent(PublishRow(rows[i], index, required, Rounds(index, required, |index|), []))
  }

  /** Rows that answer to the same id carry the state of the one that is indexed. */
  predicate DuplicatesAgree<Id(==)>(rows: seq<Row<Id>>) {
    var index := IndexRows(rows);
    forall i :: 0 <= i < |rows| ==>
      var key := KeyOf(rows[i].id);
      key.Some? && key.value in index ==> index[key.value].local == rows[i].state
  }

  lemma {:induction false} UniqueIdsAgree<Id(!new)>(rows: seq<Row<Id>>)
    requires forall i :: 0 <= i < |rows| ==> !rows[i].id.Rendered?
    requires forall i, j :: 0 <= i < j < |rows| && rows[i].id.Text? ==> rows[i].id != rows[j].id
    ensures DuplicatesAgree(rows)
    ensures forall key :: key in IndexRows(rows) ==> exists i :: 0 <= i < |rows| && rows[i].id == Text(key)
  {
    if rows != [] {
      var rest, last := rows[..|rows| - 1], rows[|rows| - 1];
      UniqueIdsAgree(rest);
      var index, before := IndexRows(rows), IndexRows(rest);
      forall i | 0 <= i < |rest|
        ensures rows[i].id.Text? && rows[i].id.id in index ==> index[rows[i].id.id].local == rows[i].state
      {
        assert rest[i] == rows[i];
      }
      forall key | key in index ensures exists i :: 0 <= i < |rows| && rows[i].id == Text(key) {
        if key in before {
          var i :| 0 <= i < |rest| && rest[i].id == Text(key);
          assert rows[i].id == Text(key);
        } else {
          assert rows[|rows| - 1].id == Text(key);
        }
      }
    }
  }

  /** Some live dependency of the id is impaired, by its own row or over a path. */
  ghost predicate DependencyDegrades<Id(!new)>(index: Index<Id>, required: Required<Id>, key: Id) {
    exists t :: t in TargetsOf(required, key) && Live(index, t) && ReachesImpaired(index, required, t)
  }

  /** The row's state may stand beside the one that is indexed under its id: they agree, or neither is a failure
      and a dependency degrades both. */
  ghost predicate StateStands<Id(!new)>(row: Row<Id>, index: Index<Id>, required: Required<Id>) {
    var key := KeyOf(row.id);
    key.Some? && key.value in index ==>
      || index[key.value].local == row.state
      || (index[key.value].local != Fail && row.state != Fail && DependencyDegrades(index, required, key.value))
  }

  /** For one row of one topology: it is published consistently exactly when its state stands. */
  lemma RowConsistency<Id(!new)>(row: Row<Id>, index: Index<Id>, required: Required<Id>)
    ensures SelfConsistent(PublishRow(row, index, required, Rounds(index, required, |index|), [])) <==>
            StateStands(row, index, required)
  {
    var key := KeyOf(row.id);
    SettledKeys(index, required, |index|);
    if key.Some? && key.value in index {
      var targets := TargetsOf(required, key.value);
      var settled := Rounds(index, required, |index|);
      DependencyImpaired(targets, index, settled, row.state);
      SettledByTargets(index, required, key.value);
    }
  }

  /** A settled state, from the row's own state and its dependencies. */
  lemma SettledByTargets<Id(!new)>(index: Index<Id>, required: Required<Id>, key: Id)
    requires key in index
    ensures var settled := Rounds(index, required, |index|);
            && settled.Keys == index.Keys
            && (ImpairedTarget(TargetsOf(required, key), index, settled) <==> DependencyDegrades(index, required, key))
            && settled[key] == StateFrom(index[key].local,
                 Impaired(index[key].local) || DependencyDegrades(index, required, key))
  {
    var settled := Rounds(index, required, |index|);
    SettledKeys(index, required, |index|);
    RoundsSettle(index, required);
    assert Round(index, required, settled) == settled;
    assert settled[key] == Resolve(key, index, required, settled);
    ResolveByImpairment(key, index, required, settled);
    forall t | t in TargetsOf(required, key) && Live(index, t)
      ensures Impaired(settled[t]) <==> ReachesImpaired(index, required, t)
    {
      SettledMeaning(index, required, t);
      ImpairedReaches(index, required, t);
    }
  }

  lemma ImpairedReaches<Id(!new)>(index: Index<Id>, required: Required<Id>, id: Id)
    ensures LocallyImpaired(index, id) ==> ReachesImpaired(index, required, id)
  {
    ReachesSelf(LiveGraph(index, required), id);
  }

  /** For one topology: all rows are published consistently exactly when every row's state stands. */
  lemma SelfConsistencyMeaning<Id(!new)>(rows: seq<Row<Id>>, required: Required<Id>)
    ensures AllSelfConsistent(rows, required) <==>
            forall i :: 0 <= i < |rows| ==> StateStands(rows[i], IndexRows(rows), required)
  {
    var index := IndexRows(rows);
    forall i | 0 <= i < |rows|
      ensures SelfConsistent(PublishRow(rows[i], index, required, Rounds(index, required, |index|), [])) <==>
              StateStands(rows[i], index, required)
    {
      RowConsistency(rows[i], index, required);
    }
  }

  /** The rows are self-consistent under every topology exactly when rows sharing an id agree. In
      particular they are when ids are unique. */
  lemma SelfConsistencyNeedsAgreement<Id(!new)>(rows: seq<Row<Id>>)
    ensures (forall required: Required<Id> :: AllSelfConsistent(rows, required)) <==> DuplicatesAgree(rows)
  {
    forall required: Required<Id> ensures DuplicatesAgree(rows) ==> AllSelfConsistent(rows, required) {
      SelfConsistencyMeaning(rows, required);
    }
    var none: Required<Id> := map[];
    SelfConsistencyMeaning(rows, none);
    forall key ensures !DependencyDegrades(IndexRows(rows), none, key) {
      assert TargetsOf(none, key) == [];
    }
    if forall required: Required<Id> :: AllSelfConsistent(rows, required) {
      assert AllSelfConsistent(rows, none);
      forall i | 0 <= i < |rows| ensures StateStands(rows[i], IndexRows(rows), none) {
      }
    }
  }

  lemma SettledKeys<Id(!new)>(index: Index<Id>, required: Required<Id>, n: nat)
    ensures Rounds(index, required, n).Keys == index.Keys
  {
    if n > 0 {
      assert Rounds(index, required, n) == Round(index, required, Rounds(index, required, n - 1));
    }
  }

  /** Two rows of one id, the first failed and the second ok: the first is published as ok although
      it failed. */
  lemma DuplicateIdsExample<Id(!new)>(id: Id)
    ensures var rows := [Row(Text(id), Fail, false, false), Row(Text(id), Ok, false, false)];
            !DuplicatesAgree(rows) && !AllSelfConsistent(rows, map[])
  {
    var rows := [Row(Text(id), Fail, false, false), Row(Text(id), Ok, false, false)];
    var index := IndexRows(rows);
    assert rows[..1] == [rows[0]] && [rows[0]][..0] == [];
    assert IndexRows([rows[0]]) == map[id := Observation(Fail, false)];
    assert index == map[id := Observation(Ok, false)];
    var none: Required<Id> := map[];
    RowConsistency(rows[0], index, none);
    assert TargetsOf(none, id) == [];
    assert !SelfConsistent(PublishRow(rows[0], index, none, Rounds(index, none, |index|), []));
  }

  /** Rows of one id may disagree and still be published consistently: both are degraded by a failed
      dependency. */
  lemma DisagreeingRowsExample<Id(!new)>(id: Id, failed: Id)
    requires id != failed
    ensures var rows := [Row(Text(failed), Fail, false, false), Row(Text(id), Ok, false, false),
                         Row(Text(id), Unknown, false, false)];
            !DuplicatesAgree(rows) && AllSelfConsistent(rows, map[id := [failed]])
  {
    hide IndexRows, AllSelfConsistent;
    var rows := [Row(Text(failed), Fail, false, false), Row(Text(id), Ok, false, false),
                 Row(Text(id), Unknown, false, false)];
    var index, required := IndexRows(rows), map[id := [failed]];
    DisagreeingIndex(id, failed);
    ImpairedReaches(index, required, failed);
    assert failed in TargetsOf(required, id) && DependencyDegrades(index, required, id);
    assert KeyOf(rows[1].id) == Some(id);
    SelfConsistencyMeaning(rows, required);
  }

  lemma DisagreeingIndex<Id(!new)>(id: Id, failed: Id)
    requires id != failed
    ensures IndexRows([Row(Text(failed), Fail, false, false), Row(Text(id), Ok, false, false),
                       Row(Text(id), Unknown, false, false)]) ==
            map[failed := Observation(Fail, false), id := Observation(Unknown, false)]
  {
    var a, b := Row(Text(failed), Fail, false, false), Row(Text(id), Ok, false, false);
    var c := Row(Text(id), Unknown, false, false);
    assert [a, b, c][..2] == [a, b] && [a, b][..1] == [a] && [a][..0] == [];
    assert IndexRows([a]) == map[failed := Observation(Fail, false)];
    assert IndexRows([a, b]) == map[failed := Observation(Fail, false), id := Observation(Ok, false)];
  }
}
