/** Planning of deployment units from catalog components
    (nabla/api/homelab_probe_units.py, build_probe_units). */
module ProbePlanning {
  import opened Lists
  import opened ProbeUnits
  import opened Rotation
  import opened Sorting
  import opened TextOrder
  import opened TextTools
  import opened Wrappers

  datatype Observer = Internal | Public

  /** The probe policy of a unit; `details` stands for the keys that only its equality reads. */
  datatype EndpointPolicy = EndpointPolicy(primary: string, secondaries: seq<string>, details: string)

  /** A catalog component; an empty id stands for a missing one. */
  datatype Component = Component(id: string, external: bool, unitId: Option<string>, priority: Option<int>,
                                 policy: Option<EndpointPolicy>)

  datatype PlanError =
    | MissingId | DuplicateComponent(id: string) | InvalidUnitId(id: string) | InvalidPriority
    | ConflictingPolicy(unit: string) | MissingPrimary(unit: string) | InvalidSecondary(unit: string)
    | DuplicateEndpoint(unit: string) | UnknownPrimary(unit: string) | UnknownSecondary(unit: string)

  type Groups = map<string, seq<Component>>

  // ---------------------------------------------------------------- grouping

  predicate Blank(s: string) {
    forall c :: c in s ==> IsSpace(c)
  }

  function IdsOf(components: seq<Component>): (ids: seq<string>)
    ensures |ids| == |components| && forall i :: 0 <= i < |ids| ==> ids[i] == components[i].id
  {
    seq(|components|, i requires 0 <= i < |components| => components[i].id)
  }

  function ComponentError(component: Component, before: seq<Component>): Option<PlanError> {
    if component.id == "" then Some(MissingId)
    else if component.id in IdsOf(before) then Some(DuplicateComponent(component.id))
    else if component.unitId.Some? && Blank(component.unitId.value) then Some(InvalidUnitId(component.id))
    else if component.priority.Some? && !(0 <= component.priority.value <= 1000) then Some(InvalidPriority)
    else None
  }

  /** The error of the first component that has one. */
  function FirstError(components: seq<Component>): Option<PlanError> {
    if components == [] then None
    else
      var before := components[..|components| - 1];
      match FirstError(before)
      case Some(error) => Some(error)
      case None => ComponentError(components[|components| - 1], before)
  }

  predicate Eligible(component: Component, observer: Observer) {
    observer == Internal || component.external
  }

  /** The unit of a component that declares none. */
  function OwnUnit(id: string): string {
    "service:" + id
  }

  /** The declared unit, or one of its own under a reserved prefix. */
  function Key(component: Component): string {
    match component.unitId
    case Some(unit) => if unit == "" then OwnUnit(component.id) else unit
    case None => OwnUnit(component.id)
  }

  function InGroup(observer: Observer, key: string): Component -> bool {
    (c: Component) => Eligible(c, observer) && Key(c) == key
  }

  /** The components of a unit, in catalog order. */
  function GroupOf(components: seq<Component>, observer: Observer, key: string): seq<Component> {
    Filter(components, InGroup(observer, key))
  }

  /** The keys of the eligible components, in the order of their first appearance. */
  function KeysInOrder(components: seq<Component>, observer: Observer): seq<string> {
    if components == [] then []
    else
      var before, last := KeysInOrder(components[..|components| - 1], observer), components[|components| - 1];
      if Eligible(last, observer) && Key(last) !in before then before + [Key(last)] else before
  }

  /** The groups hold every eligible component under its key; `order` lists the keys. */
  ghost predicate Grouped(order: seq<string>, groups: Groups, components: seq<Component>, observer: Observer) {
    && Distinct(order) && order == KeysInOrder(components, observer)
    && (forall key :: key in order <==> key in groups)
    && (forall key :: key in groups <==> GroupOf(components, observer, key) != [])
    && (forall key :: key in groups ==> groups[key] == GroupOf(components, observer, key))
  }

  method GroupComponents(components: seq<Component>, observer: Observer)
    returns (r: Result<(seq<string>, Groups), PlanError>)
    ensures r.Failure? ==> FirstError(components) == Some(r.error)
    ensures r.Success? ==> FirstError(components) == None && Grouped(r.value.0, r.value.1, components, observer)
  {
    hide Grouped, FirstError, ComponentError;
    NothingGrouped(observer);
    var order: seq<string>, groups: Groups := [], map[];
    assert components[..0] == [];
    for i := 0 to |components|
      invariant FirstError(components[..i]) == None
      invariant Grouped(order, groups, components[..i], observer)
    {
      var component := components[i];
      FirstErrorNext(components, i);
      var error := ComponentError(component, components[..i]);
      if error.Some? {
        FirstErrorStays(components, i + 1);
        return Failure(error.value);
      }
      order, groups := AddComponent(order, groups, components[..i], component, observer);
      assert components[..i + 1] == components[..i] + [component];
    }
    assert components[..|components|] == components;
    r := Success((order, groups));
  }

  lemma NothingGrouped(observer: Observer)
    ensures Grouped([], map[], [], observer) && FirstError([]) == None
  {
  }

  lemma FirstErrorNext(components: seq<Component>, n: nat)
    requires n < |components| && FirstError(components[..n]) == None
    ensures FirstError(components[..n + 1]) == ComponentError(components[n], components[..n])
  {
    assert components[..n + 1][..n] == components[..n];
  }

  method AddComponent(order: seq<string>, groups: Groups, ghost before: seq<Component>, component: Component,
                      observer: Observer)
    returns (order': seq<string>, groups': Groups)
    requires Grouped(order, groups, before, observer)
    ensures Grouped(order', groups', before + [component], observer)
  {
    GroupsGrow(before, component, observer);
    KeysGrow(before, component, observer);
    order', groups' := order, groups;
    hide GroupOf, KeysInOrder;
    if Eligible(component, observer) {
      var key := Key(component);
      if key in groups {
        groups' := groups[key := groups[key] + [component]];
      } else {
        order' := order + [key];
        groups' := groups[key := [component]];
      }
    }
  }

  lemma KeysGrow(components: seq<Component>, component: Component, observer: Observer)
    ensures var keys, key := KeysInOrder(components, observer), Key(component);
            KeysInOrder(components + [component], observer) ==
            keys + if Eligible(component, observer) && key !in keys then [key] else []
  {
    assert (components + [component])[..|components|] == components;
  }

  lemma {:induction false} FirstErrorStays(components: seq<Component>, n: nat)
    requires n <= |components| && FirstError(components[..n]).Some?
    ensures FirstError(components) == FirstError(components[..n])
    decreases |components|
  {
    if n == |components| {
      assert components[..n] == components;
    } else {
      var before := components[..|components| - 1];
      assert before[..n] == components[..n];
      FirstErrorStays(before, n);
    }
  }

  lemma GroupsGrow(components: seq<Component>, component: Component, observer: Observer)
    ensures forall key :: GroupOf(components + [component], observer, key) ==
              GroupOf(components, observer, key) + if InGroup(observer, key)(component) then [component] else []
  {
    forall key ensures GroupOf(components + [component], observer, key) ==
              GroupOf(components, observer, key) + if InGroup(observer, key)(component) then [component] else []
    {
      FilterAppend(components, [component], InGroup(observer, key));
      FilterSingle(component, InGroup(observer, key));
    }
  }

  // ---------------------------------------------------------------- endpoints

  function Policies(members: seq<Component>): seq<EndpointPolicy> {
    if members == [] then []
    else (match members[0].policy case Some(policy) => [policy] case None => []) + Policies(members[1..])
  }

  function Among(ids: seq<string>): string -> bool {
    (id: string) => id in ids
  }

  predicate AllAmong(names: seq<string>, ids: seq<string>) {
    forall name :: name in names ==> name in ids
  }

  datatype Endpoints = Endpoints(primary: Option<string>, secondaries: seq<string>)

  function UnitEndpoints(unit: string, members: seq<Component>, observer: Observer): Result<Endpoints, PlanError>
    requires members != []
  {
    var ids, policies := IdsOf(members), Policies(members);
    if policies == [] then Success(Endpoints(Some(ids[0]), []))
    else if exists policy :: policy in policies[1..] && policy != policies[0] then Failure(ConflictingPolicy(unit))
    else PolicyEndpoints(unit, policies[0], ids, observer)
  }

  function PolicyEndpoints(unit: string, policy: EndpointPolicy, ids: seq<string>,
                           observer: Observer): Result<Endpoints, PlanError> {
    var primary, secondaries := policy.primary, policy.secondaries;
    if primary == "" then Failure(MissingPrimary(unit))
    else if "" in secondaries then Failure(InvalidSecondary(unit))
    else if |SetOf([primary] + secondaries)| != |secondaries| + 1 then Failure(DuplicateEndpoint(unit))
    else if observer == Internal && primary !in ids then Failure(UnknownPrimary(unit))
    else if observer == Internal && !AllAmong(secondaries, ids) then Failure(UnknownSecondary(unit))
    else Success(Within(primary, secondaries, ids))
  }

  /** The endpoints that are among the ids. */
  function Within(primary: string, secondaries: seq<string>, ids: seq<string>): Endpoints {
    Endpoints(if primary in ids then Some(primary) else None, Filter(secondaries, Among(ids)))
  }

  function SetOf(names: seq<string>): set<string> {
    set name | name in names
  }

  /** All endpoints, the primary first. */
  function EndpointList(endpoints: Endpoints): seq<string> {
    (if endpoints.primary.Some? then [endpoints.primary.value] else []) + endpoints.secondaries
  }

  lemma {:induction false} CountsDistinct(names: seq<string>)
    ensures |SetOf(names)| <= |names|
    ensures |SetOf(names)| == |names| ==> Distinct(names)
  {
    if names != [] {
      var head, rest := names[0], names[1..];
      CountsDistinct(rest);
      assert names == [head] + rest;
      assert SetOf(names) == {head} + SetOf(rest);
      if head in SetOf(rest) {
        assert SetOf(names) == SetOf(rest);
      }
    }
  }

  /** The endpoints of a unit are distinct members of it; inside, a declared policy is taken as it is or
      refused. */
  lemma EndpointsAreMembers(unit: string, members: seq<Component>, observer: Observer)
    requires members != [] && UnitEndpoints(unit, members, observer).Success?
    ensures var endpoints := UnitEndpoints(unit, members, observer).value;
            && Distinct(EndpointList(endpoints)) && AllAmong(EndpointList(endpoints), IdsOf(members))
            && (observer == Internal && Policies(members) != [] ==>
                  endpoints == Endpoints(Some(Policies(members)[0].primary), Policies(members)[0].secondaries))
  {
    if Policies(members) == [] {
      assert IdsOf(members)[0] in IdsOf(members);
    } else {
      PolicyIsMembers(unit, Policies(members)[0], IdsOf(members), observer);
    }
  }

  lemma PolicyIsMembers(unit: string, policy: EndpointPolicy, ids: seq<string>, observer: Observer)
    requires PolicyEndpoints(unit, policy, ids, observer).Success?
    ensures var endpoints := PolicyEndpoints(unit, policy, ids, observer).value;
            && Distinct(EndpointList(endpoints)) && AllAmong(EndpointList(endpoints), ids)
            && (observer == Internal ==> endpoints == Endpoints(Some(policy.primary), policy.secondaries))
  {
    CountsDistinct([policy.primary] + policy.secondaries);
    WithinIsMembers(policy.primary, policy.secondaries, ids);
  }

  lemma WithinIsMembers(primary: string, secondaries: seq<string>, ids: seq<string>)
    requires Distinct([primary] + secondaries)
    ensures var endpoints := Within(primary, secondaries, ids);
            && Distinct(EndpointList(endpoints)) && AllAmong(EndpointList(endpoints), ids)
            && (primary in ids && AllAmong(secondaries, ids) ==> endpoints == Endpoints(Some(primary), secondaries))
  {
    assert ([primary] + secondaries)[1..] == secondaries;
    HeadIsNew([primary] + secondaries);
    FilterKeepsDistinct(secondaries, Among(ids));
    FilterMembers(secondaries, Among(ids));
    FilterAll(secondaries, Among(ids));
    ListIsMembers(primary, Filter(secondaries, Among(ids)), ids);
  }

  lemma ListIsMembers(primary: string, kept: seq<string>, ids: seq<string>)
    requires Distinct(kept) && primary !in kept && AllAmong(kept, ids)
    ensures var endpoints := Endpoints(if primary in ids then Some(primary) else None, kept);
            Distinct(EndpointList(endpoints)) && AllAmong(EndpointList(endpoints), ids)
  {
    PrependDistinct(primary, kept);
    assert [] + kept == kept;
  }

  lemma PrependDistinct<T>(x: T, s: seq<T>)
    requires Distinct(s) && x !in s
    ensures Distinct([x] + s)
  {
  }

  /** Some member declares this policy. */
  ghost predicate Declares(members: seq<Component>, policy: EndpointPolicy) {
    exists m :: m in members && m.policy == Some(policy)
  }

  ghost predicate IsMember(members: seq<Component>, id: string) {
    exists m :: m in members && m.id == id
  }

  ghost predicate Conflicting(members: seq<Component>) {
    exists p, q :: p != q && Declares(members, p) && Declares(members, q)
  }

  /** What the one policy of a unit comes to: no primary endpoint, an empty secondary, an endpoint named twice, and
      inside an endpoint that is no member, are errors, in this order; otherwise the named endpoints that are members
      are taken. */
  ghost predicate PolicyComesTo(r: Result<Endpoints, PlanError>, unit: string, policy: EndpointPolicy,
                                members: seq<Component>, observer: Observer)
  {
    var named := [policy.primary] + policy.secondaries;
    if policy.primary == "" then r == Failure(MissingPrimary(unit))
    else if "" in policy.secondaries then r == Failure(InvalidSecondary(unit))
    else if !Distinct(named) then r == Failure(DuplicateEndpoint(unit))
    else if observer.Internal? && !IsMember(members, policy.primary) then r == Failure(UnknownPrimary(unit))
    else if observer.Internal? && exists id :: id in policy.secondaries && !IsMember(members, id) then
      r == Failure(UnknownSecondary(unit))
    else
      && r.Success?
      && r.value.primary == (if IsMember(members, policy.primary) then Some(policy.primary) else None)
      && r.value.secondaries == Filter(policy.secondaries, (id: string) => IsMember(members, id))
  }

  /** What the endpoints of a unit come to: the first member's without any policy, an error with two different ones,
      and else what the one policy says. */
  lemma EndpointsMeaning(unit: string, members: seq<Component>, observer: Observer)
    requires members != []
    ensures var r := UnitEndpoints(unit, members, observer);
            && ((forall m :: m in members ==> m.policy == None) ==> r == Success(Endpoints(Some(members[0].id), [])))
            && (Conflicting(members) ==> r == Failure(ConflictingPolicy(unit)))
            && forall policy :: Declares(members, policy) && !Conflicting(members) ==>
                                PolicyComesTo(r, unit, policy, members, observer)
  {
    var policies := Policies(members);
    forall policy ensures policy in policies <==> Declares(members, policy) {
      PoliciesDeclared(members, policy);
    }
    NoneDeclared(members);
    if policies != [] {
      var first, rest := policies[0], policies[1..];
      assert policies == [first] + rest;
      assert Declares(members, first);
      assert Conflicting(members) <==> exists policy :: policy in rest && policy != first by {
        if policy :| policy in rest && policy != first {
          assert Declares(members, policy);
        }
      }
      PolicyMeaning(unit, first, members, observer);
      forall policy | Declares(members, policy) && !Conflicting(members) ensures policy == first {
      }
    }
  }

  lemma NoneDeclared(members: seq<Component>)
    ensures Policies(members) == [] <==> forall m :: m in members ==> m.policy == None
  {
    if Policies(members) != [] {
      PoliciesDeclared(members, Policies(members)[0]);
    }
    forall m | m in members && m.policy.Some? ensures Policies(members) != [] {
      PoliciesDeclared(members, m.policy.value);
    }
  }

  lemma {:induction false} PoliciesDeclared(members: seq<Component>, policy: EndpointPolicy)
    ensures policy in Policies(members) <==> Declares(members, policy)
  {
    if members != [] {
      PoliciesDeclared(members[1..], policy);
      assert members == [members[0]] + members[1..];
    }
  }

  lemma MembersById(members: seq<Component>, id: string)
    ensures id in IdsOf(members) <==> IsMember(members, id)
  {
    if IsMember(members, id) {
      var m :| m in members && m.id == id;
      var i :| 0 <= i < |members| && members[i] == m;
      assert IdsOf(members)[i] == id;
    }
  }

  lemma PolicyMeaning(unit: string, policy: EndpointPolicy, members: seq<Component>, observer: Observer)
    ensures PolicyComesTo(PolicyEndpoints(unit, policy, IdsOf(members), observer), unit, policy, members, observer)
  {
    var ids := IdsOf(members);
    DistinctCounts([policy.primary] + policy.secondaries);
    forall id: string ensures id in ids <==> IsMember(members, id) {
      MembersById(members, id);
    }
    SameFilter(policy.secondaries, Among(ids), (id: string) => IsMember(members, id));
  }

  lemma DistinctCounts(names: seq<string>)
    ensures |SetOf(names)| == |names| <==> Distinct(names)
  {
    CountsDistinct(names);
    if Distinct(names) {
      DistinctLength(names);
      assert Elements(names) == SetOf(names);
    }
  }

  lemma {:induction false} SameFilter<T>(s: seq<T>, keep: T -> bool, other: T -> bool)
    requires forall x :: x in s ==> (keep(x) <==> other(x))
    ensures Filter(s, keep) == Filter(s, other)
  {
    if s != [] {
      SameFilter(s[1..], keep, other);
    }
  }

  // ---------------------------------------------------------------- which components are refused

  /** The component at this place has this fault, and no earlier one has any: an empty id, the id of an earlier
      component, a unit of blanks only, or a priority outside 0 to 1000, looked for in this order. */
  ghost predicate FaultAt(components: seq<Component>, i: nat, error: PlanError) {
    i < |components| &&
    var c := components[i];
    if c.id == "" then error == MissingId
    else if exists j :: 0 <= j < i && components[j].id == c.id then error == DuplicateComponent(c.id)
    else if c.unitId.Some? && (forall k :: 0 <= k < |c.unitId.value| ==> IsSpace(c.unitId.value[k])) then
      error == InvalidUnitId(c.id)
    else c.priority.Some? && (c.priority.value < 0 || c.priority.value > 1000) && error == InvalidPriority
  }

  ghost predicate Faultless(components: seq<Component>, n: nat) {
    forall i: nat, error :: i < n ==> !FaultAt(components, i, error)
  }

  /** A catalog is refused exactly if some component is at fault, and for the fault of the first one. */
  lemma {:induction false} FirstErrorMeaning(components: seq<Component>)
    ensures FirstError(components) == None <==> Faultless(components, |components|)
    ensures forall error :: FirstError(components) == Some(error) ==>
              exists i: nat :: Faultless(components, i) && FaultAt(components, i, error)
  {
    if components != [] {
      var n := |components| - 1;
      var before := components[..n];
      FirstErrorMeaning(before);
      forall i: nat, error | i < n ensures FaultAt(components, i, error) <==> FaultAt(before, i, error) {
        SameFault(components, n, i, error);
      }
      LastFault(components, n);
      assert Faultless(components, n) <==> Faultless(before, n) by {
        forall i: nat, error | i < n ensures FaultAt(components, i, error) <==> FaultAt(before, i, error) {
          SameFault(components, n, i, error);
        }
      }
      if FirstError(before).Some? {
        var i: nat :| Faultless(before, i) && FaultAt(before, i, FirstError(before).value);
        FirstFaultStays(components, n, i, FirstError(before).value);
      } else if FirstError(components).Some? {
        assert Faultless(components, n) && FaultAt(components, n, FirstError(components).value);
      } else {
        forall i: nat, error | i < |components| ensures !FaultAt(components, i, error) {
        }
      }
    }
  }

  lemma FirstFaultStays(components: seq<Component>, n: nat, i: nat, error: PlanError)
    requires i < n <= |components| && Faultless(components[..n], i) && FaultAt(components[..n], i, error)
    ensures Faultless(components, i) && FaultAt(components, i, error)
  {
    SameFault(components, n, i, error);
    forall j: nat, e | j < i ensures !FaultAt(components, j, e) {
      SameFault(components, n, j, e);
    }
  }

  lemma SameFault(components: seq<Component>, n: nat, i: nat, error: PlanError)
    requires i < n <= |components|
    ensures FaultAt(components, i, error) <==> FaultAt(components[..n], i, error)
  {
    assert components[..n][i] == components[i];
    assert forall j :: 0 <= j < i ==> components[..n][j] == components[j];
  }

  lemma LastFault(components: seq<Component>, n: nat)
    requires n < |components|
    ensures forall error :: ComponentError(components[n], components[..n]) == Some(error) <==>
                            FaultAt(components, n, error)
  {
    var c := components[n];
    assert c.id in IdsOf(components[..n]) <==> exists j :: 0 <= j < n && components[j].id == c.id by {
      if j :| 0 <= j < n && components[j].id == c.id {
        assert IdsOf(components[..n])[j] == c.id;
      }
    }
    if c.unitId.Some? {
      var s := c.unitId.value;
      assert Blank(s) <==> forall k :: 0 <= k < |s| ==> IsSpace(s[k]) by {
        forall k | 0 <= k < |s| ensures s[k] in s {}
      }
    }
  }

  // ---------------------------------------------------------------- units

  function LeastPriority(members: seq<Component>): Option<int> {
    if members == [] then None
    else
      match (members[0].priority, LeastPriority(members[1..]))
      case (Some(a), Some(b)) => Some(if a <= b then a else b)
      case (Some(a), None) => Some(a)
      case (None, rest) => rest
  }

  /** A unit is as urgent as its most urgent member with a priority. */
  lemma {:induction false} LeastPriorityIsMinimum(members: seq<Component>)
    ensures LeastPriority(members).None? <==> forall c :: c in members ==> c.priority.None?
    ensures forall c :: c in members && c.priority.Some? ==>
              LeastPriority(members).Some? && LeastPriority(members).value <= c.priority.value
    ensures LeastPriority(members).Some? ==> exists c :: c in members && c.priority == LeastPriority(members)
  {
    if members != [] {
      LeastPriorityIsMinimum(members[1..]);
      assert members == [members[0]] + members[1..];
    }
  }

  function UnitOf(key: string, members: seq<Component>, endpoints: Endpoints): ProbeUnit {
    ProbeUnit(key, IdsOf(members), LeastPriority(members), endpoints.primary, endpoints.secondaries)
  }

  predicate UnitOrder(a: ProbeUnit, b: ProbeUnit) {
    TextLe(a.id, b.id)
  }

  /** A unit is what its group and the endpoints resolved for it make it. */
  predicate Planned(unit: ProbeUnit, components: seq<Component>, observer: Observer) {
    var members := GroupOf(components, observer, unit.id);
    && members != [] && UnitEndpoints(unit.id, members, observer).Success?
    && unit == UnitOf(unit.id, members, UnitEndpoints(unit.id, members, observer).value)
  }

  /** The component is observed and belongs to the unit: by the name it declares, or else by its reserved one. */
  ghost predicate BelongsTo(c: Component, unit: string, observer: Observer) {
    && (observer.Public? ==> c.external)
    && match c.unitId
       case Some(name) => if name != "" then name == unit else "service:" + c.id == unit
       case None => "service:" + c.id == unit
  }

  ghost predicate LeastOf(priority: Option<int>, members: seq<Component>) {
    match priority
    case None => forall m :: m in members ==> m.priority == None
    case Some(p) =>
      && (exists m :: m in members && m.priority == Some(p))
      && forall m :: m in members && m.priority.Some? ==> p <= m.priority.value
  }

  /** What is planned as a unit: the observed components that belong to it, in the order of the catalog, the least of
      their priorities and the endpoints their policies come to. */
  lemma PlannedMeaning(unit: ProbeUnit, components: seq<Component>, observer: Observer)
    requires Planned(unit, components, observer)
    ensures var members := Filter(components, (c: Component) => BelongsTo(c, unit.id, observer));
            && members != [] && unit.componentIds == IdsOf(members) && LeastOf(unit.priority, members)
            && UnitEndpoints(unit.id, members, observer) == Success(Endpoints(unit.primary, unit.secondaries))
  {
    var group := GroupOf(components, observer, unit.id);
    SameFilter(components, InGroup(observer, unit.id), (c: Component) => BelongsTo(c, unit.id, observer));
    LeastPriorityIsMinimum(group);
  }

  /** The units of a catalog: one for each key of an eligible component. */
  ghost predicate Plan(units: seq<ProbeUnit>, components: seq<Component>, observer: Observer) {
    && (forall u :: u in units ==> Planned(u, components, observer))
    && (forall key :: GroupOf(components, observer, key) != [] ==> exists u :: u in units && u.id == key)
  }

  method BuildProbeUnits(components: seq<Component>, observer: Observer) returns (r: Result<seq<ProbeUnit>, PlanError>)
    ensures r.Success? ==>
              && FirstError(components) == None && Plan(r.value, components, observer)
              && UniqueIds(r.value) && Sorted(r.value, UnitOrder)
    ensures r.Failure? ==>
              || FirstError(components) == Some(r.error)
              || (FirstError(components) == None && FirstUnresolved(components, observer, r.error))
  {
    hide GroupOf, KeysInOrder, UnitEndpoints, FirstError, Plan, UniqueIds, Sorted, LeastPriority;
    var grouped := GroupComponents(components, observer);
    if grouped.Failure? {
      return Failure(grouped.error);
    }
    var (order, groups) := grouped.value;
    var units: seq<ProbeUnit> := [];
    for i := 0 to |order|
      invariant |units| == i
      invariant forall j :: 0 <= j < i ==> units[j].id == order[j] && Planned(units[j], components, observer)
    {
      var key := order[i];
      var members := groups[key];
      assert members == GroupOf(components, observer, key);
      var endpoints := UnitEndpoints(key, members, observer);
      if endpoints.Failure? {
        assert FailsAt(order, i, components, observer, endpoints.error);
        return Failure(endpoints.error);
      }
      units := units + [UnitOf(key, members, endpoints.value)];
    }
    UnitsMakePlan(units, order, components, observer);
    SortedPlan(units, components, observer);
    r := Success(Sort(units, UnitOrder));
  }

  /** What the endpoints of a group come to. */
  function Resolution(key: string, components: seq<Component>, observer: Observer): Result<Endpoints, PlanError> {
    var members := GroupOf(components, observer, key);
    if members == [] then Success(Endpoints(None, [])) else UnitEndpoints(key, members, observer)
  }

  /** In the order of the keys, the endpoints of the first group that cannot be resolved fail for this
      reason. */
  ghost predicate FirstUnresolved(components: seq<Component>, observer: Observer, error: PlanError) {
    exists i :: FailsAt(KeysInOrder(components, observer), i, components, observer, error)
  }

  predicate FailsAt(keys: seq<string>, i: nat, components: seq<Component>, observer: Observer, error: PlanError) {
    && i < |keys| && Resolution(keys[i], components, observer) == Failure(error)
    && forall j :: 0 <= j < i ==> Resolution(keys[j], components, observer).Success?
  }

  /** The first eligible component with a key comes before all those with a later key. */
  lemma {:induction false} KeysByFirstAppearance(components: seq<Component>, observer: Observer, i: nat, j: nat)
    returns (p: nat)
    requires i < j < |KeysInOrder(components, observer)|
    ensures p < |components| && Eligible(components[p], observer)
    ensures Key(components[p]) == KeysInOrder(components, observer)[i]
    ensures forall q :: 0 <= q <= p && Eligible(components[q], observer) ==>
              Key(components[q]) != KeysInOrder(components, observer)[j]
  {
    var n := |components| - 1;
    var before, keys := KeysInOrder(components[..n], observer), KeysInOrder(components, observer);
    KeysAreDistinct(components, observer);
    if j < |before| {
      p := KeysByFirstAppearance(components[..n], observer, i, j);
    } else {
      assert keys == before + [Key(components[n])];
      p := KeyAppears(components[..n], observer, before[i]);
      forall q | 0 <= q <= p && Eligible(components[q], observer) ensures Key(components[q]) != keys[j] {
        KeysHold(components[..n], observer, q);
      }
    }
  }

  lemma {:induction false} KeysAreDistinct(components: seq<Component>, observer: Observer)
    ensures Distinct(KeysInOrder(components, observer))
  {
    if components != [] {
      KeysAreDistinct(components[..|components| - 1], observer);
    }
  }

  lemma {:induction false} KeyAppears(components: seq<Component>, observer: Observer, key: string) returns (p: nat)
    requires key in KeysInOrder(components, observer)
    ensures p < |components| && Eligible(components[p], observer) && Key(components[p]) == key
  {
    var n := |components| - 1;
    if key in KeysInOrder(components[..n], observer) {
      p := KeyAppears(components[..n], observer, key);
    } else {
      p := n;
    }
  }

  lemma {:induction false} KeysHold(components: seq<Component>, observer: Observer, q: nat)
    requires q < |components| && Eligible(components[q], observer)
    ensures Key(components[q]) in KeysInOrder(components, observer)
  {
    if q < |components| - 1 {
      KeysHold(components[..|components| - 1], observer, q);
    }
  }

  lemma UnitsMakePlan(units: seq<ProbeUnit>, order: seq<string>, components: seq<Component>, observer: Observer)
    requires Distinct(order) && |units| == |order|
    requires forall key :: key in order <==> GroupOf(components, observer, key) != []
    requires forall j :: 0 <= j < |units| ==> units[j].id == order[j] && Planned(units[j], components, observer)
    ensures Plan(units, components, observer) && UniqueIds(units)
  {
    forall key | GroupOf(components, observer, key) != [] ensures exists u :: u in units && u.id == key {
      var j :| 0 <= j < |order| && order[j] == key;
      assert units[j] in units;
    }
  }

  lemma SortedPlan(units: seq<ProbeUnit>, components: seq<Component>, observer: Observer)
    requires Plan(units, components, observer) && UniqueIds(units)
    ensures var sorted := Sort(units, UnitOrder);
            Plan(sorted, components, observer) && UniqueIds(sorted) && Sorted(sorted, UnitOrder)
  {
    var sorted := Sort(units, UnitOrder);
    TextLeIsTotalOrder();
    SortPermutes(units, UnitOrder);
    SortSorts(units, UnitOrder);
    SortKeepsDistinct(units, UnitOrder);
    forall i, j | 0 <= i < j < |sorted| ensures sorted[i].id != sorted[j].id {
      assert sorted[i] in units && sorted[j] in units && sorted[i] != sorted[j];
    }
  }

  // ---------------------------------------------------------------- what a plan guarantees

  lemma {:induction false} ValidIds(components: seq<Component>)
    requires FirstError(components) == None
    ensures forall i, j :: 0 <= i < j < |components| ==> components[i].id != components[j].id
    ensures forall i :: 0 <= i < |components| && components[i].unitId.Some? ==> !Blank(components[i].unitId.value)
  {
    if components != [] {
      var n := |components| - 1;
      var before := components[..n];
      ValidIds(before);
      assert forall i :: 0 <= i < n ==> before[i] == components[i];
      assert forall i :: 0 <= i < n ==> IdsOf(before)[i] in IdsOf(before);
    }
  }

  lemma UnitIn(units: seq<ProbeUnit>, components: seq<Component>, observer: Observer, component: Component)
    returns (u: ProbeUnit)
    requires Plan(units, components, observer) && component in components && Eligible(component, observer)
    ensures u in units && u.id == Key(component) && component.id in u.componentIds
  {
    var key := Key(component);
    var group := GroupOf(components, observer, key);
    FilterMembers(components, InGroup(observer, key));
    assert component in group;
    u :| u in units && u.id == key;
    assert Planned(u, components, observer);
    var i :| 0 <= i < |group| && group[i] == component;
    assert u.componentIds[i] == component.id;
  }

  lemma MemberOf(unit: ProbeUnit, components: seq<Component>, observer: Observer, id: string)
    returns (component: Component)
    requires Planned(unit, components, observer) && id in unit.componentIds
    ensures component in components && Eligible(component, observer) && Key(component) == unit.id && component.id == id
  {
    var group := GroupOf(components, observer, unit.id);
    var i :| 0 <= i < |group| && unit.componentIds[i] == id;
    component := group[i];
    FilterMembers(components, InGroup(observer, unit.id));
    assert component in group;
  }

  predicate HoldsId(units: seq<ProbeUnit>, unit: ProbeUnit, id: string) {
    unit in units && id in unit.componentIds
  }

  /** Units partition the eligible components: each is in one unit and in no other; nothing else is in
      any unit, so a public plan never holds a private component. */
  lemma UnitsPartition(units: seq<ProbeUnit>, components: seq<Component>, observer: Observer, component: Component)
    requires FirstError(components) == None && Plan(units, components, observer) && UniqueIds(units)
    requires component in components
    ensures Eligible(component, observer) <==> exists u :: HoldsId(units, u, component.id)
    ensures forall u, v :: HoldsId(units, u, component.id) && HoldsId(units, v, component.id) ==> u == v
  {
    ValidIds(components);
    if Eligible(component, observer) {
      var u := UnitIn(units, components, observer, component);
      assert HoldsId(units, u, component.id);
    }
    forall u | HoldsId(units, u, component.id)
      ensures Eligible(component, observer) && u.id == Key(component)
    {
      var c := MemberOf(u, components, observer, component.id);
      assert c == component;
    }
  }

  lemma OwnUnitsDiffer(a: string, b: string)
    requires OwnUnit(a) == OwnUnit(b)
    ensures a == b
  {
    assert a == OwnUnit(a)[8..] && b == OwnUnit(b)[8..];
  }

  /** A component without a declared unit is alone in its unit exactly when no other eligible component
      declares a unit under its reserved name. */
  lemma AloneUnlessNamed(units: seq<ProbeUnit>, components: seq<Component>, observer: Observer, component: Component,
                         unit: ProbeUnit)
    requires FirstError(components) == None && Plan(units, components, observer)
    requires component in components && Eligible(component, observer) && component.unitId.None?
    requires unit in units && unit.id == OwnUnit(component.id)
    ensures unit.componentIds == [component.id] <==>
              forall c :: c in components && Eligible(c, observer) ==> c.unitId != Some(OwnUnit(component.id))
  {
    var group := GroupOf(components, observer, OwnUnit(component.id));
    assert unit.componentIds == IdsOf(group) by {
      assert Planned(unit, components, observer);
    }
    GroupDistinct(components, observer, OwnUnit(component.id));
    GroupMembers(components, observer, component);
    AloneByGroup(group, component);
  }

  lemma GroupDistinct(components: seq<Component>, observer: Observer, key: string)
    requires FirstError(components) == None
    ensures Distinct(GroupOf(components, observer, key))
  {
    ValidIds(components);
    assert Distinct(components);
    FilterKeepsDistinct(components, InGroup(observer, key));
  }

  lemma AloneByGroup(group: seq<Component>, component: Component)
    requires Distinct(group) && component in group
    ensures IdsOf(group) == [component.id] <==> forall c :: c in group ==> c == component
  {
    if forall c :: c in group ==> c == component {
      AllOne(group, component);
    } else {
      assert |group| >= 2;
    }
  }

  /** Who shares the unit of a component without a declared one. */
  lemma GroupMembers(components: seq<Component>, observer: Observer, component: Component)
    requires FirstError(components) == None
    requires component in components && Eligible(component, observer) && component.unitId.None?
    ensures var group := GroupOf(components, observer, OwnUnit(component.id));
            forall c :: c in group <==>
              c == component || (c in components && Eligible(c, observer) && c.unitId == Some(OwnUnit(component.id)))
  {
    ValidIds(components);
    var name := OwnUnit(component.id);
    var group := GroupOf(components, observer, name);
    FilterMembers(components, InGroup(observer, name));
    forall c | c in components && Eligible(c, observer)
      ensures c in group <==> c == component || c.unitId == Some(name)
    {
      KeyIsOwn(c, component);
    }
  }

  lemma KeyIsOwn(c: Component, component: Component)
    requires component.unitId.None? && (c.unitId.Some? ==> !Blank(c.unitId.value))
    ensures Key(c) == OwnUnit(component.id) <==>
              c.unitId == Some(OwnUnit(component.id)) || (c.unitId.None? && c.id == component.id)
  {
    if Key(c) == OwnUnit(component.id) && c.unitId.None? {
      OwnUnitsDiffer(c.id, component.id);
    }
  }

  lemma AllOne<T>(group: seq<T>, x: T)
    requires Distinct(group) && x in group && forall c :: c in group ==> c == x
    ensures group == [x]
  {
    DistinctLength(group);
    assert Elements(group) == {x};
  }

  /** In how many cycles every unit is sure to be selected: within the limit, in each one. */
  function Turns(units: seq<ProbeUnit>, limit: nat): nat
    requires limit > 0
  {
    if |units| <= limit then 1 else Rounds(|Rotating(units, limit)|, Slots(units, limit))
  }

  /** Planning and selection together: within any ceil(rotating / slots) consecutive cycles, and within the
      limit in every single one, every eligible component has its unit selected in some cycle, whatever the
      positive limit. */
  lemma EveryComponentGetsItsTurn(units: seq<ProbeUnit>, components: seq<Component>, observer: Observer,
                                  component: Component, limit: nat, from: nat, n: nat)
    returns (unit: ProbeUnit, cycle: nat)
    requires Plan(units, components, observer) && UniqueIds(units)
    requires component in components && Eligible(component, observer)
    requires limit > 0 && n >= Turns(units, limit)
    ensures from <= cycle < from + n && component.id in unit.componentIds
    ensures SelectionOutcome(units, limit, cycle).Success? && unit in SelectionOutcome(units, limit, cycle).value
  {
    unit := UnitIn(units, components, observer, component);
    cycle := from;
    if |units| > limit {
      NeverStarves(units, limit, from, n);
      assert SelectedWithin(unit, units, limit, from, n);
      cycle :| from <= cycle < from + n && unit in UnitSelection(units, limit, cycle);
    }
  }

  /** A component that declares the reserved name of another one joins its unit. */
  lemma ReservedNameExample()
    ensures var components := [Component("a", false, None, None, None),
                               Component("b", false, Some("service:a"), None, None)];
            && FirstError(components) == None
            && Plan([ProbeUnit("service:a", ["a", "b"], None, Some("a"), [])], components, Internal)
  {
    var a, b := Component("a", false, None, None, None), Component("b", false, Some("service:a"), None, None);
    assert "service:a" == OwnUnit("a");
    TwoValid(a, b);
    TwoInOneUnit(a, b, "service:a");
  }

  lemma TwoValid(a: Component, b: Component)
    requires a == Component("a", false, None, None, None) && b == Component("b", false, Some("service:a"), None, None)
    ensures FirstError([a, b]) == None
  {
    assert [a, b][..1] == [a] && [a][..0] == [];
    assert FirstError([a]) == None;
    assert IdsOf([a]) == ["a"];
    assert "service:a"[0] in "service:a" && !Blank("service:a");
  }

  lemma TwoInOneUnit(a: Component, b: Component, name: string)
    requires a == Component("a", false, None, None, None) && b == Component("b", false, Some(name), None, None)
    requires name == OwnUnit("a")
    ensures Plan([ProbeUnit(name, ["a", "b"], None, Some("a"), [])], [a, b], Internal)
  {
    var components, unit := [a, b], ProbeUnit(name, ["a", "b"], None, Some("a"), []);
    forall key ensures GroupOf(components, Internal, key) == if key == name then components else [] {
      FilterAll(components, InGroup(Internal, key));
    }
    NoPolicies(a, b);
    assert IdsOf(components) == ["a", "b"];
    assert Planned(unit, components, Internal);
    assert unit in [unit];
  }

  lemma NoPolicies(a: Component, b: Component)
    requires a.policy == b.policy == None && a.priority == b.priority == None
    ensures Policies([a, b]) == [] && LeastPriority([a, b]) == None
  {
    assert [a, b][1..] == [b] && [b][1..] == [];
    assert Policies([]) == [] && LeastPriority([]) == None;
    assert Policies([b]) == [];
    assert LeastPriority([b]) == None;
  }
}
