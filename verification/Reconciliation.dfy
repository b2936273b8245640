/** Joining the declared services with the apps observed on TrueNAS (nabla/api/homelab_runtime.py). */
module Reconciliation {
  import opened Lists
  import opened Wrappers

  /** Empty strings stand for missing names and identities. */
  datatype Container = Container(service: string, details: string)

  datatype App = App(id: string, name: string, containers: seq<Container>, details: string)

  datatype Provider = TruenasApp | OtherProvider

  datatype Binding = Binding(provider: Provider, appId: string, containerService: string)

  datatype Declared = Declared(id: string, runtime: Option<Binding>)

  datatype Snapshot = Snapshot(reachable: bool, apps: seq<App>)

  datatype Condition = InSync | DeclaredOnly | BindingConflict | RuntimeUnknown | NotObserved

  datatype Row = Row(service: Declared, condition: Condition, matching: seq<string>, container: Option<Container>)

  datatype Status = Status(rows: seq<Row>, observedOnly: seq<App>, inSync: nat, declaredOnly: nat,
                           bindingConflicts: nat, runtimeUnknown: nat, notObserved: nat, hasDrift: bool)

  // ---------------------------------------------------------------- one service

  predicate HasContainer(app: App, service: string) {
    exists c :: c in app.containers && c.service == service
  }

  function FirstContainer(containers: seq<Container>, service: string): Option<Container> {
    if containers == [] then None
    else if containers[0].service == service then Some(containers[0])
    else FirstContainer(containers[1..], service)
  }

  function MatchRuntimeBinding(app: App, binding: Binding): (bool, Option<Container>) {
    var identified := binding.appId != "" && (app.id == binding.appId || app.name == binding.appId);
    if binding.appId != "" && !identified then (false, None)
    else if binding.containerService == "" then (true, None)
    else
      var found := FirstContainer(app.containers, binding.containerService);
      if found.Some? then (true, found) else (identified && app.containers == [], None)
  }

  lemma {:induction false} FirstContainerFinds(containers: seq<Container>, service: string)
    ensures FirstContainer(containers, service).Some? <==> exists c :: c in containers && c.service == service
    ensures FirstContainer(containers, service).Some? ==>
              FirstContainer(containers, service).value in containers &&
              FirstContainer(containers, service).value.service == service
    ensures forall i :: FirstAt(containers, service, i) ==> FirstContainer(containers, service) == Some(containers[i])
  {
    if containers != [] {
      FirstContainerFinds(containers[1..], service);
      assert containers == [containers[0]] + containers[1..];
      forall i | FirstAt(containers, service, i) && i > 0 ensures FirstAt(containers[1..], service, i - 1) {
      }
    }
  }

  /** The first container of the service. */
  predicate FirstAt(containers: seq<Container>, service: string, i: int) {
    && 0 <= i < |containers| && containers[i].service == service
    && forall j :: 0 <= j < i ==> containers[j].service != service
  }

  /** An app matches when it carries the identity the binding asks for, if any, and the container it asks
      for, if any; a stopped app without containers is matched by its identity alone. With it comes the first
      container of the service that the binding asks for. */
  lemma MatchMeaning(app: App, binding: Binding)
    ensures MatchRuntimeBinding(app, binding).0 <==>
              && (binding.appId == "" || app.id == binding.appId || app.name == binding.appId)
              && (|| binding.containerService == "" || HasContainer(app, binding.containerService)
                  || (binding.appId != "" && app.containers == []))
    ensures MatchRuntimeBinding(app, binding).1.Some? ==>
              MatchRuntimeBinding(app, binding).0 && binding.containerService != ""
    ensures forall i :: FirstAt(app.containers, binding.containerService, i) && binding.containerService != "" ==>
              (MatchRuntimeBinding(app, binding).0 ==>
                 MatchRuntimeBinding(app, binding).1 == Some(app.containers[i]))
  {
    FirstContainerFinds(app.containers, binding.containerService);
  }

  /** The service is bound to the TrueNAS runtime. */
  predicate Bound(service: Declared) {
    service.runtime.Some? && service.runtime.value.provider == TruenasApp
  }

  predicate Matches(service: Declared, app: App) {
    Bound(service) && MatchRuntimeBinding(app, service.runtime.value).0
  }

  function MatchesOf(service: Declared): App -> bool {
    (app: App) => Matches(service, app)
  }

  function Ids(apps: seq<App>): (ids: seq<string>)
    ensures |ids| == |apps| && forall i :: 0 <= i < |apps| ==> ids[i] == apps[i].id
  {
    seq(|apps|, i requires 0 <= i < |apps| => apps[i].id)
  }

  /** The condition of a service: how many apps match it, if it is bound and the runtime can be seen. */
  function ConditionOf(service: Declared, snapshot: Snapshot): Condition {
    if !Bound(service) then NotObserved
    else if !snapshot.reachable then RuntimeUnknown
    else
      var n := |Filter(snapshot.apps, MatchesOf(service))|;
      if n == 0 then DeclaredOnly else if n == 1 then InSync else BindingConflict
  }

  /** Some app of the snapshot matches, and possibly a second one at another place. */
  ghost predicate MatchedAt(service: Declared, snapshot: Snapshot, i: int) {
    0 <= i < |snapshot.apps| && Matches(service, snapshot.apps[i])
  }

  /** What the conditions say: not observed without a binding to the runtime, unknown while it is out of reach, and
      else whether no app matches, exactly one, or several. */
  lemma ConditionMeaning(service: Declared, snapshot: Snapshot)
    ensures var condition := ConditionOf(service, snapshot);
            var bound := service.runtime.Some? && service.runtime.value.provider.TruenasApp?;
            && (condition == NotObserved <==> !bound)
            && (condition == RuntimeUnknown <==> bound && !snapshot.reachable)
            && (condition == DeclaredOnly <==>
                  bound && snapshot.reachable && forall i :: !MatchedAt(service, snapshot, i))
            && (condition == BindingConflict <==>
                  bound && snapshot.reachable &&
                  exists i, j :: i < j && MatchedAt(service, snapshot, i) && MatchedAt(service, snapshot, j))
  {
    FilterLength(snapshot.apps, MatchesOf(service));
    forall i ensures MatchedAt(service, snapshot, i) <==>
                     0 <= i < |snapshot.apps| && MatchesOf(service)(snapshot.apps[i]) {
    }
  }

  /** None, one or several members pass a filter. */
  lemma {:induction false} FilterLength<T>(s: seq<T>, keep: T -> bool)
    ensures |Filter(s, keep)| == 0 <==> forall i :: 0 <= i < |s| ==> !keep(s[i])
    ensures |Filter(s, keep)| >= 2 <==> exists i, j :: 0 <= i < j < |s| && keep(s[i]) && keep(s[j])
  {
    if s != [] {
      var rest := s[1..];
      FilterLength(rest, keep);
      forall i | 0 <= i < |rest| ensures rest[i] == s[i + 1] {}
      if i, j :| 0 <= i < j < |rest| && keep(rest[i]) && keep(rest[j]) {
        assert keep(s[i + 1]) && keep(s[j + 1]);
      }
      if i :| 0 <= i < |rest| && keep(rest[i]) {
        assert keep(s[i + 1]);
      }
      if i, j :| 0 <= i < j < |s| && keep(s[i]) && keep(s[j]) {
        assert keep(rest[j - 1]) && (i > 0 ==> keep(rest[i - 1]));
      }
    }
  }

  /** The service claims this app of the snapshot. */
  predicate Claims(service: Declared, snapshot: Snapshot, app: App) {
    snapshot.reachable && Matches(service, app)
  }

  /** The service claims an app with this id. */
  ghost predicate ClaimsId(service: Declared, snapshot: Snapshot, id: string) {
    exists app :: app in snapshot.apps && Claims(service, snapshot, app) && app.id == id
  }

  /** The row of a service: its condition, the ids of all apps that match, and the container of the one app that
      does. */
  ghost predicate RowFor(row: Row, service: Declared, snapshot: Snapshot) {
    && row.service == service && row.condition == ConditionOf(service, snapshot)
    && row.matching == (if !snapshot.reachable || !Bound(service) then []
                        else Ids(Filter(snapshot.apps, MatchesOf(service))))
    && (row.condition == InSync ==>
          var matches := Filter(snapshot.apps, MatchesOf(service));
          matches != [] && row.container == MatchRuntimeBinding(matches[0], service.runtime.value).1)
    && (row.condition != InSync ==> row.container == None)
  }

  method ReconcileDeclared(service: Declared, snapshot: Snapshot) returns (row: Row, claimed: set<string>)
    ensures RowFor(row, service, snapshot)
    ensures forall id :: id in claimed <==> ClaimsId(service, snapshot, id)
  {
    claimed := {};
    if !Bound(service) {
      return Row(service, NotObserved, [], None), {};
    }
    if !snapshot.reachable {
      return Row(service, RuntimeUnknown, [], None), {};
    }
    var matches: seq<App> := [];
    var container: Option<Container> := None;
    for i := 0 to |snapshot.apps|
      invariant matches == Filter(snapshot.apps[..i], MatchesOf(service))
      invariant matches != [] ==> container == MatchRuntimeBinding(matches[|matches| - 1], service.runtime.value).1
    {
      var (matched, found) := MatchRuntimeBinding(snapshot.apps[i], service.runtime.value);
      assert snapshot.apps[..i + 1] == snapshot.apps[..i] + [snapshot.apps[i]];
      FilterAppend(snapshot.apps[..i], [snapshot.apps[i]], MatchesOf(service));
      FilterSingle(snapshot.apps[i], MatchesOf(service));
      if matched {
        matches := matches + [snapshot.apps[i]];
        container := found;
      }
    }
    assert snapshot.apps[..|snapshot.apps|] == snapshot.apps;
    FilterMembers(snapshot.apps, MatchesOf(service));
    claimed := set app | app in matches :: app.id;
    if |matches| == 0 {
      row := Row(service, DeclaredOnly, [], None);
    } else if |matches| > 1 {
      row := Row(service, BindingConflict, Ids(matches), None);
    } else {
      row := Row(service, InSync, Ids(matches), container);
    }
  }

  // ---------------------------------------------------------------- the whole status

  /** Some declared service claims an app with this id. */
  ghost predicate ClaimedId(services: seq<Declared>, snapshot: Snapshot, id: string) {
    exists service, app :: service in services && app in snapshot.apps && Claims(service, snapshot, app) && app.id == id
  }

  function HasCondition(condition: Condition): Row -> bool {
    (row: Row) => row.condition == condition
  }

  function Count(rows: seq<Row>, condition: Condition): nat {
    |Filter(rows, HasCondition(condition))|
  }

  ghost predicate RowsFor(rows: seq<Row>, services: seq<Declared>, snapshot: Snapshot) {
    && |rows| == |services|
    && forall i :: 0 <= i < |rows| ==>
         RowFor(rows[i], services[i], snapshot)
  }

  ghost predicate ClaimedBy(claimed: set<string>, services: seq<Declared>, snapshot: Snapshot) {
    forall id :: id in claimed <==> ClaimedId(services, snapshot, id)
  }

  function Outside(claimed: set<string>): App -> bool {
    (app: App) => app.id !in claimed
  }

  method ReconcileAll(services: seq<Declared>, snapshot: Snapshot) returns (rows: seq<Row>, claimed: set<string>)
    ensures RowsFor(rows, services, snapshot) && ClaimedBy(claimed, services, snapshot)
  {
    rows, claimed := [], {};
    for i := 0 to |services|
      invariant RowsFor(rows, services[..i], snapshot) && ClaimedBy(claimed, services[..i], snapshot)
    {
      var row, ids := ReconcileDeclared(services[i], snapshot);
      assert services[..i + 1] == services[..i] + [services[i]];
      ClaimMore(claimed, ids, services[..i], services[i], snapshot);
      rows := rows + [row];
      claimed := claimed + ids;
    }
    assert services[..|services|] == services;
  }

  lemma ClaimMore(claimed: set<string>, ids: set<string>, services: seq<Declared>, service: Declared,
                  snapshot: Snapshot)
    requires ClaimedBy(claimed, services, snapshot)
    requires forall id :: id in ids <==> ClaimsId(service, snapshot, id)
    ensures ClaimedBy(claimed + ids, services + [service], snapshot)
  {
    var more := services + [service];
    forall id ensures id in claimed + ids <==> ClaimedId(more, snapshot, id) {
      if ClaimedId(more, snapshot, id) {
        var s, app :| s in more && app in snapshot.apps && Claims(s, snapshot, app) && app.id == id;
        assert s in services || s == service;
      }
      if id in claimed {
        var s, app :| s in services && app in snapshot.apps && Claims(s, snapshot, app) && app.id == id;
        assert s in more;
      } else if id in ids {
        var app :| app in snapshot.apps && Claims(service, snapshot, app) && app.id == id;
        assert service in more;
      }
    }
  }

  method BuildStatus(services: seq<Declared>, snapshot: Snapshot) returns (status: Status)
    ensures StatusOf(status, services, snapshot)
  {
    var rows, claimed := ReconcileAll(services, snapshot);
    var observedOnly := Filter(snapshot.apps, Outside(claimed));
    FilterMembers(snapshot.apps, Outside(claimed));
    OutsideByClaims(snapshot.apps, claimed, services, snapshot);
    var declaredOnly, conflicts := Count(rows, DeclaredOnly), Count(rows, BindingConflict);
    status := Status(rows, observedOnly, Count(rows, InSync), declaredOnly, conflicts, Count(rows, RuntimeUnknown),
                     Count(rows, NotObserved), declaredOnly > 0 || conflicts > 0 || observedOnly != []);
  }

  ghost function Unclaimed(services: seq<Declared>, snapshot: Snapshot): App -> bool {
    (app: App) => !ClaimedId(services, snapshot, app.id)
  }

  lemma {:induction false} OutsideByClaims(apps: seq<App>, claimed: set<string>, services: seq<Declared>,
                                           snapshot: Snapshot)
    requires ClaimedBy(claimed, services, snapshot)
    ensures Filter(apps, Outside(claimed)) == Filter(apps, Unclaimed(services, snapshot))
  {
    if apps != [] {
      OutsideByClaims(apps[1..], claimed, services, snapshot);
    }
  }

  /** The status of a catalog and a snapshot. */
  ghost predicate StatusOf(status: Status, services: seq<Declared>, snapshot: Snapshot) {
    && RowsFor(status.rows, services, snapshot)
    && status.observedOnly == Filter(snapshot.apps, Unclaimed(services, snapshot))
    && status.inSync == Count(status.rows, InSync) && status.declaredOnly == Count(status.rows, DeclaredOnly)
    && status.bindingConflicts == Count(status.rows, BindingConflict)
    && status.runtimeUnknown == Count(status.rows, RuntimeUnknown)
    && status.notObserved == Count(status.rows, NotObserved)
    && (status.hasDrift <==> status.declaredOnly > 0 || status.bindingConflicts > 0 || status.observedOnly != [])
  }

  lemma {:induction false} ConditionsShareRows(rows: seq<Row>)
    ensures Count(rows, InSync) + Count(rows, DeclaredOnly) + Count(rows, BindingConflict)
          + Count(rows, RuntimeUnknown) + Count(rows, NotObserved) == |rows|
  {
    if rows != [] {
      ConditionsShareRows(rows[1..]);
    }
  }

  /** Every declared service is counted once: the five counts add up to the catalog. */
  lemma CountsAddUp(status: Status, services: seq<Declared>, snapshot: Snapshot)
    requires StatusOf(status, services, snapshot)
    ensures status.inSync + status.declaredOnly + status.bindingConflicts + status.runtimeUnknown + status.notObserved
         == |services|
  {
    ConditionsShareRows(status.rows);
  }

  ghost predicate UniqueApps(snapshot: Snapshot) {
    forall i, j :: 0 <= i < j < |snapshot.apps| ==> snapshot.apps[i].id != snapshot.apps[j].id
  }

  ghost predicate Claimed(services: seq<Declared>, snapshot: Snapshot, app: App) {
    exists service :: service in services && Claims(service, snapshot, app)
  }

  /** With unique app ids, every observed app is either claimed by a matching binding or listed exactly
      once as observed only. */
  lemma AppsClaimedOrListed(status: Status, services: seq<Declared>, snapshot: Snapshot, app: App)
    requires StatusOf(status, services, snapshot) && UniqueApps(snapshot) && app in snapshot.apps
    ensures multiset(status.observedOnly)[app] == if Claimed(services, snapshot, app) then 0 else 1
  {
    ClaimedByOwnId(services, snapshot, app);
    AppOnce(snapshot.apps, app);
    FilterCount(snapshot.apps, Unclaimed(services, snapshot), app);
  }

  lemma ClaimedByOwnId(services: seq<Declared>, snapshot: Snapshot, app: App)
    requires UniqueApps(snapshot) && app in snapshot.apps
    ensures ClaimedId(services, snapshot, app.id) <==> Claimed(services, snapshot, app)
  {
    if ClaimedId(services, snapshot, app.id) {
      var service, other :|
        service in services && other in snapshot.apps && Claims(service, snapshot, other) && other.id == app.id;
      assert other == app;
    }
  }

  lemma AppOnce(apps: seq<App>, app: App)
    requires app in apps && forall i, j :: 0 <= i < j < |apps| ==> apps[i].id != apps[j].id
    ensures multiset(apps)[app] == 1
  {
    assert Distinct(apps);
    DistinctByMultiset(apps);
    assert app in multiset(apps);
  }

  /** While the runtime is out of reach nothing is claimed, and whatever apps the snapshot holds are listed. */
  lemma UnreachableListsAll(status: Status, services: seq<Declared>, snapshot: Snapshot)
    requires StatusOf(status, services, snapshot) && !snapshot.reachable
    ensures status.observedOnly == snapshot.apps && status.inSync == 0
  {
    FilterAll(snapshot.apps, Unclaimed(services, snapshot));
    NoneCounted(status.rows, InSync);
    forall row | row in status.rows ensures row.condition != InSync {
      var i :| 0 <= i < |status.rows| && status.rows[i] == row;
      assert RowFor(status.rows[i], services[i], snapshot);
    }
  }

  /** Apps are conserved: the listed ones and the claimed ones make up the snapshot. */
  lemma AppsConserved(status: Status, services: seq<Declared>, snapshot: Snapshot)
    requires StatusOf(status, services, snapshot)
    ensures |status.observedOnly| + |Filter(snapshot.apps, ClaimedFilter(services, snapshot))| == |snapshot.apps|
  {
    Complement(snapshot.apps, services, snapshot);
  }

  ghost function ClaimedFilter(services: seq<Declared>, snapshot: Snapshot): App -> bool {
    (app: App) => ClaimedId(services, snapshot, app.id)
  }

  lemma {:induction false} Complement(apps: seq<App>, services: seq<Declared>, snapshot: Snapshot)
    ensures |Filter(apps, Unclaimed(services, snapshot))| + |Filter(apps, ClaimedFilter(services, snapshot))| == |apps|
  {
    if apps != [] {
      Complement(apps[1..], services, snapshot);
    }
  }

  /** With the runtime in sight and unique app ids there is no drift exactly when every bound service
      matches one app and no more, and every app is matched by some service. */
  lemma NoDriftMeaning(status: Status, services: seq<Declared>, snapshot: Snapshot)
    requires StatusOf(status, services, snapshot) && snapshot.reachable && UniqueApps(snapshot)
    ensures !status.hasDrift <==>
              && (forall s :: s in services && Bound(s) ==> |Filter(snapshot.apps, MatchesOf(s))| == 1)
              && (forall app :: app in snapshot.apps ==> Claimed(services, snapshot, app))
  {
    NoneDrifting(status.rows, services, snapshot);
    forall app | app in snapshot.apps
      ensures app in status.observedOnly <==> !Claimed(services, snapshot, app)
    {
      ClaimedByOwnId(services, snapshot, app);
      FilterMembers(snapshot.apps, Unclaimed(services, snapshot));
    }
    FilterMembers(snapshot.apps, Unclaimed(services, snapshot));
    if status.observedOnly != [] {
      assert status.observedOnly[0] in status.observedOnly;
    }
  }

  lemma NoneDrifting(rows: seq<Row>, services: seq<Declared>, snapshot: Snapshot)
    requires RowsFor(rows, services, snapshot) && snapshot.reachable
    ensures Count(rows, DeclaredOnly) == 0 && Count(rows, BindingConflict) == 0 <==>
            forall s :: s in services && Bound(s) ==> |Filter(snapshot.apps, MatchesOf(s))| == 1
  {
    NoneCounted(rows, DeclaredOnly);
    NoneCounted(rows, BindingConflict);
    forall i | 0 <= i < |services|
      ensures rows[i].condition in {DeclaredOnly, BindingConflict} <==>
              Bound(services[i]) && |Filter(snapshot.apps, MatchesOf(services[i]))| != 1
    {
    }
    forall i | 0 <= i < |services| ensures rows[i] in rows && services[i] in services {
    }
  }

  lemma NoneCounted(rows: seq<Row>, condition: Condition)
    ensures Count(rows, condition) == 0 <==> forall row :: row in rows ==> row.condition != condition
  {
    FilterMembers(rows, HasCondition(condition));
    if Count(rows, condition) > 0 {
      assert Filter(rows, HasCondition(condition))[0] in Filter(rows, HasCondition(condition));
    }
  }
}
