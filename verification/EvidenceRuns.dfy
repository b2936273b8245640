/** What the evidence store keeps over whole runs of merges
    (nabla/api/homelab_probe_evidence.py together with nabla/api/homelab_probe_policy.py). */
module EvidenceRuns {
  import opened ProbeEvidence
  import opened ProbePolicy
  import opened Wrappers

  /** One refresh: services are selected, probed, and their rows merged. */
  datatype Refresh = Refresh(selectedAt: real, merge: MergeInput)

  /** `stores[i]` is the store before the `i`-th refresh of the run, whatever the store was at first. */
  ghost predicate Behaviour(stores: seq<Store>, run: seq<Refresh>) {
    |stores| == |run| + 1 && forall i :: 0 <= i < |run| ==> Step(stores, run, i)
  }

  ghost predicate Step(stores: seq<Store>, run: seq<Refresh>, i: nat)
    requires |stores| == |run| + 1 && i < |run|
  {
    stores[i + 1] == Merged(stores[i], run[i].merge)
  }

  // ---------------------------------------------------------------- what one merge does to one id

  ghost predicate Holds(store: Store, id: string, since: real) {
    id in store && store[id].recordedAt >= since
  }

  ghost predicate NoneLaterThan(store: Store, clock: real) {
    forall id :: id in store ==> store[id].recordedAt <= clock
  }

  lemma {:induction false} ImportKeeps(store: Store, m: MergeInput, n: nat, id: string, since: real)
    requires n <= |m.shared| && Holds(store, id, since)
    ensures Holds(ImportFirst(store, m, n), id, since)
  {
    if n > 0 {
      ImportKeeps(store, m, n - 1, id, since);
    }
  }

  /** An entry that an import adds is inside its retention; one it replaces was older. */
  lemma {:induction false} ImportAdds(store: Store, m: MergeInput, n: nat, id: string)
    requires n <= |m.shared| && id in ImportFirst(store, m, n)
    ensures var now := ImportFirst(store, m, n)[id];
            || (id in store && now == store[id])
            || (IdIn(m.eligible, id) && now.recordedAt <= m.clock
                && m.clock - now.recordedAt < Retention(CadenceFor(m.scope, m.eligible, id))
                && (id in store ==> now.recordedAt > store[id].recordedAt))
  {
    if n > 0 {
      var before := ImportFirst(store, m, n - 1);
      if id in before {
        ImportAdds(store, m, n - 1, id);
      }
      var offered := Offered(m.shared[n - 1], m);
      if id !in before || ImportFirst(store, m, n)[id] != before[id] {
        OfferedIsRecent(m.shared[n - 1], m);
        if id in store {
          ImportKeeps(store, m, n - 1, id, store[id].recordedAt);
        }
      }
    }
  }

  lemma OfferedIsRecent(envelope: SharedEntry, m: MergeInput)
    requires Offered(envelope, m).Some?
    ensures var entry := Offered(envelope, m).value;
            && IdIn(m.eligible, entry.row.id) && entry.recordedAt <= m.clock
            && m.clock - entry.recordedAt < Retention(CadenceFor(m.scope, m.eligible, entry.row.id))
  {
  }

  lemma RowOfId(rows: seq<ProbeRow>, id: string)
    ensures id in RowsById(rows) ==> id != "" && RowsById(rows)[id].id == id && RowsById(rows)[id] in rows
    ensures id !in RowsById(rows) ==> id == "" || forall r :: r in rows ==> r.id != id
  {
    if rows != [] {
      RowOfId(rows[..|rows| - 1], id);
    }
  }

  ghost predicate Probed(m: MergeInput, id: string) {
    id in RowsById(m.current) && !RowsById(m.current)[id].timedOut
  }

  /** The effect of one merge on one id: a probe that came back replaces the entry; otherwise, and in
      particular after a timeout, the imported entry stays or goes by its retention alone. */
  lemma MergeAt(store: Store, m: MergeInput, id: string)
    ensures var imported, after := Imported(store, m), Merged(store, m);
            if Probed(m, id) then id in after && after[id] == Fresh(RowsById(m.current)[id], id, m)
            else
              && (id in after <==> id in imported && Survives(imported[id], id, m))
              && (id in after ==> after[id] == imported[id].(interval := CadenceFor(m.scope, m.eligible, id)))
  {
  }

  /** Every surviving entry is younger than its retention. */
  lemma SurvivorsAreYoung(store: Store, m: MergeInput, id: string)
    requires id in Merged(store, m)
    ensures m.clock - Merged(store, m)[id].recordedAt < Retention(Merged(store, m)[id].interval)
  {
    MergeAt(store, m, id);
  }

  // ---------------------------------------------------------------- recorded times never go back

  /** A fixed catalog and a clock that does not run backwards. */
  ghost predicate SteadyRun(run: seq<Refresh>, scope: Scope, eligible: seq<Service>) {
    && (forall i :: 0 <= i < |run| ==> run[i].merge.eligible == eligible && run[i].merge.scope == scope)
    && (forall i, j :: 0 <= i <= j < |run| ==> run[i].merge.clock <= run[j].merge.clock)
  }

  lemma MergeFromThePast(store: Store, m: MergeInput, clock: real)
    requires NoneLaterThan(store, clock) && clock <= m.clock
    ensures NoneLaterThan(Merged(store, m), m.clock)
  {
    var after := Merged(store, m);
    forall id | id in after ensures after[id].recordedAt <= m.clock {
      MergeAt(store, m, id);
      if !Probed(m, id) && m.scope == Public {
        ImportAdds(store, m, |m.shared|, id);
      }
    }
  }

  lemma {:induction false} NothingFromTheFuture(stores: seq<Store>, run: seq<Refresh>, scope: Scope,
                                                eligible: seq<Service>, n: nat)
    requires Behaviour(stores, run) && SteadyRun(run, scope, eligible) && n < |run|
    requires NoneLaterThan(stores[0], run[0].merge.clock)
    ensures NoneLaterThan(stores[n], run[n].merge.clock)
  {
    if n > 0 {
      NothingFromTheFuture(stores, run, scope, eligible, n - 1);
      assert Step(stores, run, n - 1);
      MergeFromThePast(stores[n - 1], run[n - 1].merge, run[n - 1].merge.clock);
    }
  }

  /** After a record made at `since` is gone, its retention has run out. */
  ghost predicate Marked(store: Store, id: string, since: real, scope: Scope, eligible: seq<Service>, clock: real) {
    if id in store then store[id].recordedAt >= since
    else !IdIn(eligible, id) || clock - since >= Retention(CadenceFor(scope, eligible, id))
  }

  lemma MarkSurvivesMerge(store: Store, m: MergeInput, id: string, since: real, clock: real)
    requires Marked(store, id, since, m.scope, m.eligible, clock) && since <= m.clock && clock <= m.clock
    ensures Marked(Merged(store, m), id, since, m.scope, m.eligible, m.clock)
  {
    MergeAt(store, m, id);
    if !Probed(m, id) {
      var imported := Imported(store, m);
      if id in store && m.scope == Public {
        ImportKeeps(store, m, |m.shared|, id, since);
      }
      if id in imported && m.scope == Public {
        ImportAdds(store, m, |m.shared|, id);
      }
    }
  }

  lemma {:induction false} MarkStays(stores: seq<Store>, run: seq<Refresh>, scope: Scope, eligible: seq<Service>,
                                     i: nat, j: nat, id: string, since: real)
    requires Behaviour(stores, run) && SteadyRun(run, scope, eligible) && i < j <= |run|
    requires Holds(stores[i], id, since) && since <= run[i].merge.clock
    ensures Marked(stores[j], id, since, scope, eligible, run[j - 1].merge.clock)
  {
    assert Step(stores, run, j - 1);
    if i == j - 1 {
      MarkSurvivesMerge(stores[i], run[i].merge, id, since, run[i].merge.clock);
    } else {
      MarkStays(stores, run, scope, eligible, i, j - 1, id, since);
      MarkSurvivesMerge(stores[j - 1], run[j - 1].merge, id, since, run[j - 2].merge.clock);
    }
  }

  /** Whatever is probed, times out, expires or is imported again: the time recorded for an id never
      goes back. */
  lemma RecordedNeverGoesBack(stores: seq<Store>, run: seq<Refresh>, scope: Scope, eligible: seq<Service>,
                              i: nat, j: nat, id: string)
    requires Behaviour(stores, run) && SteadyRun(run, scope, eligible) && i <= j <= |run|
    requires run != [] ==> NoneLaterThan(stores[0], run[0].merge.clock)
    requires id in stores[i] && id in stores[j]
    ensures stores[i][id].recordedAt <= stores[j][id].recordedAt
  {
    if i < j {
      NothingFromTheFuture(stores, run, scope, eligible, i);
      MarkStays(stores, run, scope, eligible, i, j, id, stores[i][id].recordedAt);
    }
  }

  // ---------------------------------------------------------------- sampled runs

  function Bucket(refresh: Refresh): int {
    BucketOf(refresh.selectedAt)
  }

  function SelectedBy(refresh: Refresh): seq<Service> {
    SelectProbeSubset(refresh.merge.eligible, LimitOf(refresh.merge.scope), refresh.selectedAt)
  }

  /** Every selected service, and no other, returned a row, and no probe timed out. */
  ghost predicate Complete(refresh: Refresh) {
    && (forall row :: row in refresh.merge.current ==> !row.timedOut && IdIn(SelectedBy(refresh), row.id))
    && (forall s :: s in SelectedBy(refresh) ==> exists row :: row in refresh.merge.current && row.id == s.id)
  }

  /** Ids are unique and nonempty. The catalog's validators require more of them, which is not needed here. */
  ghost predicate ValidCatalog(eligible: seq<Service>) {
    UniqueIds(eligible) && forall s :: s in eligible ==> s.id != ""
  }

  /** A complete refresh of the catalog. */
  ghost predicate WholeRefresh(refresh: Refresh, scope: Scope, eligible: seq<Service>) {
    refresh.merge.eligible == eligible && refresh.merge.scope == scope && Complete(refresh)
  }

  /** One that is merged before the end of the bucket after the one it selected in. */
  ghost predicate ValidRefresh(refresh: Refresh, scope: Scope, eligible: seq<Service>) {
    && WholeRefresh(refresh, scope, eligible)
    && refresh.selectedAt <= refresh.merge.clock < Seconds(Bucket(refresh) + 2)
  }

  ghost predicate Follows(before: Refresh, after: Refresh) {
    Bucket(before) <= Bucket(after) <= Bucket(before) + 1 && before.merge.clock <= after.merge.clock
  }

  /** Refreshes of one catalog, in order, with one in each 30-second bucket from the first to the last. */
  ghost predicate ValidRun(run: seq<Refresh>, scope: Scope, eligible: seq<Service>) {
    && ValidCatalog(eligible)
    && (forall i :: 0 <= i < |run| ==> ValidRefresh(run[i], scope, eligible))
    && (forall i :: 0 <= i < |run| - 1 ==> Follows(run[i], run[i + 1]))
  }

  lemma BucketStart(now: real)
    ensures Seconds(BucketOf(now)) <= now
  {
    var b := BucketOf(now);
    assert b as real <= now / 30.0;
  }

  lemma SelectionOfRefresh(refresh: Refresh, scope: Scope, eligible: seq<Service>, service: Service)
    requires ValidCatalog(eligible) && WholeRefresh(refresh, scope, eligible) && service in eligible
    ensures service in SelectedBy(refresh) <==> service in Selection(eligible, LimitOf(scope), Bucket(refresh))
    ensures service in SelectedBy(refresh) <==> Probed(refresh.merge, service.id)
    ensures service in SelectedBy(refresh) <==> service.id in RowsById(refresh.merge.current)
  {
    UniqueOfUnique(eligible);
    SelectionFillsLimit(eligible, LimitOf(scope), Bucket(refresh));
    UniqueIdsDistinct(eligible);
    RowOfId(refresh.merge.current, service.id);
    assert Complete(refresh);
    if IdIn(SelectedBy(refresh), service.id) {
      var s :| s in SelectedBy(refresh) && s.id == service.id;
      assert s == service;
    }
  }

  /** Buckets rise by at most one, so none between two refreshes is skipped. */
  lemma {:induction false} RefreshInBucket(run: seq<Refresh>, scope: Scope, eligible: seq<Service>, p: nat, n: nat,
                                           b: int)
    returns (q: nat)
    requires ValidRun(run, scope, eligible) && p <= n < |run| && Bucket(run[p]) < b <= Bucket(run[n])
    ensures p < q <= n && Bucket(run[q]) == b
  {
    if Bucket(run[n]) == b {
      q := n;
    } else {
      assert Follows(run[n - 1], run[n - 1 + 1]);
      q := RefreshInBucket(run, scope, eligible, p, n - 1, b);
    }
  }

  /** No refresh after `p` up to `n` is a hit. */
  ghost predicate Missed(hits: seq<bool>, p: nat, n: nat)
    requires n < |hits|
  {
    forall q :: p < q <= n ==> !hits[q]
  }

  /** Which refreshes select the service. */
  function Hits(run: seq<Refresh>, service: Service): seq<bool> {
    seq(|run|, i requires 0 <= i < |run| => service in SelectedBy(run[i]))
  }

  /** A stretch of refreshes without a service spans fewer buckets than its interval. */
  lemma UnselectedStretch(run: seq<Refresh>, scope: Scope, eligible: seq<Service>, service: Service,
                          k: nat, p: nat, n: nat)
    requires ValidRun(run, scope, eligible) && p <= n < |run| && service in eligible
    requires LeastInterval(service, eligible, LimitOf(scope), k) && Missed(Hits(run, service), p, n)
    ensures Bucket(run[n]) < Bucket(run[p]) + k
  {
    if Bucket(run[n]) >= Bucket(run[p]) + k {
      var q := HitInSpan(run, scope, eligible, service, k, p, n);
    }
  }

  lemma HitInSpan(run: seq<Refresh>, scope: Scope, eligible: seq<Service>, service: Service, k: nat, p: nat, n: nat)
    returns (q: nat)
    requires ValidRun(run, scope, eligible) && p <= n < |run| && service in eligible
    requires LeastInterval(service, eligible, LimitOf(scope), k) && Bucket(run[n]) >= Bucket(run[p]) + k
    ensures p < q <= n && Hits(run, service)[q]
  {
    assert ProbedEvery(service, eligible, LimitOf(scope), k);
    assert ProbedWithin(service, eligible, LimitOf(scope), Bucket(run[p]) + 1, k);
    var b :| Bucket(run[p]) + 1 <= b < Bucket(run[p]) + 1 + k && service in Selection(eligible, LimitOf(scope), b);
    q := RefreshInBucket(run, scope, eligible, p, n, b);
    SelectionOfRefresh(run[q], scope, eligible, service);
  }

  /** Within the longest wait an entry neither goes stale nor outlives its retention, as long as the
      interval is at most 119 buckets. */
  lemma WaitIsShort(k: nat, age: real)
    requires 1 <= k <= 119 && age < Seconds(k + 1)
    ensures var interval := Some(Seconds(k));
            age < StaleAfter(interval) && age < Retention(interval)
  {
  }

  lemma AgeInStretch(run: seq<Refresh>, scope: Scope, eligible: seq<Service>, service: Service, k: nat, p: nat, n: nat)
    requires ValidRun(run, scope, eligible) && p <= n < |run| && service in eligible
    requires LeastInterval(service, eligible, LimitOf(scope), k) && Missed(Hits(run, service), p, n)
    ensures run[n].merge.clock - run[p].merge.clock < Seconds(k + 1)
  {
    UnselectedStretch(run, scope, eligible, service, k, p, n);
    BucketStart(run[p].selectedAt);
    assert ValidRefresh(run[n], scope, eligible) && ValidRefresh(run[p], scope, eligible);
    assert Bucket(run[n]) + 2 <= Bucket(run[p]) + (k + 1);
  }

  /** A service's record, with the interval the catalog gives it. */
  ghost predicate Records(store: Store, id: string, since: real, k: nat) {
    Holds(store, id, since) && store[id].interval == Some(Seconds(k))
  }

  lemma ProbeRecords(store: Store, m: MergeInput, id: string, k: nat)
    requires Probed(m, id) && CadenceFor(m.scope, m.eligible, id) == Some(Seconds(k))
    ensures Records(Merged(store, m), id, m.clock, k)
  {
    MergeAt(store, m, id);
  }

  lemma RecordSurvivesMerge(store: Store, m: MergeInput, id: string, since: real, k: nat)
    requires !Probed(m, id) && IdIn(m.eligible, id) && Holds(store, id, since)
    requires CadenceFor(m.scope, m.eligible, id) == Some(Seconds(k))
    requires 1 <= k <= 119 && m.clock - since < Seconds(k + 1)
    ensures Records(Merged(store, m), id, since, k)
  {
    MergeAt(store, m, id);
    if m.scope == Public {
      ImportKeeps(store, m, |m.shared|, id, since);
    }
    WaitIsShort(k, m.clock - since);
  }

  /** What a run promises about one service: its place in the catalog and its interval. */
  ghost predicate Scheduled(service: Service, scope: Scope, eligible: seq<Service>, k: nat) {
    && UniqueIds(eligible)
    && service in eligible && 1 <= k <= 119
    && LeastInterval(service, eligible, LimitOf(scope), k)
    && CadenceFor(scope, eligible, service.id) == Some(Seconds(k))
  }

  /** Between two hits, and after the last one, less than `k + 1` buckets pass. */
  ghost predicate ShortWaits(run: seq<Refresh>, hits: seq<bool>, k: nat)
    requires |hits| == |run|
  {
    forall p, n :: 0 <= p <= n < |run| && Missed(hits, p, n) ==>
      run[n].merge.clock - run[p].merge.clock < Seconds(k + 1)
  }

  ghost predicate Tracks(run: seq<Refresh>, hits: seq<bool>, id: string, k: nat) {
    && |hits| == |run|
    && forall i :: 0 <= i < |run| ==>
         && (hits[i] <==> Probed(run[i].merge, id))
         && IdIn(run[i].merge.eligible, id)
         && CadenceFor(run[i].merge.scope, run[i].merge.eligible, id) == Some(Seconds(k))
  }

  /** Once probed, a service stays recorded, at least as recently as its last probe. */
  lemma {:induction false} StaysRecorded(stores: seq<Store>, run: seq<Refresh>, hits: seq<bool>, id: string, k: nat,
                                         first: nat, n: nat) returns (p: nat)
    requires Behaviour(stores, run) && Tracks(run, hits, id, k) && ShortWaits(run, hits, k) && 1 <= k <= 119
    requires first <= n < |run| && hits[first]
    ensures first <= p <= n && Missed(hits, p, n)
    ensures Records(stores[n + 1], id, run[p].merge.clock, k)
    decreases n
  {
    assert Step(stores, run, n);
    if hits[n] {
      p := n;
      ProbeRecords(stores[n], run[n].merge, id, k);
    } else {
      p := StaysRecorded(stores, run, hits, id, k, first, n - 1);
      assert Missed(hits, p, n);
      RecordSurvivesMerge(stores[n], run[n].merge, id, run[p].merge.clock, k);
    }
  }

  lemma ScheduledTracks(run: seq<Refresh>, scope: Scope, eligible: seq<Service>, service: Service, k: nat)
    requires ValidRun(run, scope, eligible) && Scheduled(service, scope, eligible, k)
    ensures Tracks(run, Hits(run, service), service.id, k) && ShortWaits(run, Hits(run, service), k)
  {
    forall i | 0 <= i < |run| ensures Hits(run, service)[i] <==> Probed(run[i].merge, service.id) {
      SelectionOfRefresh(run[i], scope, eligible, service);
    }
    forall p, n | 0 <= p <= n < |run| && Missed(Hits(run, service), p, n)
      ensures run[n].merge.clock - run[p].merge.clock < Seconds(k + 1)
    {
      AgeInStretch(run, scope, eligible, service, k, p, n);
    }
  }

  // ---------------------------------------------------------------- evidence never goes stale

  lemma ReportAt(store: Store, m: MergeInput, id: string)
    ensures id in Report(store, m) <==> id in Kept(Imported(store, m), m) || id in RowsById(m.current)
    ensures Probed(m, id) ==>
              Report(store, m)[id] == Annotated(Fresh(RowsById(m.current)[id], id, m), Origin, m.clock, None)
    ensures id in Report(store, m) && id !in RowsById(m.current) ==>
            id in Merged(store, m) && Report(store, m)[id] == Annotated(Merged(store, m)[id], Memory, m.clock, None)
  {
  }

  lemma ReportedFresh(store: Store, m: MergeInput, id: string, since: real, k: nat)
    requires 1 <= k <= 119 && Records(Merged(store, m), id, since, k)
    requires m.clock - since < Seconds(k + 1)
    requires id in RowsById(m.current) ==> Probed(m, id)
    ensures id in Report(store, m) && !Report(store, m)[id].stale
  {
    ReportAt(store, m, id);
    MergeAt(store, m, id);
    WaitIsShort(k, m.clock - since);
    WaitIsShort(k, 0.0);
  }

  /** A service's evidence is reported, and not stale, at every refresh from its first probe on. */
  lemma ServiceStaysFresh(stores: seq<Store>, run: seq<Refresh>, scope: Scope, eligible: seq<Service>,
                          service: Service, k: nat, first: nat, n: nat)
    requires Behaviour(stores, run) && ValidRun(run, scope, eligible) && Scheduled(service, scope, eligible, k)
    requires first <= n < |run| && service in SelectedBy(run[first])
    ensures service.id in Report(stores[n], run[n].merge) && !Report(stores[n], run[n].merge)[service.id].stale
  {
    var hits := Hits(run, service);
    ScheduledTracks(run, scope, eligible, service, k);
    var p := StaysRecorded(stores, run, hits, service.id, k, first, n);
    assert Step(stores, run, n);
    RowOfId(run[n].merge.current, service.id);
    assert Complete(run[n]);
    ReportedFresh(stores[n], run[n].merge, service.id, run[p].merge.clock, k);
  }

  lemma {:induction false} CadenceOfService(scope: Scope, eligible: seq<Service>, n: nat, service: Service)
    requires UniqueIds(eligible) && n <= |eligible| && service in eligible[..n]
    ensures LastEstimate(scope, eligible, n, service.id) == EstimatedProbeInterval(service, eligible, LimitOf(scope))
  {
    if eligible[n - 1].id == service.id {
      assert eligible[n - 1] == service;
    } else {
      assert eligible[..n] == eligible[..n - 1] + [eligible[n - 1]];
      CadenceOfService(scope, eligible, n - 1, service);
    }
  }

  const LONGEST_SAFE_CYCLE := 3570.0  // 119 buckets of 30 seconds

  /** The estimate of a service that is probed at all, as a number of buckets. */
  lemma IntervalInBuckets(service: Service, eligible: seq<Service>, limit: int, from: int, n: nat) returns (k: nat)
    requires UniqueIds(eligible) && service in eligible && ProbedWithin(service, eligible, limit, from, n)
    ensures LeastInterval(service, eligible, limit, k) && k >= 1
    ensures EstimatedProbeInterval(service, eligible, limit) == Some(Seconds(k))
  {
    UniqueOfUnique(eligible);
    IntervalIsTight(service, eligible, limit);
    k :| LeastInterval(service, eligible, limit, k) &&
         EstimatedProbeInterval(service, eligible, limit).value == Seconds(k);
    assert !ProbedWithin(service, eligible, limit, 0, 0);
    assert !ProbedEvery(service, eligible, limit, 0);
  }

  lemma ProbedWithinSafeCycle(scope: Scope, eligible: seq<Service>, service: Service, cycle: real)
    requires UniqueIds(eligible) && service in eligible
    requires EstimatedFullCycle(eligible, LimitOf(scope)) == Some(cycle) && cycle <= LONGEST_SAFE_CYCLE
    ensures ProbedEvery(service, eligible, LimitOf(scope), 119)
  {
    UniqueOfUnique(eligible);
    forall from: int ensures ProbedWithin(service, eligible, LimitOf(scope), from, 119) {
      FullCycleIsTight(eligible, LimitOf(scope), from, 119);
      assert CoversAll(eligible, LimitOf(scope), from, 119);
    }
  }

  /** A catalog whose advertised full cycle is short enough schedules every service. */
  lemma EveryServiceScheduled(scope: Scope, eligible: seq<Service>, service: Service, cycle: real) returns (k: nat)
    requires ValidCatalog(eligible) && service in eligible
    requires EstimatedFullCycle(eligible, LimitOf(scope)) == Some(cycle) && cycle <= LONGEST_SAFE_CYCLE
    ensures Scheduled(service, scope, eligible, k)
  {
    ProbedWithinSafeCycle(scope, eligible, service, cycle);
    assert ProbedWithin(service, eligible, LimitOf(scope), 0, 119);
    k := IntervalInBuckets(service, eligible, LimitOf(scope), 0, 119);
    assert eligible[..|eligible|] == eligible;
    CadenceOfService(scope, eligible, |eligible|, service);
  }

  /** The run has lasted a full cycle by its `n`-th refresh. */
  ghost predicate Late(run: seq<Refresh>, n: nat, cycle: real) {
    n < |run| && Seconds(Bucket(run[n]) - Bucket(run[0]) + 1) >= cycle
  }

  /** Exactly one row per eligible service, none of them stale. */
  ghost predicate AllFresh(report: map<string, AnnotatedRow>, eligible: seq<Service>) {
    && (forall id :: id in report <==> IdIn(eligible, id))
    && (forall id :: id in report ==> !report[id].stale)
  }

  lemma ReportOnlyEligible(store: Store, run: seq<Refresh>, scope: Scope, eligible: seq<Service>, n: nat, id: string)
    requires ValidRun(run, scope, eligible) && n < |run| && id in Report(store, run[n].merge)
    ensures IdIn(eligible, id)
  {
    var m := run[n].merge;
    ReportAt(store, m, id);
    RowOfId(m.current, id);
    assert Complete(run[n]);
    if id in RowsById(m.current) {
      UniqueOfUnique(eligible);
      SelectionFillsLimit(eligible, LimitOf(scope), Bucket(run[n]));
      var s :| s in SelectedBy(run[n]) && s.id == id;
      assert s in eligible;
    }
  }

  lemma {:induction false} BucketsRise(run: seq<Refresh>, scope: Scope, eligible: seq<Service>, n: nat)
    requires ValidRun(run, scope, eligible) && n < |run|
    ensures Bucket(run[0]) <= Bucket(run[n])
  {
    if n > 0 {
      BucketsRise(run, scope, eligible, n - 1);
      assert Follows(run[n - 1], run[n - 1 + 1]);
    }
  }

  lemma ProbedByThen(run: seq<Refresh>, scope: Scope, eligible: seq<Service>, service: Service, n: nat, cycle: real)
    returns (first: nat)
    requires ValidRun(run, scope, eligible) && service in eligible && Late(run, n, cycle)
    requires EstimatedFullCycle(eligible, LimitOf(scope)) == Some(cycle)
    ensures first <= n && service in SelectedBy(run[first])
  {
    BucketsRise(run, scope, eligible, n);
    var from, span := Bucket(run[0]), Bucket(run[n]) - Bucket(run[0]) + 1;
    UniqueOfUnique(eligible);
    FullCycleIsTight(eligible, LimitOf(scope), from, span);
    assert ProbedWithin(service, eligible, LimitOf(scope), from, span);
    var b :| from <= b < from + span && service in Selection(eligible, LimitOf(scope), b);
    if b == from {
      first := 0;
    } else {
      first := RefreshInBucket(run, scope, eligible, 0, n, b);
    }
    SelectionOfRefresh(run[first], scope, eligible, service);
  }

  /** From the end of the first full cycle on, every report has exactly one row per eligible service
      and none is stale, whatever envelopes are shared and whatever the store held before. */
  lemma EvidenceStaysFresh(stores: seq<Store>, run: seq<Refresh>, scope: Scope, eligible: seq<Service>, n: nat,
                           cycle: real)
    requires Behaviour(stores, run) && ValidRun(run, scope, eligible)
    requires EstimatedFullCycle(eligible, LimitOf(scope)) == Some(cycle) && cycle <= LONGEST_SAFE_CYCLE
    requires Late(run, n, cycle)
    ensures AllFresh(Report(stores[n], run[n].merge), eligible)
  {
    var report := Report(stores[n], run[n].merge);
    forall id ensures id in report ==> IdIn(eligible, id) {
      if id in report {
        ReportOnlyEligible(stores[n], run, scope, eligible, n, id);
      }
    }
    forall s | s in eligible ensures s.id in report && !report[s.id].stale {
      var k := EveryServiceScheduled(scope, eligible, s, cycle);
      var first := ProbedByThen(run, scope, eligible, s, n, cycle);
      ServiceStaysFresh(stores, run, scope, eligible, s, k, first, n);
    }
  }
}
