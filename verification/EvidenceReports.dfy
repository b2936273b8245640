/** What the evidence report says about a service, in terms of the run that led to it
    (nabla/api/homelab_probe_evidence.py). */
module EvidenceReports {
  import opened EvidenceRuns
  import opened ProbeEvidence
  import opened ProbePolicy
  import opened Reals
  import opened Wrappers

  ghost predicate NothingShared(run: seq<Refresh>) {
    forall i :: 0 <= i < |run| ==> run[i].merge.shared == []
  }

  ghost predicate OneCatalog(run: seq<Refresh>, scope: Scope, eligible: seq<Service>) {
    forall i :: 0 <= i < |run| ==> run[i].merge.scope == scope && run[i].merge.eligible == eligible
  }

  /** The store holds for the id exactly what refresh `m` recorded. */
  ghost predicate HoldsFrom(store: Store, id: string, m: MergeInput) {
    Probed(m, id) && id in store && store[id] == Fresh(RowsById(m.current)[id], id, m)
  }

  /** A merge that does not probe the id and imports nothing leaves a young record as it is. */
  lemma MergeKeepsRecord(store: Store, m: MergeInput, id: string, k: nat, from: MergeInput)
    requires HoldsFrom(store, id, from) && !Probed(m, id) && m.shared == [] && IdIn(m.eligible, id)
    requires m.scope == from.scope && m.eligible == from.eligible
    requires CadenceFor(m.scope, m.eligible, id) == Some(Seconds(k)) && 1 <= k <= 119
    requires m.clock - from.clock < Seconds(k + 1)
    ensures HoldsFrom(Merged(store, m), id, from)
  {
    assert Imported(store, m) == store;
    MergeAt(store, m, id);
    WaitIsShort(k, m.clock - from.clock);
  }

  lemma {:induction false} HoldsLastProbe(stores: seq<Store>, run: seq<Refresh>, scope: Scope, eligible: seq<Service>,
                                          hits: seq<bool>, id: string, k: nat, p: nat, n: nat)
    requires Behaviour(stores, run) && OneCatalog(run, scope, eligible) && NothingShared(run)
    requires Tracks(run, hits, id, k) && ShortWaits(run, hits, k) && 1 <= k <= 119
    requires p <= n < |run| && hits[p] && Missed(hits, p, n)
    ensures HoldsFrom(stores[n + 1], id, run[p].merge)
  {
    assert Step(stores, run, n);
    if p == n {
      MergeAt(stores[n], run[n].merge, id);
    } else {
      assert Missed(hits, p, n - 1);
      HoldsLastProbe(stores, run, scope, eligible, hits, id, k, p, n - 1);
      assert !hits[n];
      MergeKeepsRecord(stores[n], run[n].merge, id, k, run[p].merge);
    }
  }

  lemma {:induction false} LastHit(hits: seq<bool>, first: nat, n: nat) returns (p: nat)
    requires first <= n < |hits| && hits[first]
    ensures first <= p <= n && hits[p] && Missed(hits, p, n)
  {
    if hits[n] {
      p := n;
    } else {
      p := LastHit(hits, first, n - 1);
    }
  }

  /** The report of a young record: the recorded row itself, under its own age. */
  ghost predicate ShowsProbe(shown: AnnotatedRow, row: ProbeRow, m: MergeInput, now: real, k: nat, source: Source) {
    && shown.row == row && shown.observedAt == m.checkedAt && shown.source == source
    && shown.age == now - m.clock && !shown.stale && shown.lastKnown == None
    && shown.nextProbeIn == Some(if Seconds(k) > shown.age then Seconds(k) - shown.age else 0.0)
  }

  lemma YoungRecordShown(row: ProbeRow, id: string, m: MergeInput, now: real, k: nat, source: Source)
    requires CadenceFor(m.scope, m.eligible, id) == Some(Seconds(k)) && 1 <= k <= 119
    requires m.clock <= now && now - m.clock < Seconds(k + 1)
    ensures ShowsProbe(Annotated(Fresh(row, id, m), source, now, None), row, m, now, k, source)
  {
    WaitIsShort(k, now - m.clock);
  }

  /** Without shared envelopes a service is reported, at every refresh from its first probe on, with
      exactly the row that its last probe returned, that probe's time and age, and the rest of its interval
      as the time to its next one. */
  lemma ReportShowsLastProbe(stores: seq<Store>, run: seq<Refresh>, scope: Scope, eligible: seq<Service>,
                             service: Service, k: nat, first: nat, n: nat) returns (p: nat)
    requires Behaviour(stores, run) && ValidRun(run, scope, eligible) && Scheduled(service, scope, eligible, k)
    requires NothingShared(run) && first <= n < |run| && service in SelectedBy(run[first])
    ensures first <= p <= n && service in SelectedBy(run[p])
    ensures forall q :: p < q <= n ==> service !in SelectedBy(run[q])
    ensures Probed(run[p].merge, service.id) && service.id in Report(stores[n], run[n].merge)
    ensures ShowsProbe(Report(stores[n], run[n].merge)[service.id], RowsById(run[p].merge.current)[service.id],
                       run[p].merge, run[n].merge.clock, k, if p == n then Origin else Memory)
  {
    var hits, id := Hits(run, service), service.id;
    ScheduledTracks(run, scope, eligible, service, k);
    p := LastHit(hits, first, n);
    assert forall q :: p < q <= n ==> !hits[q];
    HoldsLastProbe(stores, run, scope, eligible, hits, id, k, p, n);
    ClocksRise(run, scope, eligible, p, n);
    YoungRecordShown(RowsById(run[p].merge.current)[id], id, run[p].merge, run[n].merge.clock, k,
                     if p == n then Origin else Memory);
    ReportOfRecord(stores, run, scope, eligible, service, p, n);
  }

  lemma {:induction false} ClocksRise(run: seq<Refresh>, scope: Scope, eligible: seq<Service>, p: nat, n: nat)
    requires ValidRun(run, scope, eligible) && p <= n < |run|
    ensures run[p].merge.clock <= run[n].merge.clock
  {
    if p < n {
      ClocksRise(run, scope, eligible, p, n - 1);
      assert Follows(run[n - 1], run[n - 1 + 1]);
    }
  }

  lemma ReportOfRecord(stores: seq<Store>, run: seq<Refresh>, scope: Scope, eligible: seq<Service>, service: Service,
                       p: nat, n: nat)
    requires Behaviour(stores, run) && ValidRun(run, scope, eligible) && service in eligible && p <= n < |run|
    requires HoldsFrom(stores[n + 1], service.id, run[p].merge) && Probed(run[n].merge, service.id) == (p == n)
    ensures var m, id := run[n].merge, service.id;
            && id in Report(stores[n], m)
            && Report(stores[n], m)[id] ==
                 Annotated(Fresh(RowsById(run[p].merge.current)[id], id, run[p].merge),
                           if p == n then Origin else Memory, m.clock, None)
  {
    var m, id := run[n].merge, service.id;
    assert Step(stores, run, n);
    ReportAt(stores[n], m, id);
    if p != n {
      RowOfId(m.current, id);
      assert Complete(run[n]);
      MergeAt(stores[n], m, id);
    }
  }

  // ---------------------------------------------------------------- refreshes at any spacing

  /** Complete refreshes of one catalog, in order, however far apart. */
  ghost predicate SpacedRun(run: seq<Refresh>, scope: Scope, eligible: seq<Service>) {
    && ValidCatalog(eligible)
    && (forall i :: 0 <= i < |run| ==> WholeRefresh(run[i], scope, eligible))
    && (forall i, j :: 0 <= i <= j < |run| ==> run[i].merge.clock <= run[j].merge.clock)
  }

  /** The last refresh up to `n` that selected the service. */
  ghost predicate LastProbe(run: seq<Refresh>, service: Service, p: nat, n: nat)
    requires n < |run|
  {
    p <= n && service in SelectedBy(run[p]) && forall q :: p < q <= n ==> service !in SelectedBy(run[q])
  }

  function Age(run: seq<Refresh>, p: nat, n: nat): real
    requires p < |run| && n < |run|
  {
    run[n].merge.clock - run[p].merge.clock
  }

  /** A merge that neither probes nor imports keeps a record exactly within its retention. */
  lemma MergeDecides(store: Store, m: MergeInput, id: string, from: MergeInput)
    requires !Probed(m, id) && m.shared == [] && IdIn(m.eligible, id)
    requires m.scope == from.scope && m.eligible == from.eligible
    requires HoldsFrom(store, id, from) || id !in store
    ensures HoldsFrom(store, id, from) && m.clock - from.clock < Retention(CadenceFor(m.scope, m.eligible, id)) ==>
              HoldsFrom(Merged(store, m), id, from)
    ensures id !in store || m.clock - from.clock >= Retention(CadenceFor(m.scope, m.eligible, id)) ==>
              id !in Merged(store, m)
  {
    assert Imported(store, m) == store;
    MergeAt(store, m, id);
  }

  lemma ProbeHolds(store: Store, m: MergeInput, id: string)
    requires Probed(m, id)
    ensures HoldsFrom(Merged(store, m), id, m) && Retention(CadenceFor(m.scope, m.eligible, id)) > 0.0
  {
    MergeAt(store, m, id);
  }

  /** After refresh `p`, which probed the id, none up to `n` did. */
  ghost predicate ProbedLast(run: seq<Refresh>, id: string, p: nat, n: nat)
    requires n < |run|
  {
    p <= n && Probed(run[p].merge, id) && forall q :: p < q <= n ==> !Probed(run[q].merge, id)
  }

  lemma ProbedLastAt(run: seq<Refresh>, scope: Scope, eligible: seq<Service>, service: Service, p: nat, n: nat)
    requires SpacedRun(run, scope, eligible) && service in eligible && n < |run| && LastProbe(run, service, p, n)
    ensures ProbedLast(run, service.id, p, n)
  {
    forall q | p <= q <= n ensures service in SelectedBy(run[q]) <==> Probed(run[q].merge, service.id) {
      SelectionOfRefresh(run[q], scope, eligible, service);
    }
  }

  lemma {:induction false} RetainedIffYoung(stores: seq<Store>, run: seq<Refresh>, scope: Scope, eligible: seq<Service>,
                                            id: string, p: nat, n: nat)
    requires Behaviour(stores, run) && OneCatalog(run, scope, eligible) && NothingShared(run) && IdIn(eligible, id)
    requires n < |run| && ProbedLast(run, id, p, n)
    requires forall i, j :: 0 <= i <= j < |run| ==> run[i].merge.clock <= run[j].merge.clock
    ensures if Age(run, p, n) < Retention(CadenceFor(scope, eligible, id))
            then HoldsFrom(stores[n + 1], id, run[p].merge) else id !in stores[n + 1]
  {
    hide Merged, HoldsFrom, CadenceFor, Retention, Probed, IdIn;
    assert Step(stores, run, n);
    if p == n {
      ProbeHolds(stores[n], run[n].merge, id);
    } else {
      RetainedIffYoung(stores, run, scope, eligible, id, p, n - 1);
      MergeDecides(stores[n], run[n].merge, id, run[p].merge);
    }
  }

  /** Whatever the spacing of the refreshes: a service probed before is reported exactly while its last probe is
      younger than its retention, and as not stale exactly while that is also younger than the stale limit. */
  lemma FreshIffYoung(stores: seq<Store>, run: seq<Refresh>, scope: Scope, eligible: seq<Service>,
                      service: Service, p: nat, n: nat)
    requires Behaviour(stores, run) && SpacedRun(run, scope, eligible) && NothingShared(run)
    requires service in eligible && n < |run| && LastProbe(run, service, p, n)
    ensures var report, cadence := Report(stores[n], run[n].merge), CadenceFor(scope, eligible, service.id);
            && (service.id in report <==> Age(run, p, n) < Retention(cadence))
            && (service.id in report && !report[service.id].stale <==>
                  Age(run, p, n) < Min(StaleAfter(cadence), Retention(cadence)))
  {
    var m, id := run[n].merge, service.id;
    assert Step(stores, run, n);
    assert IdIn(eligible, id);
    ProbedLastAt(run, scope, eligible, service, p, n);
    RetainedIffYoung(stores, run, scope, eligible, id, p, n);
    SelectionOfRefresh(run[n], scope, eligible, service);
    ReportAt(stores[n], m, id);
    MergeAt(stores[n], m, id);
    RecordedAge(id, run[p].merge, m.clock);
  }

  lemma RecordedAge(id: string, m: MergeInput, now: real)
    requires id in RowsById(m.current) && m.clock <= now
    ensures forall source :: Annotated(Fresh(RowsById(m.current)[id], id, m), source, now, None).stale <==>
                               now - m.clock >= StaleAfter(CadenceFor(m.scope, m.eligible, id))
  {
  }

  /** A timed-out probe records nothing: what is reported is the record that was retained, if any, with the
      reason of the failed attempt; else the attempt itself, marked as such and not known afterwards. */
  lemma TimeoutShowsRetained(store: Store, m: MergeInput, id: string)
    requires id in RowsById(m.current) && RowsById(m.current)[id].timedOut
    ensures id in Report(store, m)
    ensures var shown, row := Report(store, m)[id], RowsById(m.current)[id];
            if id in Merged(store, m) then
              && id in Imported(store, m) && Merged(store, m)[id].row == Imported(store, m)[id].row
              && shown.source == Memory && shown.observedAt == Merged(store, m)[id].observedAt
              && (shown.stale || shown.row == Merged(store, m)[id].row)
              && (shown.stale ==> shown.lastKnown == Some(Merged(store, m)[id].row) && shown.row.state == Warn)
              && shown.refreshError.Some? && shown.refreshError.value != ""
              && (row.error != "" ==> shown.refreshError.value == row.error)
            else
              shown.source == Deadline && shown.row == row && !shown.stale && shown.refreshError.None?
  {
    MergeAt(store, m, id);
    CurrentRowOf(Kept(Imported(store, m), m), m, id);
  }

  lemma CurrentRowOf(kept: Store, m: MergeInput, id: string)
    requires id in RowsById(m.current)
    ensures id in Reported(kept, RowsById(m.current), m)
    ensures Reported(kept, RowsById(m.current), m)[id] == CurrentRow(RowsById(m.current)[id], id, kept, m)
  {
  }
}
