/** The coverage figures of a probe scope: what the evidence summary counts as known, and which eligible
    services are listed as unobserved (nabla/api/homelab_health.py and nabla/api/homelab_probe_evidence.py). */
module ProbeCoverage {
  import opened EvidenceRuns
  import opened Lists
  import opened ProbeEvidence
  import opened ProbePolicy
  import opened Wrappers

  /** A row with origin or retained evidence that is not stale. */
  predicate IsKnown(row: AnnotatedRow) {
    row.source != Deadline && !row.stale
  }

  predicate FromOrigin(row: AnnotatedRow) {
    row.source == Origin && !row.stale
  }

  predicate FromMemory(row: AnnotatedRow) {
    row.source == Memory && !row.stale
  }

  predicate IsStale(row: AnnotatedRow) {
    row.stale
  }

  datatype Summary = Summary(known: nat, current: nat, cached: nat, stale: nat)

  function Count(rows: seq<AnnotatedRow>, counts: AnnotatedRow -> bool): nat {
    |Filter(rows, counts)|
  }

  function EvidenceSummary(rows: seq<AnnotatedRow>): Summary {
    var current, cached := Count(rows, FromOrigin), Count(rows, FromMemory);
    Summary(current + cached, current, cached, Count(rows, IsStale))
  }

  /** The ids of the rows that count as known. */
  function KnownIds(rows: seq<AnnotatedRow>): set<string> {
    set row | row in rows && IsKnown(row) :: row.row.id
  }

  function Outside(ids: set<string>): Service -> bool {
    (s: Service) => s.id !in ids
  }

  function Unobserved(eligible: seq<Service>, rows: seq<AnnotatedRow>): seq<Service> {
    Filter(eligible, Outside(KnownIds(rows)))
  }

  // ---------------------------------------------------------------- the rows of a report

  /** Some order of the ids of a report. */
  ghost predicate Enumerates(ids: seq<string>, report: map<string, AnnotatedRow>) {
    Distinct(ids) && forall id :: id in ids <==> id in report
  }

  function RowsOf(ids: seq<string>, report: map<string, AnnotatedRow>): (rows: seq<AnnotatedRow>)
    requires forall id :: id in ids ==> id in report
    ensures |rows| == |ids| && forall i :: 0 <= i < |ids| ==> rows[i] == report[ids[i]]
  {
    if ids == [] then [] else [report[ids[0]]] + RowsOf(ids[1..], report)
  }

  /** Every row is filed under its own id. */
  ghost predicate RowsKeyed(report: map<string, AnnotatedRow>) {
    forall id :: id in report ==> report[id].row.id == id
  }

  ghost predicate Keyed(store: Store) {
    forall id :: id in store ==> store[id].row.id == id
  }

  lemma {:induction false} ImportKeyed(store: Store, m: MergeInput, n: nat)
    requires Keyed(store) && n <= |m.shared|
    ensures Keyed(ImportFirst(store, m, n))
  {
    if n > 0 {
      ImportKeyed(store, m, n - 1);
    }
  }

  lemma MergeKeyed(store: Store, m: MergeInput)
    requires Keyed(store)
    ensures Keyed(Merged(store, m))
  {
    ImportKeyed(store, m, |m.shared|);
    forall id | id in Merged(store, m) ensures Merged(store, m)[id].row.id == id {
      MergeAt(store, m, id);
      RowOfId(m.current, id);
    }
  }

  lemma ReportKeyed(store: Store, m: MergeInput)
    requires Keyed(store)
    ensures RowsKeyed(Report(store, m))
  {
    ImportKeyed(store, m, |m.shared|);
    forall id | id in Report(store, m) ensures Report(store, m)[id].row.id == id {
      ReportAt(store, m, id);
      RowOfId(m.current, id);
    }
  }

  // ---------------------------------------------------------------- counting

  lemma {:induction false} KnownIsFreshOrCached(rows: seq<AnnotatedRow>)
    ensures EvidenceSummary(rows).known == Count(rows, IsKnown)
  {
    if rows != [] {
      KnownIsFreshOrCached(rows[1..]);
    }
  }

  function KnownAt(report: map<string, AnnotatedRow>): string -> bool {
    (id: string) => id in report && IsKnown(report[id])
  }

  lemma {:induction false} KnownRowsByIds(ids: seq<string>, report: map<string, AnnotatedRow>)
    requires forall id :: id in ids ==> id in report
    ensures Count(RowsOf(ids, report), IsKnown) == |Filter(ids, KnownAt(report))|
  {
    if ids != [] {
      KnownRowsByIds(ids[1..], report);
      assert RowsOf(ids, report)[1..] == RowsOf(ids[1..], report);
    }
  }

  lemma KnownIdAt(ids: seq<string>, report: map<string, AnnotatedRow>, id: string)
    requires Enumerates(ids, report) && RowsKeyed(report)
    ensures id in KnownIds(RowsOf(ids, report)) <==> id in report && IsKnown(report[id])
  {
    var rows := RowsOf(ids, report);
    if id in report {
      var i :| 0 <= i < |ids| && ids[i] == id;
      assert rows[i] in rows;
    }
  }

  /** The known rows are as many as the known ids. */
  lemma KnownRowsAndIds(ids: seq<string>, report: map<string, AnnotatedRow>)
    requires Enumerates(ids, report) && RowsKeyed(report)
    ensures EvidenceSummary(RowsOf(ids, report)).known == |KnownIds(RowsOf(ids, report))|
  {
    var known := Filter(ids, KnownAt(report));
    KnownIsFreshOrCached(RowsOf(ids, report));
    KnownRowsByIds(ids, report);
    FilterKeepsDistinct(ids, KnownAt(report));
    DistinctLength(known);
    KnownIdsFiltered(ids, report);
  }

  lemma KnownIdsFiltered(ids: seq<string>, report: map<string, AnnotatedRow>)
    requires Enumerates(ids, report) && RowsKeyed(report)
    ensures KnownIds(RowsOf(ids, report)) == Elements(Filter(ids, KnownAt(report)))
  {
    FilterMembers(ids, KnownAt(report));
    var a, b := KnownIds(RowsOf(ids, report)), Elements(Filter(ids, KnownAt(report)));
    forall id ensures id in a <==> id in b {
      KnownIdAt(ids, report, id);
    }
  }

  function IdsOf(services: seq<Service>): set<string> {
    set s | s in services :: s.id
  }

  /** Among services with unique ids, those outside a set of ids leave as many as the set has ids of
      theirs. */
  lemma {:induction false} OutsideCount(services: seq<Service>, ids: set<string>)
    requires UniqueIds(services)
    ensures |Filter(services, Outside(ids))| + |ids * IdsOf(services)| == |services|
  {
    if services == [] {
      assert ids * IdsOf(services) == {};
    } else {
      var head, rest := services[0], services[1..];
      OutsideCount(rest, ids);
      HeadId(services);
      OneMore(ids, head.id, IdsOf(rest));
    }
  }

  lemma HeadId(services: seq<Service>)
    requires UniqueIds(services) && services != []
    ensures IdsOf(services) == {services[0].id} + IdsOf(services[1..]) && services[0].id !in IdsOf(services[1..])
  {
    assert services == [services[0]] + services[1..];
    forall s | s in services[1..] ensures s.id != services[0].id {
      var i :| 0 <= i < |services[1..]| && services[1..][i] == s;
      assert services[i + 1] == s;
    }
  }

  lemma OneMore<T>(a: set<T>, x: T, b: set<T>)
    requires x !in b
    ensures |a * ({x} + b)| == (if x in a then 1 else 0) + |a * b|
  {
    if x in a {
      assert a * ({x} + b) - {x} == a * b;
    } else {
      assert a * ({x} + b) == a * b;
    }
  }

  lemma PartOfSet<T>(a: set<T>, b: set<T>)
    ensures |a * b| <= |a|
    ensures |a * b| == |a| <==> a <= b
  {
    assert |a| == |a * b| + |a - b| by {
      assert a == a * b + (a - b);
    }
    if a <= b {
      assert a - b == {};
    } else {
      var x :| x in a && x !in b;
      assert x in a - b;
    }
  }

  lemma EnabledAddsUp(eligible: seq<Service>, ids: seq<string>, report: map<string, AnnotatedRow>)
    requires UniqueIds(eligible) && Enumerates(ids, report) && RowsKeyed(report)
    ensures var rows := RowsOf(ids, report);
            EvidenceSummary(rows).known + |Unobserved(eligible, rows)| == |eligible| <==>
            OnlyEligibleKnown(eligible, report)
  {
    var rows := RowsOf(ids, report);
    var known := KnownIds(rows);
    KnownRowsAndIds(ids, report);
    OutsideCount(eligible, known);
    PartOfSet(known, IdsOf(eligible));
    forall id ensures id in known <==> id in report && IsKnown(report[id]) {
      KnownIdAt(ids, report, id);
    }
    assert known <= IdsOf(eligible) <==> OnlyEligibleKnown(eligible, report);
  }

  ghost predicate OnlyEligibleKnown(eligible: seq<Service>, report: map<string, AnnotatedRow>) {
    forall id :: id in report && IsKnown(report[id]) ==> IdIn(eligible, id)
  }

  // ---------------------------------------------------------------- a scope, enabled or not

  /** The coverage figures of one scope. */
  datatype ScopeFigures = ScopeFigures(evidence: Summary, unobserved: seq<Service>)

  /** A disabled scope merges nothing and lists nothing. */
  function Finalized(merged: seq<AnnotatedRow>, eligible: seq<Service>, enabled: bool): ScopeFigures {
    if enabled then ScopeFigures(EvidenceSummary(merged), Unobserved(eligible, merged))
    else ScopeFigures(EvidenceSummary([]), [])
  }

  /** The payload's separate figure for what a disabled scope leaves out. */
  function DisabledSlots(eligible: seq<Service>, enabled: bool): nat {
    if enabled then 0 else |eligible|
  }

  /** Known evidence, unobserved services and the slots of a disabled scope account for every eligible service,
      exactly when all known evidence of an enabled scope is of eligible services. Without the third figure they
      do so in a disabled scope only if nothing is eligible in it. */
  lemma CoverageAddsUp(eligible: seq<Service>, ids: seq<string>, report: map<string, AnnotatedRow>, enabled: bool)
    requires UniqueIds(eligible) && Enumerates(ids, report) && RowsKeyed(report)
    ensures var figures := Finalized(RowsOf(ids, report), eligible, enabled);
            && (figures.evidence.known + |figures.unobserved| + DisabledSlots(eligible, enabled) == |eligible| <==>
                  !enabled || OnlyEligibleKnown(eligible, report))
            && (figures.evidence.known + |figures.unobserved| == |eligible| <==>
                  if enabled then OnlyEligibleKnown(eligible, report) else eligible == [])
  {
    EnabledAddsUp(eligible, ids, report);
  }

  /** A disabled scope with one eligible service: it is neither known nor unobserved. */
  lemma DisabledScopeExample(ids: seq<string>, report: map<string, AnnotatedRow>)
    requires forall id :: id in ids ==> id in report
    ensures var eligible := [Service("grafana", "", None)];
            var figures := Finalized(RowsOf(ids, report), eligible, false);
            figures.evidence.known + |figures.unobserved| == 0 && |eligible| == DisabledSlots(eligible, false) == 1
  {
  }

  /** After any merge whose current rows are of eligible services, enabled or not, the three figures add up, and
      the first two do exactly when the scope is enabled or empty. */
  lemma MergeAddsUp(store: Store, m: MergeInput, ids: seq<string>, enabled: bool)
    requires Keyed(store) && UniqueIds(m.eligible) && Enumerates(ids, Report(store, m))
    requires forall row :: row in m.current ==> IdIn(m.eligible, row.id)
    ensures var figures := Finalized(RowsOf(ids, Report(store, m)), m.eligible, enabled);
            && figures.evidence.known + |figures.unobserved| + DisabledSlots(m.eligible, enabled) == |m.eligible|
            && (figures.evidence.known + |figures.unobserved| == |m.eligible| <==> enabled || m.eligible == [])
  {
    ReportKeyed(store, m);
    MergeKnowsOnlyEligible(store, m);
    CoverageAddsUp(m.eligible, ids, Report(store, m), enabled);
  }

  lemma MergeKnowsOnlyEligible(store: Store, m: MergeInput)
    requires forall row :: row in m.current ==> IdIn(m.eligible, row.id)
    ensures OnlyEligibleKnown(m.eligible, Report(store, m))
  {
    var report := Report(store, m);
    forall id | id in report && IsKnown(report[id]) ensures IdIn(m.eligible, id) {
      ReportAt(store, m, id);
      RowOfId(m.current, id);
    }
  }

  // ---------------------------------------------------------------- what the figures count after a merge

  function At(report: map<string, AnnotatedRow>, counts: AnnotatedRow -> bool): string -> bool {
    (id: string) => id in report && counts(report[id])
  }

  lemma {:induction false} CountByIds(ids: seq<string>, report: map<string, AnnotatedRow>, counts: AnnotatedRow -> bool)
    requires forall id :: id in ids ==> id in report
    ensures Count(RowsOf(ids, report), counts) == |Filter(ids, At(report, counts))|
  {
    if ids != [] {
      CountByIds(ids[1..], report, counts);
      assert RowsOf(ids, report)[1..] == RowsOf(ids[1..], report);
    }
  }

  /** The ids that are counted, as a set. */
  lemma CountedIds(ids: seq<string>, report: map<string, AnnotatedRow>, counts: AnnotatedRow -> bool,
                   counted: set<string>)
    requires Enumerates(ids, report)
    requires forall id :: id in counted <==> id in report && counts(report[id])
    ensures Count(RowsOf(ids, report), counts) == |counted|
  {
    var kept := Filter(ids, At(report, counts));
    CountByIds(ids, report, counts);
    FilterKeepsDistinct(ids, At(report, counts));
    FilterMembers(ids, At(report, counts));
    DistinctLength(kept);
    assert Elements(kept) == counted;
  }

  /** After a merge: as many rows are current as services were probed and came back, as many are known as are not
      stale and not just an attempt, as many are stale as the report shows stale, and with the attempts of which
      nothing is known these make up the report. */
  lemma SummaryMeaning(store: Store, m: MergeInput, ids: seq<string>)
    requires Enumerates(ids, Report(store, m))
    ensures var report := Report(store, m);
            var summary := EvidenceSummary(RowsOf(ids, report));
            && summary.current == |set id | id in report && Probed(m, id)|
            && summary.stale == |set id | id in report && report[id].stale|
            && summary.known == summary.current + summary.cached
            && summary.known + summary.stale + |set id | id in report && report[id].source == Deadline| == |ids|
  {
    hide Report, RowsOf, Probed, Count;
    var report := Report(store, m);
    ProbedAreCurrent(store, m, ids);
    CountedIds(ids, report, IsStale, set id | id in report && report[id].stale);
    AttemptsShareRows(store, m, ids);
  }

  lemma ProbedAreCurrent(store: Store, m: MergeInput, ids: seq<string>)
    requires Enumerates(ids, Report(store, m))
    ensures var report := Report(store, m);
            Count(RowsOf(ids, report), FromOrigin) == |set id | id in report && Probed(m, id)|
  {
    hide Report, Count, Probed, FromOrigin;
    var report := Report(store, m);
    var probed := set id | id in report && Probed(m, id);
    forall id ensures id in probed <==> id in report && FromOrigin(report[id]) {
      if id in report {
        SourceAt(store, m, id);
      }
    }
    CountedIds(ids, report, FromOrigin, probed);
  }

  lemma AttemptsShareRows(store: Store, m: MergeInput, ids: seq<string>)
    requires Enumerates(ids, Report(store, m))
    ensures var report := Report(store, m);
            var summary := EvidenceSummary(RowsOf(ids, report));
            summary.known + summary.stale + |set id | id in report && report[id].source == Deadline| == |ids|
  {
    hide Report, Count, EvidenceSummary;
    var report := Report(store, m);
    var rows := RowsOf(ids, report);
    forall id | id in report ensures report[id].source == Deadline ==> !report[id].stale {
      SourceAt(store, m, id);
    }
    CountedIds(ids, report, FromDeadline, set id | id in report && report[id].source == Deadline);
    AttemptsNotStale(ids, report);
    KindsShareRows(rows);
  }

  lemma AttemptsNotStale(ids: seq<string>, report: map<string, AnnotatedRow>)
    requires forall id :: id in ids ==> id in report
    requires forall id :: id in report && report[id].source == Deadline ==> !report[id].stale
    ensures forall row :: row in RowsOf(ids, report) ==> row.source == Deadline ==> !row.stale
  {
    var rows := RowsOf(ids, report);
    forall row | row in rows ensures row.source == Deadline ==> !row.stale {
      var i :| 0 <= i < |rows| && rows[i] == row;
      assert ids[i] in report;
    }
  }

  predicate FromDeadline(row: AnnotatedRow) {
    row.source == Deadline && !row.stale
  }

  lemma SourceAt(store: Store, m: MergeInput, id: string)
    requires id in Report(store, m)
    ensures FromOrigin(Report(store, m)[id]) <==> Probed(m, id)
    ensures Report(store, m)[id].source == Deadline ==> !Report(store, m)[id].stale
  {
    ReportAt(store, m, id);
    hide CadenceFor, RowsById, Imported;
  }

  lemma {:induction false} KindsShareRows(rows: seq<AnnotatedRow>)
    requires forall row :: row in rows ==> row.source == Deadline ==> !row.stale
    ensures var summary := EvidenceSummary(rows);
            summary.known + summary.stale + Count(rows, FromDeadline) == |rows|
  {
    if rows != [] {
      assert rows == [rows[0]] + rows[1..];
      KindsShareRows(rows[1..]);
    }
  }

  /** An eligible service is listed as unobserved exactly if no current evidence of it is reported. */
  lemma UnobservedMeaning(eligible: seq<Service>, ids: seq<string>, report: map<string, AnnotatedRow>, s: Service)
    requires Enumerates(ids, report) && RowsKeyed(report)
    ensures s in Unobserved(eligible, RowsOf(ids, report)) <==>
              s in eligible && (s.id in report ==> report[s.id].source == Deadline || report[s.id].stale)
  {
    FilterMembers(eligible, Outside(KnownIds(RowsOf(ids, report))));
    KnownIdAt(ids, report, s.id);
  }

  lemma {:induction false} StoresKeyed(stores: seq<Store>, run: seq<Refresh>, n: nat)
    requires Behaviour(stores, run) && Keyed(stores[0]) && n <= |run|
    ensures Keyed(stores[n])
  {
    if n > 0 {
      StoresKeyed(stores, run, n - 1);
      assert Step(stores, run, n - 1);
      MergeKeyed(stores[n - 1], run[n - 1].merge);
    }
  }

  /** Scheduler, store and summary together: from the end of the first full cycle on every eligible
      service is known and none is listed as unobserved. */
  lemma CoverageBecomesFull(stores: seq<Store>, run: seq<Refresh>, scope: Scope, eligible: seq<Service>, n: nat,
                            cycle: real, ids: seq<string>)
    requires Behaviour(stores, run) && ValidRun(run, scope, eligible) && Keyed(stores[0])
    requires EstimatedFullCycle(eligible, LimitOf(scope)) == Some(cycle) && cycle <= LONGEST_SAFE_CYCLE
    requires Late(run, n, cycle) && Enumerates(ids, Report(stores[n], run[n].merge))
    ensures var rows := RowsOf(ids, Report(stores[n], run[n].merge));
            EvidenceSummary(rows).known == |eligible| && Unobserved(eligible, rows) == []
  {
    var m := run[n].merge;
    var report := Report(stores[n], m);
    EvidenceStaysFresh(stores, run, scope, eligible, n, cycle);
    StoresKeyed(stores, run, n);
    ReportKeyed(stores[n], m);
    assert Complete(run[n]);
    forall id | id in report ensures IsKnown(report[id]) {
      RowOfId(m.current, id);
      ReportAt(stores[n], m, id);
    }
    EnabledAddsUp(eligible, ids, report);
    assert OnlyEligibleKnown(eligible, report);
    forall s | s in eligible ensures s.id in KnownIds(RowsOf(ids, report)) {
      KnownIdAt(ids, report, s.id);
    }
    NoneOutside(eligible, KnownIds(RowsOf(ids, report)));
  }

  lemma NoneOutside(services: seq<Service>, ids: set<string>)
    requires forall s :: s in services ==> s.id in ids
    ensures Filter(services, Outside(ids)) == []
  {
    FilterMembers(services, Outside(ids));
    if Filter(services, Outside(ids)) != [] {
      assert Filter(services, Outside(ids))[0] in Filter(services, Outside(ids));
    }
  }
}
