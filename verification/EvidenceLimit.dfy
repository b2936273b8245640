/** The longest full cycle under which sampled evidence is sure to stay fresh: at 119 buckets it does,
    and for every longer one some valid run loses a service's evidence. */
module EvidenceLimit {
  import opened EvidenceRuns
  import opened Lists
  import opened ProbeEvidence
  import opened ProbePolicy
  import opened Rotation
  import opened Wrappers

  function RowsOf(selected: seq<Service>): seq<ProbeRow> {
    seq(|selected|, i requires 0 <= i < |selected| => ProbeRow(selected[i].id, Ok, Some(true), Some(200), false, ""))
  }

  /** A complete refresh at the start of a bucket, merged at the given time. */
  function RefreshAt(scope: Scope, eligible: seq<Service>, bucket: int, clock: real): Refresh {
    var selectedAt := Seconds(bucket);
    Refresh(selectedAt,
            MergeInput(scope, eligible, RowsOf(SelectProbeSubset(eligible, LimitOf(scope), selectedAt)), "", clock,
                       [], 0.0))
  }

  lemma BucketOfStart(bucket: int)
    ensures BucketOf(Seconds(bucket)) == bucket
  {
    var quotient := Seconds(bucket) / 30.0;
    assert quotient == bucket as real;
  }

  lemma CompleteRefresh(scope: Scope, eligible: seq<Service>, bucket: int, clock: real) returns (refresh: Refresh)
    ensures Complete(refresh) && Bucket(refresh) == bucket && refresh.selectedAt == Seconds(bucket)
    ensures refresh.merge.eligible == eligible && refresh.merge.scope == scope && refresh.merge.shared == []
    ensures refresh.merge.clock == clock
  {
    BucketOfStart(bucket);
    refresh := RefreshAt(scope, eligible, bucket, clock);
    var selected, rows := SelectedBy(refresh), refresh.merge.current;
    assert rows == RowsOf(selected);
    forall row | row in rows ensures !row.timedOut && IdIn(selected, row.id) {
      var i :| 0 <= i < |rows| && rows[i] == row;
      assert selected[i] in selected && selected[i].id == row.id;
    }
    forall s | s in selected ensures exists row :: row in rows && row.id == s.id {
      var i :| 0 <= i < |selected| && selected[i] == s;
      assert rows[i] in rows && rows[i].id == s.id;
    }
  }

  /** Merged at once, but for the last refresh, which is merged one second before the latest time
      that is allowed. */
  function SlowClock(from: int, i: nat, length: nat): real {
    if i + 1 < length then Seconds(from + i)
    else Seconds(from + i + 2) - 1.0
  }

  lemma SlowClockRises(from: int, i: nat, j: nat, length: nat)
    requires i <= j < length
    ensures SlowClock(from, i, length) <= SlowClock(from, j, length)
    ensures Seconds(from + i) <= SlowClock(from, i, length)
    ensures SlowClock(from, i, length) < Seconds(from + i + 2)
  {
  }

  /** What the `i`-th refresh of a slow run is: one complete refresh per bucket, nothing shared. */
  ghost predicate SlowRefresh(refresh: Refresh, scope: Scope, eligible: seq<Service>, from: int, i: nat, length: nat) {
    && ValidRefresh(refresh, scope, eligible) && refresh.merge.shared == []
    && Bucket(refresh) == from + i && refresh.merge.clock == SlowClock(from, i, length)
  }

  ghost predicate SlowRun(run: seq<Refresh>, scope: Scope, eligible: seq<Service>, from: int) {
    forall i :: 0 <= i < |run| ==> SlowRefresh(run[i], scope, eligible, from, i, |run|)
  }

  lemma SlowRefreshExists(scope: Scope, eligible: seq<Service>, from: int, i: nat, length: nat)
    returns (refresh: Refresh)
    requires i < length
    ensures SlowRefresh(refresh, scope, eligible, from, i, length)
  {
    refresh := CompleteRefresh(scope, eligible, from + i, SlowClock(from, i, length));
    SlowClockRises(from, i, i, length);
  }

  lemma {:induction false} SlowRunExists(scope: Scope, eligible: seq<Service>, from: int, n: nat, length: nat)
    returns (run: seq<Refresh>)
    requires n <= length
    ensures |run| == n && forall i :: 0 <= i < n ==> SlowRefresh(run[i], scope, eligible, from, i, length)
  {
    if n == 0 {
      run := [];
    } else {
      var rest := SlowRunExists(scope, eligible, from, n - 1, length);
      var last := SlowRefreshExists(scope, eligible, from, n - 1, length);
      run := rest + [last];
    }
  }

  lemma SlowRunIsValid(run: seq<Refresh>, scope: Scope, eligible: seq<Service>, from: int)
    requires ValidCatalog(eligible) && SlowRun(run, scope, eligible, from)
    ensures ValidRun(run, scope, eligible)
  {
    forall i | 0 <= i < |run| ensures ValidRefresh(run[i], scope, eligible) {
      assert SlowRefresh(run[i], scope, eligible, from, i, |run|);
    }
    forall i | 0 <= i < |run| - 1 ensures Follows(run[i], run[i + 1]) {
      assert SlowRefresh(run[i], scope, eligible, from, i, |run|);
      assert SlowRefresh(run[i + 1], scope, eligible, from, i + 1, |run|);
      SlowClockRises(from, i, i + 1, |run|);
    }
  }

  /** The stores before and after each refresh, starting from an empty one. */
  function StoresOf(run: seq<Refresh>): (stores: seq<Store>)
    ensures |stores| == |run| + 1
  {
    if run == [] then [map[]]
    else
      var before := StoresOf(run[..|run| - 1]);
      before + [Merged(before[|run| - 1], run[|run| - 1].merge)]
  }

  lemma {:induction false} StoresOfBehave(run: seq<Refresh>)
    ensures Behaviour(StoresOf(run), run) && StoresOf(run)[0] == map[]
  {
    if run != [] {
      var rest := run[..|run| - 1];
      StoresOfBehave(rest);
      forall i | 0 <= i < |run| ensures Step(StoresOf(run), run, i) {
        if i < |run| - 1 {
          assert Step(StoresOf(rest), rest, i);
        }
      }
    }
  }

  /** A merge that does not probe an id leaves its record as old as it was. */
  lemma UnprobedKeepsAge(store: Store, m: MergeInput, id: string, bound: real)
    requires m.shared == [] && !Probed(m, id) && (id in store ==> store[id].recordedAt <= bound)
    ensures id in Merged(store, m) ==> Merged(store, m)[id].recordedAt <= bound
  {
    MergeAt(store, m, id);
  }

  lemma {:induction false} RecordAges(stores: seq<Store>, run: seq<Refresh>, id: string, n: nat)
    requires Behaviour(stores, run) && stores[0] == map[] && 1 <= n <= |run|
    requires forall i :: 0 <= i < |run| ==> run[i].merge.shared == []
    requires forall i :: 1 <= i < |run| ==> !Probed(run[i].merge, id)
    ensures id in stores[n] ==> stores[n][id].recordedAt <= run[0].merge.clock
  {
    assert Step(stores, run, n - 1);
    if n == 1 {
      MergeFromThePast(stores[0], run[0].merge, run[0].merge.clock);
    } else {
      RecordAges(stores, run, id, n - 1);
      UnprobedKeepsAge(stores[n - 1], run[n - 1].merge, id, run[0].merge.clock);
    }
  }

  lemma OldRecordUnreported(store: Store, m: MergeInput, id: string)
    requires m.shared == [] && id !in RowsById(m.current)
    requires id in store ==> m.clock - store[id].recordedAt >= MAX_PROBE_EVIDENCE_RETENTION_SEC
    ensures id !in Report(store, m)
  {
    ReportAt(store, m, id);
    assert Retention(CadenceFor(m.scope, m.eligible, id)) <= MAX_PROBE_EVIDENCE_RETENTION_SEC;
  }

  /** An overlong cycle comes from a rotation of at least 120 rounds. */
  lemma OverlongRotation(eligible: seq<Service>, limit: nat, cycle: real)
    requires UniqueIds(eligible) && EstimatedFullCycle(eligible, limit) == Some(cycle) && cycle > LONGEST_SAFE_CYCLE
    ensures 0 < limit < |eligible| && RotatingSlots(eligible, limit) > 0
    ensures var k := Rounds(|Rotating(eligible, limit)|, RotatingSlots(eligible, limit));
            k >= 120 && cycle == Seconds(k)
  {
    UniqueOfUnique(eligible);
    if 0 < limit < |eligible| {
      ScaleBuckets(119, Rounds(|Rotating(eligible, limit)|, RotatingSlots(eligible, limit)));
    }
  }

  /** A rotating service, and a bucket after which a whole turn but one bucket passes it by. */
  lemma WorstWait(scope: Scope, eligible: seq<Service>, cycle: real) returns (service: Service, from: int, k: nat)
    requires ValidCatalog(eligible)
    requires EstimatedFullCycle(eligible, LimitOf(scope)) == Some(cycle) && cycle > LONGEST_SAFE_CYCLE
    ensures cycle == Seconds(k) && k >= 120
    ensures service in eligible && from >= 0
    ensures forall b :: from < b < from + k ==> service !in Selection(eligible, LimitOf(scope), b)
  {
    var limit := LimitOf(scope);
    OverlongRotation(eligible, limit, cycle);
    PartitionFacts(eligible, limit);
    var ring, slots := Rotating(eligible, limit), RotatingSlots(eligible, limit);
    k := Rounds(|ring|, slots);
    service := ring[0];
    assert service in ring;
    var missed := MissedFrom(ring, slots, service, 1);
    from := missed - 1;
    assert !SeenWithin(ring, slots, service, missed, k - 1);
    forall b | from < b < from + k ensures service !in Selection(eligible, limit, b) {
      SelectedByWindow(eligible, limit, b, service);
    }
  }

  lemma LostInSlowRun(stores: seq<Store>, run: seq<Refresh>, scope: Scope, eligible: seq<Service>,
                      service: Service, from: int)
    requires ValidCatalog(eligible) && service in eligible && |run| >= 120 && SlowRun(run, scope, eligible, from)
    requires Behaviour(stores, run) && stores[0] == map[]
    requires forall b :: from < b < from + |run| ==> service !in Selection(eligible, LimitOf(scope), b)
    ensures service.id !in Report(stores[|run| - 1], run[|run| - 1].merge)
  {
    var n := |run| - 1;
    forall i | 1 <= i < |run|
      ensures !Probed(run[i].merge, service.id) && service.id !in RowsById(run[i].merge.current)
    {
      assert SlowRefresh(run[i], scope, eligible, from, i, |run|);
      SelectionOfRefresh(run[i], scope, eligible, service);
    }
    forall i | 0 <= i < |run| ensures run[i].merge.shared == [] {
      assert SlowRefresh(run[i], scope, eligible, from, i, |run|);
    }
    RecordAges(stores, run, service.id, n);
    assert SlowRefresh(run[0], scope, eligible, from, 0, |run|);
    assert SlowRefresh(run[n], scope, eligible, from, n, |run|);
    OldRecordUnreported(stores[n], run[n].merge, service.id);
  }

  /** When the advertised full cycle is longer than 119 buckets, a valid run that has lasted a full
      cycle reports nothing about some eligible service. */
  lemma SlowCycleLosesEvidence(scope: Scope, eligible: seq<Service>, cycle: real)
    returns (stores: seq<Store>, run: seq<Refresh>, n: nat)
    requires ValidCatalog(eligible)
    requires EstimatedFullCycle(eligible, LimitOf(scope)) == Some(cycle) && cycle > LONGEST_SAFE_CYCLE
    ensures Behaviour(stores, run) && ValidRun(run, scope, eligible) && Late(run, n, cycle)
    ensures !AllFresh(Report(stores[n], run[n].merge), eligible)
  {
    var service, from, k := WorstWait(scope, eligible, cycle);
    run := SlowRunExists(scope, eligible, from, k, k);
    stores := StoresOf(run);
    n := k - 1;
    SlowRunIsValid(run, scope, eligible, from);
    StoresOfBehave(run);
    assert SlowRefresh(run[0], scope, eligible, from, 0, k) && SlowRefresh(run[n], scope, eligible, from, n, k);
    LostInSlowRun(stores, run, scope, eligible, service, from);
    assert IdIn(eligible, service.id);
  }

  /** Evidence is sure to stay fresh exactly when the advertised full cycle is at most 119 buckets. */
  lemma FreshnessLimit(scope: Scope, eligible: seq<Service>, cycle: real)
    requires ValidCatalog(eligible) && EstimatedFullCycle(eligible, LimitOf(scope)) == Some(cycle)
    ensures cycle <= LONGEST_SAFE_CYCLE <==> AlwaysFresh(scope, eligible, cycle)
  {
    if cycle <= LONGEST_SAFE_CYCLE {
      forall stores: seq<Store>, run: seq<Refresh>, n: nat
        | Behaviour(stores, run) && ValidRun(run, scope, eligible) && Late(run, n, cycle)
        ensures AllFresh(Report(stores[n], run[n].merge), eligible)
      {
        EvidenceStaysFresh(stores, run, scope, eligible, n, cycle);
      }
    } else {
      var stores, run, n := SlowCycleLosesEvidence(scope, eligible, cycle);
    }
  }

  ghost predicate AlwaysFresh(scope: Scope, eligible: seq<Service>, cycle: real) {
    forall stores: seq<Store>, run: seq<Refresh>, n: nat ::
      Behaviour(stores, run) && ValidRun(run, scope, eligible) && Late(run, n, cycle) ==>
      AllFresh(Report(stores[n], run[n].merge), eligible)
  }

  // ---------------------------------------------------------------- a catalog beyond the limit

  /** As the catalog's validators require, an id is at most 128 lower-case letters and digits, with single
      dashes between them. */
  predicate CatalogId(id: string) {
    && 1 <= |id| <= 128
    && (forall k :: 0 <= k < |id| ==> 'a' <= id[k] <= 'z' || '0' <= id[k] <= '9' || id[k] == '-')
    && id[0] != '-' && id[|id| - 1] != '-'
    && (forall k :: 0 <= k < |id| - 1 ==> !(id[k] == '-' && id[k + 1] == '-'))
  }

  /** A short name for each number: hundreds as 'a', the rest as 'b'. */
  function Name(i: nat): string {
    seq(i / 100 + 1, _ => 'a') + seq(i % 100 + 1, _ => 'b')
  }

  lemma NameIsCatalogId(i: nat)
    requires i < 2600
    ensures CatalogId(Name(i))
  {
    assert forall k :: 0 <= k < |Name(i)| ==> Name(i)[k] == 'a' || Name(i)[k] == 'b';
  }

  lemma NamesDiffer(i: nat, j: nat)
    requires i < j
    ensures Name(i) != Name(j)
  {
    var hundreds := i / 100 + 1;
    assert i / 100 <= j / 100;
    if i / 100 < j / 100 {
      assert Name(i)[hundreds] == 'b' && Name(j)[hundreds] == 'a';
    } else {
      assert |Name(i)| < |Name(j)|;
    }
  }

  /** Services without priorities. */
  function PlainCatalog(n: nat): (services: seq<Service>)
    ensures |services| == n && forall i :: 0 <= i < n ==> services[i] == Service(Name(i), "", None)
  {
    seq(n, i requires 0 <= i < n => Service(Name(i), "", None))
  }

  lemma PlainIsValid(n: nat)
    ensures ValidCatalog(PlainCatalog(n)) && Unique(PlainCatalog(n)) == PlainCatalog(n)
  {
    var services := PlainCatalog(n);
    forall i, j | 0 <= i < j < n ensures services[i].id != services[j].id {
      NamesDiffer(i, j);
    }
    UniqueOfUnique(services);
  }

  lemma PlainHasCatalogIds(n: nat)
    requires n <= 2600
    ensures forall s :: s in PlainCatalog(n) ==> CatalogId(s.id)
  {
    forall s | s in PlainCatalog(n) ensures CatalogId(s.id) {
      var i :| 0 <= i < n && PlainCatalog(n)[i] == s;
      NameIsCatalogId(i);
    }
  }

  lemma NoBootstrapName(i: nat)
    ensures Name(i) !in PRIORITY_SERVICE_ORDER
  {
    assert Name(i)[0] == 'a';
    forall k | 0 <= k < |PRIORITY_SERVICE_ORDER| ensures PRIORITY_SERVICE_ORDER[k][0] != 'a' {
    }
  }

  /** Without priorities everything rotates. */
  lemma PlainRotates(n: nat, limit: nat)
    requires limit > 0
    ensures Fixed(PlainCatalog(n), limit) == [] && Rotating(PlainCatalog(n), limit) == PlainCatalog(n)
  {
    var services := PlainCatalog(n);
    forall s | s in services ensures !InBootstrapOrder(s) && !HasPriority(s) {
      var i :| 0 <= i < n && services[i] == s;
      NoBootstrapName(i);
    }
    FilterAll(services, InBootstrapOrder);
    assert RankedPriorities(services) == [];
    FilterAll(services, NotAmong([]));
  }

  lemma PlainCycle(n: nat, scope: Scope)
    requires n > LimitOf(scope)
    ensures EstimatedFullCycle(PlainCatalog(n), LimitOf(scope)) == Some(Seconds(Rounds(n, LimitOf(scope))))
  {
    hide Unique, Fixed, Rotating;
    PlainIsValid(n);
    PlainRotates(n, LimitOf(scope));
  }

  /** 1429 services without priorities rotate in 120 buckets: a valid catalog whose evidence does not stay
      fresh. */
  lemma OverlongCatalogExample(scope: Scope, n: nat)
    requires n == 1429
    ensures var eligible := PlainCatalog(n);
            && ValidCatalog(eligible) && (forall s :: s in eligible ==> CatalogId(s.id))
            && EstimatedFullCycle(eligible, LimitOf(scope)) == Some(Seconds(120))
            && !AlwaysFresh(scope, eligible, Seconds(120))
  {
    PlainIsValid(n);
    PlainHasCatalogIds(n);
    PlainCycle(n, scope);
    assert Rounds(n, 12) == 120;
    BeyondLimit(scope, PlainCatalog(n), Seconds(120));
  }

  lemma BeyondLimit(scope: Scope, eligible: seq<Service>, cycle: real)
    requires ValidCatalog(eligible) && cycle > LONGEST_SAFE_CYCLE
    requires EstimatedFullCycle(eligible, LimitOf(scope)) == Some(cycle)
    ensures !AlwaysFresh(scope, eligible, cycle)
  {
    FreshnessLimit(scope, eligible, cycle);
  }
}
