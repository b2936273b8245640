/** Which services are ever probed and reported when the refreshes do not fall into every 30-second bucket but
    into every `gap`-th one, because nobody asks more often (nabla/api/homelab_probe_policy.py,
    select_probe_subset, and nabla/api/homelab_probe_evidence.py). */
module PolledServices {
  import opened EvidenceLimit
  import opened EvidenceReports
  import opened EvidenceRuns
  import opened GreatestDivisor
  import opened Lists
  import opened Polling
  import opened ProbeEvidence
  import opened ProbePolicy
  import opened Rotation

  ghost predicate SelectedAt(services: seq<Service>, limit: int, s: Service, from: int, gap: nat, i: nat) {
    s in Selection(services, limit, PollAt(from, gap, i))
  }

  ghost predicate EverSelected(services: seq<Service>, limit: int, s: Service, from: int, gap: nat) {
    exists i: nat :: SelectedAt(services, limit, s, from, gap, i)
  }

  /** Rotation has slots, and between two refreshes the window does not move by a multiple of a divisor of the
      ring that is wider than itself. */
  predicate GapFits(services: seq<Service>, limit: nat, gap: nat)
    requires limit > 0
  {
    || |services| <= limit
    || (RotatingSlots(services, limit) > 0
        && GapReaches(gap, RotatingSlots(services, limit), |Rotating(services, limit)|))
  }

  lemma RotatingPolled(services: seq<Service>, limit: nat, s: Service, from: int, gap: nat)
    requires UniqueIds(services) && 0 < limit < |services| && s in Rotating(services, limit)
    requires RotatingSlots(services, limit) > 0
    ensures EverSelected(services, limit, s, from, gap) <==>
            EverPolled(Rotating(services, limit), RotatingSlots(services, limit), s, from, gap)
  {
    var ring, slots := Rotating(services, limit), RotatingSlots(services, limit);
    forall i: nat ensures SelectedAt(services, limit, s, from, gap, i) <==> PolledAt(ring, slots, s, from, gap, i) {
      SelectedByWindow(services, limit, PollAt(from, gap, i), s);
    }
  }

  lemma FixedPolled(services: seq<Service>, limit: nat, s: Service, from: int, gap: nat)
    requires UniqueIds(services) && limit > 0 && s in services
    requires |services| <= limit || s in Fixed(services, limit)
    ensures EverSelected(services, limit, s, from, gap)
  {
    assert SelectedAt(services, limit, s, from, gap, 0);
  }

  /** Refreshes in every `gap`-th bucket probe every service sometime exactly when the gap fits the catalog,
      whichever bucket they start in. */
  lemma PollingProbesAll(services: seq<Service>, limit: nat, from: int, gap: nat)
    requires UniqueIds(services) && limit > 0
    ensures (forall s :: s in services ==> EverSelected(services, limit, s, from, gap)) <==>
            GapFits(services, limit, gap)
  {
    if |services| <= limit {
      forall s | s in services ensures EverSelected(services, limit, s, from, gap) {
        FixedPolled(services, limit, s, from, gap);
      }
    } else if RotatingSlots(services, limit) == 0 {
      StarvedNeverPolled(services, limit, from, gap);
    } else {
      SlotsPolled(services, limit, from, gap);
    }
  }

  lemma StarvedNeverPolled(services: seq<Service>, limit: nat, from: int, gap: nat)
    requires UniqueIds(services) && 0 < limit < |services| && RotatingSlots(services, limit) == 0
    ensures exists s :: s in services && !EverSelected(services, limit, s, from, gap)
  {
    PartitionFacts(services, limit);
    var s := Rotating(services, limit)[0];
    assert s in services && s !in Fixed(services, limit);
    forall i: nat ensures !SelectedAt(services, limit, s, from, gap, i) {
      SelectedByWindow(services, limit, PollAt(from, gap, i), s);
    }
  }

  lemma SlotsPolled(services: seq<Service>, limit: nat, from: int, gap: nat)
    requires UniqueIds(services) && 0 < limit < |services| && RotatingSlots(services, limit) > 0
    ensures (forall s :: s in services ==> EverSelected(services, limit, s, from, gap)) <==>
            GapReaches(gap, RotatingSlots(services, limit), |Rotating(services, limit)|)
  {
    hide GapReaches;
    PartitionFacts(services, limit);
    var ring, slots := Rotating(services, limit), RotatingSlots(services, limit);
    PollingReachesAll(ring, slots, from, gap);
    forall s | s in services
      ensures EverSelected(services, limit, s, from, gap) <==> s !in ring || EverPolled(ring, slots, s, from, gap)
    {
      if s in ring {
        RotatingPolled(services, limit, s, from, gap);
      } else {
        FixedPolled(services, limit, s, from, gap);
      }
    }
  }

  // ---------------------------------------------------------------- whole runs

  /** Complete refreshes in every `gap`-th bucket, from an empty store and with nothing shared. */
  ghost predicate PollingRun(stores: seq<Store>, run: seq<Refresh>, scope: Scope, eligible: seq<Service>, from: int,
                             gap: nat)
  {
    && Behaviour(stores, run) && stores[0] == map[] && NothingShared(run) && ValidCatalog(eligible)
    && forall i :: 0 <= i < |run| ==>
         WholeRefresh(run[i], scope, eligible) && Bucket(run[i]) == PollAt(from, gap, i)
  }

  lemma {:induction false} NeverRecorded(stores: seq<Store>, run: seq<Refresh>, id: string, n: nat)
    requires Behaviour(stores, run) && stores[0] == map[] && NothingShared(run) && n <= |run|
    requires forall i :: 0 <= i < n ==> !Probed(run[i].merge, id)
    ensures id !in stores[n]
  {
    if n > 0 {
      NeverRecorded(stores, run, id, n - 1);
      assert Step(stores, run, n - 1);
      assert Imported(stores[n - 1], run[n - 1].merge) == stores[n - 1];
      MergeAt(stores[n - 1], run[n - 1].merge, id);
    }
  }

  /** A service is in no report before it is selected for the first time. */
  lemma UnselectedUnreported(stores: seq<Store>, run: seq<Refresh>, scope: Scope, eligible: seq<Service>,
                             service: Service, from: int, gap: nat, n: nat)
    requires PollingRun(stores, run, scope, eligible, from, gap) && service in eligible && n < |run|
    requires forall i :: 0 <= i <= n ==> !SelectedAt(eligible, LimitOf(scope), service, from, gap, i)
    ensures service.id !in Report(stores[n], run[n].merge)
  {
    hide Report, Merged, Complete, SelectedBy, Selection, ValidCatalog;
    forall i | 0 <= i <= n ensures !Probed(run[i].merge, service.id) && service.id !in RowsById(run[i].merge.current) {
      SelectionOfRefresh(run[i], scope, eligible, service);
      assert !SelectedAt(eligible, LimitOf(scope), service, from, gap, i);
    }
    NeverRecorded(stores, run, service.id, n + 1);
    assert Step(stores, run, n);
    ReportAt(stores[n], run[n].merge, service.id);
  }

  /** Of a service that the refreshes never select nothing is ever reported. */
  lemma UnreachedNeverReported(stores: seq<Store>, run: seq<Refresh>, scope: Scope, eligible: seq<Service>,
                               service: Service, from: int, gap: nat, n: nat)
    requires PollingRun(stores, run, scope, eligible, from, gap) && service in eligible && n < |run|
    requires !EverSelected(eligible, LimitOf(scope), service, from, gap)
    ensures service.id !in Report(stores[n], run[n].merge)
  {
    forall i: nat ensures !SelectedAt(eligible, LimitOf(scope), service, from, gap, i) {}
    UnselectedUnreported(stores, run, scope, eligible, service, from, gap, n);
  }

  ghost predicate EverReported(stores: seq<Store>, run: seq<Refresh>, service: Service)
    requires |stores| == |run| + 1
  {
    exists n: nat :: n < |run| && service.id in Report(stores[n], run[n].merge)
  }

  /** The first time that a service is selected comes within as many refreshes as rotation has members. */
  lemma SelectedSoon(services: seq<Service>, limit: nat, s: Service, from: int, gap: nat) returns (i: nat)
    requires UniqueIds(services) && 0 < limit && s in services && EverSelected(services, limit, s, from, gap)
    ensures i < |services| && SelectedAt(services, limit, s, from, gap, i)
  {
    if |services| <= limit || s in Fixed(services, limit) {
      i := 0;
    } else {
      PartitionFacts(services, limit);
      i := RotatingSelectedSoon(services, limit, s, from, gap);
    }
  }

  lemma RotatingSelectedSoon(services: seq<Service>, limit: nat, s: Service, from: int, gap: nat) returns (i: nat)
    requires UniqueIds(services) && 0 < limit < |services| && s in Rotating(services, limit)
    requires EverSelected(services, limit, s, from, gap)
    ensures i < |services| && SelectedAt(services, limit, s, from, gap, i)
  {
    hide Selection, Window, Fixed, RotatingSlots, Rotating;
    PartitionFacts(services, limit);
    var ring, slots := Rotating(services, limit), RotatingSlots(services, limit);
    var first: nat :| SelectedAt(services, limit, s, from, gap, first);
    SelectedByWindow(services, limit, PollAt(from, gap, first), s);
    SlotsFit(services, limit, PollAt(from, gap, first), s);
    RotatingPolled(services, limit, s, from, gap);
    var place: nat :| place < |ring| && ring[place] == s;
    PolledMeaning(ring, slots, place, from, gap);
    i :| i < Period(gap, slots, |ring|) && PolledAt(ring, slots, s, from, gap, i);
    SelectedByWindow(services, limit, PollAt(from, gap, i), s);
    PeriodIsShort(gap, slots, |ring|);
  }

  lemma SlotsFit(services: seq<Service>, limit: nat, bucket: int, s: Service)
    requires UniqueIds(services) && 0 < limit < |services| && s in Rotating(services, limit)
    requires s in Selection(services, limit, bucket)
    ensures 0 < RotatingSlots(services, limit) <= |Rotating(services, limit)|
  {
    PartitionFacts(services, limit);
  }

  lemma PeriodIsShort(gap: nat, slots: nat, size: nat)
    requires size > 0
    ensures Period(gap, slots, size) <= size
  {
    var grain, period := Grain(gap, slots, size), Period(gap, slots, size);
    MultiplyMonotone(1, grain, period);
    assert size == period * grain + size % grain;
  }

  /** A run of at least as many refreshes as there are services reports every one of them sometime exactly when
      the gap fits the catalog. */
  lemma PollingReportsAll(stores: seq<Store>, run: seq<Refresh>, scope: Scope, eligible: seq<Service>, from: int,
                          gap: nat)
    requires PollingRun(stores, run, scope, eligible, from, gap) && |run| >= |eligible|
    ensures (forall s :: s in eligible ==> EverReported(stores, run, s)) <==> GapFits(eligible, LimitOf(scope), gap)
  {
    forall s | s in eligible
      ensures EverReported(stores, run, s) <==> EverSelected(eligible, LimitOf(scope), s, from, gap)
    {
      ReportedIffSelected(stores, run, scope, eligible, s, from, gap);
    }
    PollingProbesAll(eligible, LimitOf(scope), from, gap);
  }

  lemma ReportedIffSelected(stores: seq<Store>, run: seq<Refresh>, scope: Scope, eligible: seq<Service>, s: Service,
                            from: int, gap: nat)
    requires PollingRun(stores, run, scope, eligible, from, gap) && |run| >= |eligible| && s in eligible
    ensures EverReported(stores, run, s) <==> EverSelected(eligible, LimitOf(scope), s, from, gap)
  {
    if EverSelected(eligible, LimitOf(scope), s, from, gap) {
      UniqueOfUnique(eligible);
      var i := SelectedSoon(eligible, LimitOf(scope), s, from, gap);
      SelectionOfRefresh(run[i], scope, eligible, s);
      ReportAt(stores[i], run[i].merge, s.id);
    } else {
      forall n: nat | n < |run| ensures s.id !in Report(stores[n], run[n].merge) {
        UnreachedNeverReported(stores, run, scope, eligible, s, from, gap, n);
      }
    }
  }

  // ---------------------------------------------------------------- one request a minute

  /** 24 services without priorities, and a refresh in every second bucket: the window always starts at the
      same place, and half of the services are never probed. */
  lemma MinutePollingExample(scope: Scope, place: nat, start: nat)
    requires place < 24
    ensures var eligible := PlainCatalog(24);
            && ValidCatalog(eligible) && (forall s :: s in eligible ==> CatalogId(s.id))
            && (EverSelected(eligible, LimitOf(scope), eligible[place], 2 * start, 2) <==> place < 12)
  {
    PlainIsValid(24);
    PlainHasCatalogIds(24);
    PlainRotates(24, 12);
    hide Fixed, Rotating, EverSelected;
    MinutePolling(PlainCatalog(24), place, start);
  }

  lemma MinutePolling(eligible: seq<Service>, place: nat, start: nat)
    requires UniqueIds(eligible) && place < |eligible| == 24
    requires Fixed(eligible, 12) == [] && Rotating(eligible, 12) == eligible
    ensures EverSelected(eligible, 12, eligible[place], 2 * start, 2) <==> place < 12
  {
    hide Fixed, Rotating, EverSelected, EverPolled;
    UniqueIdsDistinct(eligible);
    RotatingPolled(eligible, 12, eligible[place], 2 * start, 2);
    PolledMeaning(eligible, 12, place, 2 * start, 2);
    MinuteGrain();
    Residue(place - 2 * start * 12, 24, 0 - start, place);
  }

  lemma MinuteGrain()
    ensures Grain(2, 12, 24) == 24
  {
    assert Gcd(24, 24) == Gcd(24, 0);
  }
}
