/** What a merge takes over from the evidence that other workers share, and what every reported row shows
    (nabla/api/homelab_probe_evidence.py). */
module EvidenceImports {
  import opened EvidenceRuns
  import opened ProbeEvidence
  import opened ProbePolicy
  import opened Wrappers

  /** The limits in seconds: evidence of a service probed every `x` seconds is stale after twice that, at least a
      minute, and kept for three times that, between five minutes and an hour. Without an interval, or with an
      interval of nothing, five minutes count. */
  lemma LimitsInSeconds(x: real)
    requires x > 0.0
    ensures StaleAfter(Some(x)) == if x <= 30.0 then 60.0 else x + x
    ensures Retention(Some(x)) == if x <= 100.0 then 300.0 else if x <= 1200.0 then x + x + x else 3600.0
    ensures StaleAfter(None) == StaleAfter(Some(0.0)) == 600.0
    ensures Retention(None) == Retention(Some(0.0)) == 900.0
  {
  }

  /** How long evidence of the service is kept. */
  function Lifetime(m: MergeInput, id: string): real {
    Retention(CadenceFor(m.scope, m.eligible, id))
  }

  function AgeOf(envelope: SharedEntry, m: MergeInput): real
    requires envelope.Envelope? && envelope.epoch.Some?
  {
    m.epochNow - envelope.epoch.value
  }

  /** An envelope is taken if it names an eligible service, with a known state and a known time that is at most
      30 seconds ahead, less than an hour past, and within the lifetime of the service's evidence. */
  ghost predicate Acceptable(envelope: SharedEntry, m: MergeInput, id: string) {
    && envelope.Envelope? && envelope.serviceId == id && (exists s :: s in m.eligible && s.id == id)
    && envelope.row.state in {Ok, Warn, Fail} && envelope.epoch.Some?
    && -30.0 <= AgeOf(envelope, m) < 3600.0 && AgeOf(envelope, m) < Lifetime(m, id)
  }

  /** Its time on the clock of this process; one that is ahead counts as of now. */
  function TimeOf(envelope: SharedEntry, m: MergeInput): real
    requires envelope.Envelope? && envelope.epoch.Some?
  {
    if AgeOf(envelope, m) <= 0.0 then m.clock else m.clock - AgeOf(envelope, m)
  }

  /** Among the first `n` envelopes, the first of the latest acceptable ones for the id. */
  ghost predicate FirstOfLatest(m: MergeInput, id: string, n: nat, i: nat)
    requires n <= |m.shared|
  {
    && i < n && Acceptable(m.shared[i], m, id)
    && (forall j :: 0 <= j < n && Acceptable(m.shared[j], m, id) ==> TimeOf(m.shared[j], m) <= TimeOf(m.shared[i], m))
    && (forall j :: 0 <= j < i && Acceptable(m.shared[j], m, id) ==> TimeOf(m.shared[j], m) < TimeOf(m.shared[i], m))
  }

  ghost predicate SomeAcceptable(m: MergeInput, id: string, n: nat)
    requires n <= |m.shared|
  {
    exists i :: 0 <= i < n && Acceptable(m.shared[i], m, id)
  }

  /** The entry an acceptable envelope becomes. */
  ghost predicate EntryOf(entry: Entry, envelope: SharedEntry, m: MergeInput, id: string)
    requires envelope.Envelope? && envelope.epoch.Some?
  {
    && entry.row == envelope.row.(id := id) && entry.observedAt == envelope.observedAt
    && entry.recordedAt == TimeOf(envelope, m) && entry.interval == CadenceFor(m.scope, m.eligible, id)
  }

  /** The old entry stays unless some acceptable envelope is later. */
  ghost predicate OldStays(store: Store, m: MergeInput, id: string, n: nat)
    requires n <= |m.shared|
  {
    && id in store
    && forall j :: 0 <= j < n && Acceptable(m.shared[j], m, id) ==>
         TimeOf(m.shared[j], m) <= store[id].recordedAt
  }

  ghost predicate EnvelopeWins(store: Store, after: Store, m: MergeInput, id: string, n: nat, i: nat)
    requires n <= |m.shared|
  {
    && FirstOfLatest(m, id, n, i) && (id in store ==> store[id].recordedAt < TimeOf(m.shared[i], m))
    && id in after && EntryOf(after[id], m.shared[i], m, id)
  }

  /** What the first `n` envelopes make of the entry of one id. */
  ghost predicate ImportMeans(store: Store, after: Store, m: MergeInput, id: string, n: nat)
    requires n <= |m.shared|
  {
    && (id in after <==> id in store || SomeAcceptable(m, id, n))
    && (OldStays(store, m, id, n) ==> id in after && after[id] == store[id])
    && (!OldStays(store, m, id, n) && id in after ==> exists i: nat :: EnvelopeWins(store, after, m, id, n, i))
  }

  lemma OfferedMeaning(envelope: SharedEntry, m: MergeInput, id: string)
    ensures Acceptable(envelope, m, id) <==> Offered(envelope, m).Some? && Offered(envelope, m).value.row.id == id
    ensures Acceptable(envelope, m, id) ==> EntryOf(Offered(envelope, m).value, envelope, m, id)
  {
    if envelope.Envelope? && envelope.row.state != Other {
      assert envelope.row.state in {Ok, Warn, Fail};
    }
  }

  lemma ImportOneMeans(store: Store, envelope: SharedEntry, m: MergeInput, id: string)
    ensures var after := ImportOne(store, envelope, m);
            if Acceptable(envelope, m, id) && (id in store ==> store[id].recordedAt < TimeOf(envelope, m))
            then id in after && EntryOf(after[id], envelope, m, id)
            else (id in after <==> id in store) && (id in after ==> after[id] == store[id])
  {
    OfferedMeaning(envelope, m, id);
  }

  lemma {:induction false} ImportFirstMeans(store: Store, m: MergeInput, id: string, n: nat)
    requires n <= |m.shared|
    ensures ImportMeans(store, ImportFirst(store, m, n), m, id, n)
  {
    if n > 0 {
      ImportFirstMeans(store, m, id, n - 1);
      var before, after := ImportFirst(store, m, n - 1), ImportFirst(store, m, n);
      ImportOneMeans(before, m.shared[n - 1], m, id);
      NextEnvelope(store, before, after, m, id, n);
    }
  }

  lemma NextEnvelope(store: Store, before: Store, after: Store, m: MergeInput, id: string, n: nat)
    requires 0 < n <= |m.shared| && ImportMeans(store, before, m, id, n - 1)
    requires var envelope := m.shared[n - 1];
             if Acceptable(envelope, m, id) && (id in before ==> before[id].recordedAt < TimeOf(envelope, m))
             then id in after && EntryOf(after[id], envelope, m, id)
             else (id in after <==> id in before) && (id in after ==> after[id] == before[id])
    ensures ImportMeans(store, after, m, id, n)
  {
    hide TimeOf, Lifetime;
    var envelope := m.shared[n - 1];
    assert SomeAcceptable(m, id, n) <==> SomeAcceptable(m, id, n - 1) || Acceptable(envelope, m, id);
    if Acceptable(envelope, m, id) && (id in before ==> before[id].recordedAt < TimeOf(envelope, m)) {
      LatestIsNext(store, before, after, m, id, n);
    } else if !OldStays(store, m, id, n) && id in after {
      var i: nat :| EnvelopeWins(store, before, m, id, n - 1, i);
      assert EnvelopeWins(store, after, m, id, n, i);
    }
  }

  lemma LatestIsNext(store: Store, before: Store, after: Store, m: MergeInput, id: string, n: nat)
    requires 0 < n <= |m.shared| && ImportMeans(store, before, m, id, n - 1)
    requires Acceptable(m.shared[n - 1], m, id) && id in after && EntryOf(after[id], m.shared[n - 1], m, id)
    requires id in before ==> before[id].recordedAt < TimeOf(m.shared[n - 1], m)
    ensures EnvelopeWins(store, after, m, id, n, n - 1)
  {
    hide TimeOf, AgeOf;
    if id in before && !OldStays(store, m, id, n - 1) {
      var i: nat :| EnvelopeWins(store, before, m, id, n - 1, i);
    }
  }

  /** What the import leaves for one id: an entry exactly if there was one or an envelope for it is acceptable; the
      old one unless an acceptable envelope is later, and otherwise the first of the latest acceptable ones. */
  lemma ImportMeaning(store: Store, m: MergeInput, id: string)
    ensures m.scope == Public ==> ImportMeans(store, Imported(store, m), m, id, |m.shared|)
    ensures m.scope == Internal ==> Imported(store, m) == store
  {
    ImportFirstMeans(store, m, id, |m.shared|);
  }

  // ---------------------------------------------------------------- what is reported of an unprobed service

  /** Of an eligible service without a current row something is reported exactly if there is an entry within its
      lifetime or an acceptable envelope. */
  lemma ReportedWithoutProbe(store: Store, m: MergeInput, id: string)
    requires m.scope == Public && id !in RowsById(m.current)
    ensures id in Report(store, m) <==>
              && IdIn(m.eligible, id)
              && ((id in store && m.clock - store[id].recordedAt < Lifetime(m, id)) ||
                  SomeAcceptable(m, id, |m.shared|))
  {
    var imported := Imported(store, m);
    ImportMeaning(store, m, id);
    ReportAt(store, m, id);
    MergeAt(store, m, id);
    if SomeAcceptable(m, id, |m.shared|) {
      var i :| 0 <= i < |m.shared| && Acceptable(m.shared[i], m, id);
      YoungEnough(m.shared[i], m, id);
      if !OldStays(store, m, id, |m.shared|) {
        var w: nat :| EnvelopeWins(store, imported, m, id, |m.shared|, w);
        YoungEnough(m.shared[w], m, id);
      }
    }
  }

  lemma YoungEnough(envelope: SharedEntry, m: MergeInput, id: string)
    requires Acceptable(envelope, m, id)
    ensures m.clock - TimeOf(envelope, m) < Lifetime(m, id)
  {
  }

  /** An acceptable envelope that is later than the old entry and the first of the latest is what is reported, with
      its own row, time and age. */
  lemma SharedIsReported(store: Store, m: MergeInput, id: string, i: nat)
    requires m.scope == Public && id !in RowsById(m.current) && FirstOfLatest(m, id, |m.shared|, i)
    requires id in store ==> store[id].recordedAt < TimeOf(m.shared[i], m)
    ensures id in Report(store, m)
    ensures var shown, envelope := Report(store, m)[id], m.shared[i];
            && shown.source == Memory && shown.observedAt == envelope.observedAt && shown.refreshError == None
            && shown.age == m.clock - TimeOf(envelope, m)
            && (if shown.stale then shown.lastKnown == Some(envelope.row.(id := id))
                else shown.row == envelope.row.(id := id))
  {
    ImportMeaning(store, m, id);
    ReportedWithoutProbe(store, m, id);
    ReportAt(store, m, id);
    MergeAt(store, m, id);
    assert !OldStays(store, m, id, |m.shared|);
    var w: nat :| EnvelopeWins(store, Imported(store, m), m, id, |m.shared|, w);
    SameFirst(m, id, |m.shared|, i, w);
  }

  lemma SameFirst(m: MergeInput, id: string, n: nat, i: nat, w: nat)
    requires n <= |m.shared| && FirstOfLatest(m, id, n, i) && FirstOfLatest(m, id, n, w)
    ensures i == w
  {
  }

  // ---------------------------------------------------------------- what every reported row shows

  /** An age is never negative; evidence is stale from its limit on, and then the row only warns: whether the
      service is reachable is unknown, a status code is blanked and the recorded row stands beside it. Otherwise the
      recorded row is shown. */
  ghost predicate Honest(shown: AnnotatedRow, recorded: ProbeRow, cadence: Option<real>) {
    && shown.age >= 0.0 && shown.staleAfter == StaleAfter(cadence)
    && (shown.stale <==> shown.age >= StaleAfter(cadence))
    && (!shown.stale ==> shown.row == recorded && shown.lastKnown == None)
    && (shown.stale ==>
          && shown.lastKnown == Some(recorded) && shown.row.state == Warn && shown.row.reachable == None
          && shown.row.id == recorded.id
          && (shown.row.httpStatus == None <==> recorded.httpStatus == None)
          && (shown.row.httpStatus.Some? ==> shown.row.httpStatus.value == 0))
    && (shown.nextProbeIn == None <==> cadence == None)
    && (cadence.Some? ==>
          if shown.age <= cadence.value then shown.nextProbeIn.value + shown.age == cadence.value
          else shown.nextProbeIn.value == 0.0)
  }

  ghost predicate ShownHonestly(report: map<string, AnnotatedRow>, after: Store, m: MergeInput, id: string)
    requires id in report
  {
    var cadence := CadenceFor(m.scope, m.eligible, id);
    if id in after then
      && Honest(report[id], after[id].row, cadence)
      && report[id].observedAt == after[id].observedAt
      && report[id].age == if m.clock <= after[id].recordedAt then 0.0 else m.clock - after[id].recordedAt
    else
      && id in RowsById(m.current) && RowsById(m.current)[id].timedOut
      && Honest(report[id], RowsById(m.current)[id], cadence)
      && report[id].observedAt == m.checkedAt && report[id].age == 0.0 && report[id].source == Deadline
  }

  /** Every reported row is that of the store after the merge, or that of an attempt that timed out and of which
      nothing is stored; what it shows follows from its age alone. */
  lemma ReportIsHonest(store: Store, m: MergeInput, id: string)
    requires id in Report(store, m)
    ensures ShownHonestly(Report(store, m), Merged(store, m), m, id)
  {
    hide CadenceFor, RowsById, Imported, IdIn;
    var kept, rows := Kept(Imported(store, m), m), RowsById(m.current);
    if id in rows {
      if rows[id].timedOut && id in kept {
        HonestlyAnnotated(kept[id], Memory, m.clock, Some(RefreshError(rows[id])));
      } else {
        StaleLater(CadenceFor(m.scope, m.eligible, id));
        HonestlyAnnotated(Fresh(rows[id], id, m), if rows[id].timedOut then Deadline else Origin, m.clock, None);
      }
    } else {
      HonestlyAnnotated(kept[id], Memory, m.clock, None);
    }
  }

  lemma StaleLater(cadence: Option<real>)
    ensures StaleAfter(cadence) >= 60.0
  {
  }

  lemma HonestlyAnnotated(entry: Entry, source: Source, now: real, refreshError: Option<string>)
    ensures var shown := Annotated(entry, source, now, refreshError);
            && Honest(shown, entry.row, entry.interval) && shown.observedAt == entry.observedAt
            && shown.source == source && shown.refreshError == refreshError
            && shown.age == if now <= entry.recordedAt then 0.0 else now - entry.recordedAt
  {
    StaleLater(entry.interval);
  }

  /** Of several current rows of one id the last one counts, and rows without an id do not. */
  lemma {:induction false} LastRowCounts(rows: seq<ProbeRow>, id: string, i: nat)
    requires i < |rows| && rows[i].id == id && forall j :: i < j < |rows| ==> rows[j].id != id
    ensures if id == "" then id !in RowsById(rows) else id in RowsById(rows) && RowsById(rows)[id] == rows[i]
  {
    RowOfId(rows, id);
    if i < |rows| - 1 {
      LastRowCounts(rows[..|rows| - 1], id, i);
    }
  }

  /** The interval of an id is the one estimated for the last service that has it. */
  lemma {:induction false} LastServiceCounts(scope: Scope, eligible: seq<Service>, n: nat, id: string, i: nat)
    requires i < n <= |eligible| && eligible[i].id == id && forall j :: i < j < n ==> eligible[j].id != id
    ensures LastEstimate(scope, eligible, n, id) == EstimatedProbeInterval(eligible[i], eligible, 12)
  {
    if i < n - 1 {
      LastServiceCounts(scope, eligible, n - 1, id, i);
    }
  }

  /** A process with an empty store reports the evidence that another one has shared ten seconds ago. */
  lemma FreshWorkerExample(row: ProbeRow, clock: real, now: real)
    requires row.id == "grafana" && row.state == Ok
    ensures var m := MergeInput(Public, [Service("grafana", "", None)], [], "", clock,
                                [Envelope("grafana", row, "", Some(now - 10.0))], now);
            && "grafana" in Report(map[], m) && Report(map[], m)["grafana"].lastKnown == None
            && Report(map[], m)["grafana"].row == row && Report(map[], m)["grafana"].age == 10.0
  {
    var m := MergeInput(Public, [Service("grafana", "", None)], [], "", clock,
                        [Envelope("grafana", row, "", Some(now - 10.0))], now);
    var service := m.eligible[0];
    assert service in m.eligible && service.id == "grafana";
    assert Lifetime(m, "grafana") >= 300.0 && Acceptable(m.shared[0], m, "grafana");
    assert FirstOfLatest(m, "grafana", 1, 0);
    SharedIsReported(map[], m, "grafana", 0);
    ReportIsHonest(map[], m, "grafana");
    StaleLater(CadenceFor(Public, m.eligible, "grafana"));
  }
}
