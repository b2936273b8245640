/** The rolling evidence store behind the sampled probes
    (nabla/api/homelab_probe_evidence.py). Times are in seconds on one clock that the caller reads. */
module ProbeEvidence {
  import opened ProbePolicy
  import opened Reals
  import opened Wrappers

  const PROBE_EVIDENCE_TTL_SEC := 300.0
  const MAX_PROBE_EVIDENCE_RETENTION_SEC := 3600.0
  const MAX_PROBES_PER_REFRESH := 12

  datatype Scope = Public | Internal

  datatype ProbeState = Ok | Warn | Fail | Other

  /** One probe result; an empty id stands for a missing one. */
  datatype ProbeRow = ProbeRow(id: string, state: ProbeState, reachable: Option<bool>, httpStatus: Option<int>,
                               timedOut: bool, error: string)

  datatype Entry = Entry(row: ProbeRow, observedAt: string, recordedAt: real, interval: Option<real>)

  type Store = map<string, Entry>

  datatype Source = Origin | Memory | Deadline

  datatype AnnotatedRow = AnnotatedRow(
    row: ProbeRow,
    source: Source,
    observedAt: string,
    age: real,
    stale: bool,
    staleAfter: real,
    nextProbeIn: Option<real>,
    refreshError: Option<string>,
    lastKnown: Option<ProbeRow>)

  /** A shared envelope: `epoch` is the observation time if its text names one with a time zone. */
  datatype SharedEntry =
    | Envelope(serviceId: string, row: ProbeRow, observedAt: string, epoch: Option<real>)
    | Malformed

  /** A missing or zero interval counts as the default one. */
  function Cadence(interval: Option<real>): real {
    match interval
    case Some(seconds) => if seconds == 0.0 then PROBE_EVIDENCE_TTL_SEC else seconds
    case None => PROBE_EVIDENCE_TTL_SEC
  }

  function StaleAfter(interval: Option<real>): real {
    Max(HEALTH_CACHE_TTL_SEC * 2.0, Cadence(interval) * 2.0)
  }

  function Retention(interval: Option<real>): real {
    Max(PROBE_EVIDENCE_TTL_SEC, Min(MAX_PROBE_EVIDENCE_RETENTION_SEC, Cadence(interval) * 3.0))
  }

  /** An entry that is still retained can be reported stale exactly when its cadence is under half
      an hour. */
  lemma StaleIffShortCadence(interval: Option<real>)
    requires Cadence(interval) > 0.0
    ensures (exists age :: RetainedButStale(age, interval)) <==> Cadence(interval) < 1800.0
  {
    if Cadence(interval) < 1800.0 {
      assert RetainedButStale(StaleAfter(interval), interval);
    }
  }

  predicate RetainedButStale(age: real, interval: Option<real>) {
    StaleAfter(interval) <= age < Retention(interval)
  }

  function Annotated(entry: Entry, source: Source, now: real, refreshError: Option<string>): AnnotatedRow {
    var age := Max(0.0, now - entry.recordedAt);
    var stale := age >= StaleAfter(entry.interval);
    var next := match entry.interval
      case Some(seconds) => Some(Max(0.0, seconds - age))
      case None => None;
    var shown := if !stale then entry.row else
      entry.row.(state := Warn, reachable := None,
                 httpStatus := if entry.row.httpStatus.Some? then Some(0) else None);
    AnnotatedRow(shown, source, entry.observedAt, age, stale, StaleAfter(entry.interval), next, refreshError,
                 if stale then Some(entry.row) else None)
  }

  // ---------------------------------------------------------------- cadence by service

  function LimitOf(scope: Scope): nat {
    MAX_PROBES_PER_REFRESH
  }

  /** The estimate for the last of the first `n` eligible services that has the id. */
  function LastEstimate(scope: Scope, eligible: seq<Service>, n: nat, id: string): Option<real>
    requires n <= |eligible|
  {
    if n == 0 then None
    else if eligible[n - 1].id == id then EstimatedProbeInterval(eligible[n - 1], eligible, LimitOf(scope))
    else LastEstimate(scope, eligible, n - 1, id)
  }

  /** The interval recorded for an id: where a catalog repeats an id, its last service counts. */
  function CadenceFor(scope: Scope, eligible: seq<Service>, id: string): Option<real> {
    LastEstimate(scope, eligible, |eligible|, id)
  }

  // ---------------------------------------------------------------- the merge as functions

  /** Everything one merge is given besides the store. */
  datatype MergeInput = MergeInput(
    scope: Scope,
    eligible: seq<Service>,
    current: seq<ProbeRow>,
    checkedAt: string,
    clock: real,
    shared: seq<SharedEntry>,
    epochNow: real)

  /** The entry a shared envelope offers, if it is acceptable. */
  function Offered(envelope: SharedEntry, m: MergeInput): Option<Entry> {
    match envelope
    case Malformed => None
    case Envelope(id, row, observedAt, epoch) =>
      if !IdIn(m.eligible, id) || row.state == Other || epoch == None then None
      else
        var age := m.epochNow - epoch.value;
        var entry := Entry(row.(id := id), observedAt, m.clock - Max(0.0, age), CadenceFor(m.scope, m.eligible, id));
        if age < -30.0 || age >= MAX_PROBE_EVIDENCE_RETENTION_SEC || age >= Retention(entry.interval) then None
        else Some(entry)
  }

  function ImportOne(store: Store, envelope: SharedEntry, m: MergeInput): Store {
    match Offered(envelope, m)
    case None => store
    case Some(entry) =>
      if entry.row.id in store && entry.recordedAt <= store[entry.row.id].recordedAt then store
      else store[entry.row.id := entry]
  }

  function ImportFirst(store: Store, m: MergeInput, n: nat): Store
    requires n <= |m.shared|
  {
    if n == 0 then store else ImportOne(ImportFirst(store, m, n - 1), m.shared[n - 1], m)
  }

  /** Shared envelopes are only ever read for the public scope. */
  function Imported(store: Store, m: MergeInput): Store {
    if m.scope == Public then ImportFirst(store, m, |m.shared|) else store
  }

  predicate Survives(entry: Entry, id: string, m: MergeInput) {
    IdIn(m.eligible, id) && m.clock - entry.recordedAt < Retention(CadenceFor(m.scope, m.eligible, id))
  }

  function Kept(store: Store, m: MergeInput): Store {
    map id | id in store && Survives(store[id], id, m) :: store[id].(interval := CadenceFor(m.scope, m.eligible, id))
  }

  /** The current results by id: the last row of an id wins and rows without an id are dropped. */
  function RowsById(rows: seq<ProbeRow>): map<string, ProbeRow> {
    if rows == [] then map[]
    else
      var rest, last := RowsById(rows[..|rows| - 1]), rows[|rows| - 1];
      if last.id == "" then rest else rest[last.id := last]
  }

  function Fresh(row: ProbeRow, id: string, m: MergeInput): Entry {
    Entry(row, m.checkedAt, m.clock, CadenceFor(m.scope, m.eligible, id))
  }

  function Recorded(store: Store, rows: map<string, ProbeRow>, m: MergeInput): Store {
    store + map id | id in rows && !rows[id].timedOut :: Fresh(rows[id], id, m)
  }

  /** The store after the merge. */
  function Merged(store: Store, m: MergeInput): Store {
    Recorded(Kept(Imported(store, m), m), RowsById(m.current), m)
  }

  function CurrentRow(row: ProbeRow, id: string, kept: Store, m: MergeInput): AnnotatedRow {
    if !row.timedOut then Annotated(Fresh(row, id, m), Origin, m.clock, None)
    else if id in kept then Annotated(kept[id], Memory, m.clock, Some(RefreshError(row)))
    else Annotated(Fresh(row, id, m), Deadline, m.clock, None)
  }

  function RefreshError(row: ProbeRow): string {
    if row.error == "" then "service probe fan-out budget exceeded" else row.error
  }

  /** The rows the merge reports, by id. */
  function Report(store: Store, m: MergeInput): map<string, AnnotatedRow> {
    Reported(Kept(Imported(store, m), m), RowsById(m.current), m)
  }

  function Reported(kept: Store, rows: map<string, ProbeRow>, m: MergeInput): map<string, AnnotatedRow> {
    map id | id in kept.Keys + rows.Keys ::
      if id in rows then CurrentRow(rows[id], id, kept, m) else Annotated(kept[id], Memory, m.clock, None)
  }

  // ---------------------------------------------------------------- the store

  class EvidenceStore {
    var entries: Store

    constructor ()
      ensures entries == map[]
    {
      entries := map[];
    }

    method MergeProbeEvidence(m: MergeInput) returns (merged: map<string, AnnotatedRow>)
      modifies this
      ensures entries == Merged(old(entries), m)
      ensures merged == Report(old(entries), m)
    {
      if m.scope == Public {
        ImportShared(m);
      }
      Expire(m);
      merged := RecordCurrent(m);
    }

    method ImportShared(m: MergeInput)
      modifies this
      ensures entries == ImportFirst(old(entries), m, |m.shared|)
    {
      for i := 0 to |m.shared|
        invariant entries == ImportFirst(old(entries), m, i)
      {
        var offered := Offered(m.shared[i], m);
        if offered.Some? {
          var entry := offered.value;
          var id := entry.row.id;
          if id !in entries || entry.recordedAt > entries[id].recordedAt {
            entries := entries[id := entry];
          }
        }
      }
    }

    /** Refreshes the interval of every entry and drops the entries that are no longer eligible or
        have outlived their retention. */
    method Expire(m: MergeInput)
      modifies this
      ensures entries == Kept(old(entries), m)
    {
      var left := entries.Keys;
      while left != {}
        invariant left <= old(entries).Keys && entries.Keys <= old(entries).Keys
        invariant forall id :: id in left ==> id in entries && entries[id] == old(entries)[id]
        invariant forall id :: id in old(entries) && id !in left ==>
          (id in entries <==> Survives(old(entries)[id], id, m))
        invariant forall id :: id in entries && id !in left ==>
          entries[id] == old(entries)[id].(interval := CadenceFor(m.scope, m.eligible, id))
      {
        var id :| id in left;
        left := left - {id};
        var entry := entries[id].(interval := CadenceFor(m.scope, m.eligible, id));
        var expired := m.clock - entry.recordedAt >= Retention(entry.interval);
        entries := if !IdIn(m.eligible, id) || expired then entries - {id} else entries[id := entry];
      }
    }

    /** Stores the rows that did not time out and reports every row, then fills in from the store. */
    method RecordCurrent(m: MergeInput) returns (merged: map<string, AnnotatedRow>)
      modifies this
      ensures entries == Recorded(old(entries), RowsById(m.current), m)
      ensures merged == Reported(old(entries), RowsById(m.current), m)
    {
      var rows := RowsById(m.current);
      merged := map[];
      var left := rows.Keys;
      while left != {}
        invariant left <= rows.Keys
        invariant RecordedBut(left, entries, old(entries), rows, m)
        invariant ReportedBut(left, merged, old(entries), rows, m)
      {
        var id :| id in left;
        ghost var before, reported := entries, merged;
        merged := merged[id := CurrentRow(rows[id], id, entries, m)];
        if !rows[id].timedOut {
          entries := entries[id := Fresh(rows[id], id, m)];
        }
        RecordOne(left, id, before, entries, reported, merged, old(entries), rows, m);
        left := left - {id};
      }
      AllRecorded(entries, old(entries), rows, m);
      AllReported(merged, old(entries), rows, m);
      merged := FillIn(merged, m);
      FilledInIsReported(old(entries), rows, m);
    }

    method FillIn(merged: map<string, AnnotatedRow>, m: MergeInput) returns (full: map<string, AnnotatedRow>)
      ensures full == FilledIn(merged, entries, m)
    {
      full := merged;
      var left := entries.Keys;
      while left != {}
        invariant left <= entries.Keys
        invariant forall id :: id in full <==> id in merged || (id in entries && id !in left)
        invariant forall id :: id in full ==>
          full[id] == if id in merged then merged[id] else Annotated(entries[id], Memory, m.clock, None)
      {
        var id :| id in left;
        left := left - {id};
        if id !in full {
          full := full[id := Annotated(entries[id], Memory, m.clock, None)];
        }
      }
    }
  }

  function FilledIn(merged: map<string, AnnotatedRow>, store: Store, m: MergeInput): map<string, AnnotatedRow> {
    map id | id in merged.Keys + store.Keys ::
      if id in merged then merged[id] else Annotated(store[id], Memory, m.clock, None)
  }

  /** All rows but those in `left` have been recorded. */
  ghost predicate RecordedBut(left: set<string>, store: Store, kept: Store, rows: map<string, ProbeRow>,
                              m: MergeInput) {
    && (forall id :: id in store <==> id in kept || (id in rows && id !in left && !rows[id].timedOut))
    && (forall id :: id in store ==>
          store[id] == if id in rows && id !in left && !rows[id].timedOut then Fresh(rows[id], id, m) else kept[id])
  }

  ghost predicate ReportedBut(left: set<string>, merged: map<string, AnnotatedRow>, kept: Store,
                              rows: map<string, ProbeRow>, m: MergeInput)
  {
    && (forall id :: id in merged <==> id in rows && id !in left)
    && (forall id :: id in merged ==> merged[id] == CurrentRow(rows[id], id, kept, m))
  }

  lemma RecordOne(left: set<string>, id: string, before: Store, after: Store, reported: map<string, AnnotatedRow>,
                  merged: map<string, AnnotatedRow>, kept: Store, rows: map<string, ProbeRow>, m: MergeInput)
    requires id in left && left <= rows.Keys
    requires RecordedBut(left, before, kept, rows, m) && ReportedBut(left, reported, kept, rows, m)
    requires merged == reported[id := CurrentRow(rows[id], id, before, m)]
    requires after == if rows[id].timedOut then before else before[id := Fresh(rows[id], id, m)]
    ensures RecordedBut(left - {id}, after, kept, rows, m) && ReportedBut(left - {id}, merged, kept, rows, m)
  {
    hide RecordedBut, ReportedBut, Fresh, CurrentRow;
    RecordKept(left, id, before, after, kept, rows, m);
    ReportOne(left, id, reported, merged, kept, rows, m);
  }

  lemma RecordKept(left: set<string>, id: string, before: Store, after: Store, kept: Store,
                   rows: map<string, ProbeRow>, m: MergeInput)
    requires id in left && left <= rows.Keys && RecordedBut(left, before, kept, rows, m)
    requires after == if rows[id].timedOut then before else before[id := Fresh(rows[id], id, m)]
    ensures RecordedBut(left - {id}, after, kept, rows, m)
    ensures CurrentRow(rows[id], id, before, m) == CurrentRow(rows[id], id, kept, m)
  {
    hide Fresh, Annotated;
    assert id in before <==> id in kept;
    assert id in kept ==> before[id] == kept[id];
  }

  lemma ReportOne(left: set<string>, id: string, reported: map<string, AnnotatedRow>,
                  merged: map<string, AnnotatedRow>, kept: Store, rows: map<string, ProbeRow>, m: MergeInput)
    requires id in left && left <= rows.Keys && ReportedBut(left, reported, kept, rows, m)
    requires merged == reported[id := CurrentRow(rows[id], id, kept, m)]
    ensures ReportedBut(left - {id}, merged, kept, rows, m)
  {
    hide CurrentRow;
  }

  lemma AllRecorded(store: Store, kept: Store, rows: map<string, ProbeRow>, m: MergeInput)
    requires RecordedBut({}, store, kept, rows, m)
    ensures store == Recorded(kept, rows, m)
  {
  }

  lemma AllReported(merged: map<string, AnnotatedRow>, kept: Store, rows: map<string, ProbeRow>, m: MergeInput)
    requires ReportedBut({}, merged, kept, rows, m)
    ensures merged == map id | id in rows :: CurrentRow(rows[id], id, kept, m)
  {
  }

  lemma FilledInIsReported(kept: Store, rows: map<string, ProbeRow>, m: MergeInput)
    ensures FilledIn(map id | id in rows :: CurrentRow(rows[id], id, kept, m), Recorded(kept, rows, m), m) ==
            Reported(kept, rows, m)
  {
  }
}
