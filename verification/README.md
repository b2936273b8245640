# Verified models of the nabla health service

Most of this FastAPI service is input and output. This project models the parts of it that are not, and
proves what they promise. Each Dafny module stands for one source file or one component of it; the
generic helper modules (`Lists`, `Sorting`, `TextOrder`, `TextTools`, `Decimal`, `Dicts`, `Iteration`,
`Reals`, `GreatestDivisor`, `Rotation`, `Polling`, `Wrappers`) hold the library operations and the
arithmetic that several of them need.

`dafny verify dfyconfig.toml` checks everything.

**Dependency health** (`DependencyGraph`, `DependencyHealth`, `DependencyRows`). The worklist search, the
cycle report, the round-by-round propagation and the published rows. The outcome is characterised by paths: a
row is degraded exactly when a live path leads from it to an impaired row, on every finite graph, cyclic or
not. The round bound is proved sufficient and the outcome the least fixpoint.

**Probe scheduler and evidence** (`ProbePolicy`, `ProbeUnits`, `ProbePlanning`, `ProbeEvidence`,
`EvidenceImports`, `EvidenceRuns`, `EvidenceReports`, `EvidenceLimit`, `PolledServices`, `ProbeCoverage`). The
sampling window is fair and its advertised figures are exact. Scheduler and evidence store together keep every
service's evidence fresh exactly when the advertised full cycle is at most 119 buckets of 30 seconds; from
then on coverage is complete. Which services are probed and reported at all when buckets are skipped
regularly, and when evidence is fresh under any spacing of the refreshes, is proved as well.

**External probe cache** (`ProbeCache`, `ProbeCacheProtocol`, `ProbeCacheSteps`, `ProbeCacheLastGood`,
`ProbeCacheAnswers`, `ProbeCacheCutOff`). Any number of callers of one process, interleaved at every await
with one another, with the clock and with other processes' use of Redis, and interrupted at every await that
can suspend. Circuit breaker and rate budget are arbitrary answers; loaders are arbitrary values or failures.

**Other caches** (`StaleWhileRevalidate`, `RuntimeCache`). The health board, catalog and topology caches are
one machine; the TrueNAS runtime cache keeps the last reachable observation.

**Parsers and printers** (`GitDescribe`, `QueryString`, `OwnerCookie`). Each pair is proved to round-trip
exactly as far as it does.

**Resources and inventory** (`ExitStacks`, `Lifespan`, `LifespanMeaning`, `Reconciliation`). Startup and
shutdown under every combination of failing steps, and the joining of declared services with observed apps.

Where the code changes state step by step the model is imperative: methods with loops, or a class, proved
against a function or a relation that the lemmas are about. A protocol whose steps interleave is a state
machine over its events, and the theorems are about every run of it.

Some promises turn out to hold only under a condition. The condition is proved to be the exact one, and a
lemma gives a case that fails:

- Evidence is sure to stay fresh only if the advertised full cycle is at most 119 buckets, because retention
  is capped at an hour (`EvidenceLimit.FreshnessLimit`). 1429 services without priorities take 120
  (`EvidenceLimit.OverlongCatalogExample`).
- Refreshes in every g-th bucket ever probe all services only if the greatest common divisor of g times the
  slots and the size of the rotation is at most the slots (`PolledServices.PollingProbesAll`). With 24 services
  without priorities and one refresh a minute, half are never probed (`PolledServices.MinutePollingExample`).
- The lock in Redis is released after every origin refresh only if the caller is not interrupted while it
  gives the provider's slot back (`ProbeCacheProtocol.ReleasesUnlessCutOff`,
  `ProbeCacheCutOff.ReleaseCanBeSkipped`). Whoever does not hold that slot always releases the lock
  (`ProbeCacheProtocol.SlotlessAlwaysReleases`).
- Known and unobserved services add up to the eligible ones only in an enabled scope; a disabled one needs its
  disabled slots as well (`ProbeCoverage.CoverageAddsUp`, `ProbeCoverage.DisabledScopeExample`).
- Published rows agree with their own evidence only if the last row of an id has the same state, or a
  dependency degrades both (`DependencyRows.SelfConsistencyMeaning`); under every topology that takes rows of
  one id to agree (`DependencyRows.SelfConsistencyNeedsAgreement`). `DependencyRows.DuplicateIdsExample` has a
  failed row published as ok, `DependencyRows.DisagreeingRowsExample` a disagreement that does no harm.
- The order of the units matters to `select_probe_units` within the limit, where it returns its input
  (`ProbeUnits.SmallSelectionKeepsOrder`, `ProbeUnits.ExchangedUnitsExample`).
- A component without a declared unit is alone in its unit only if no component declares a unit under the
  reserved prefix (`ProbePlanning.AloneUnlessNamed`, `ProbePlanning.ReservedNameExample`).
- A described version prints back as itself only with a canonical commit count and a tag that is more than
  the prefix (`GitDescribe.PrintAfterRead`, `GitDescribe.LeadingZeroExample`, `GitDescribe.BareTagExample`).
- A printed query string reads back as itself only if its first key does not start with a question mark
  (`QueryString.ReadAfterPrint`, `QueryString.MarkedKeyExample`).

## Model

| member | source | states |
|---|---|---|
| DependencyGraph.Reachable | nabla/api/homelab_dependency_health.py:65-74 | The worklist search returns exactly the nodes that the start reaches, itself included, and terminates although `pending` may hold a node twice. |
| DependencyGraph.RequiredDependencyCycles | nabla/api/homelab_dependency_health.py:77-99 | Exactly the nodes with a mutual partner are mapped, each to its strongly connected component in increasing order without repetition. |
| DependencyGraph.CycleIffPartner | nabla/api/homelab_topology.py:219-224 | Once self-relations are rejected, having a partner is being on a directed cycle. |
| DependencyGraph.ComponentsSplit | nabla/api/homelab_dependency_health.py:77-99 | Two components are the same or share no node, so removing a whole component from the remaining nodes loses nothing. |
| DependencyHealth.Propagate | nabla/api/homelab_dependency_health.py:155-176 | The loop, within its bound of one round more than rows, ends at a fixpoint of the round. |
| DependencyHealth.NextStates | nabla/api/homelab_dependency_health.py:159-174 | One round resolves every row against the states of the round before, and `changed` tells whether any state differs. |
| DependencyHealth.RoundsSettle | nabla/api/homelab_dependency_health.py:158-176 | After as many rounds as rows nothing changes any more: the bound suffices on every graph. |
| DependencyHealth.GrowsOrStops | nabla/api/homelab_dependency_health.py:158-176 | Until it stops for good, the set of impaired rows gains a row in every round. |
| DependencyHealth.SettledMeaning | nabla/api/homelab_dependency_health.py:34-52 | A row fails iff it fails itself; it is degraded iff it does not fail and a path of required relations with present, non-stale targets leads to a failed or degraded row; otherwise it keeps its own state. |
| DependencyHealth.SettledIsLeast | nabla/api/homelab_dependency_health.py:102-113 | Any other assignment that a round leaves alone agrees with the outcome or degrades the row. |
| DependencyRows.RequiredRelations | nabla/api/homelab_dependency_health.py:55-62 | The loop groups the relations as the function whose meaning RequiredOfGroups states. |
| DependencyRows.RequiredOfGroups | nabla/api/homelab_dependency_health.py:55-62 | Each source has exactly its required, health-bearing relations, in order, and no source has an empty list. |
| DependencyRows.RequiredTargetsMeaning | nabla/api/homelab_dependency_health.py:14-23 | These are the targets, in order, of all required relations but those of the five kinds that bear no health. |
| DependencyRows.IndexMeaning | nabla/api/homelab_dependency_health.py:150-151 | An id is indexed iff a row has it as its text; the state and the staleness of the last such row count. |
| DependencyRows.PropagateRequiredDependencyHealth | nabla/api/homelab_dependency_health.py:145-226 | Field by field, every row is published as the input rows, the relations and the live paths between them call for, and reports its component, sorted, iff its node has a partner. |
| DependencyRows.PublishedMeaning | nabla/api/homelab_dependency_health.py:178-208 | The state is that of the indexed row of the id: failed if it failed, degraded if a live path leads to an impaired row, else its own; the dependencies' state is the worst one blamed; each blame list holds, in order, exactly the dependencies that its condition on the input picks out. |
| DependencyRows.PublishedSplit | nabla/api/homelab_dependency_health.py:192-208 | As multisets the required dependencies are the blocking, degrading and unconfirmed ones and those whose present, non-stale row is ok. |
| DependencyRows.BlameMeaning | nabla/api/homelab_dependency_health.py:178-206 | A dependency blocks, degrades or is unconfirmed iff a condition on the input rows and paths alone holds. |
| DependencyRows.EvidenceMeaning | nabla/api/homelab_dependency_health.py:116-142 | Each dependency is evidenced by its settled state, in terms of paths, and by the state that counts, which is unknown unless its row is present and not stale. |
| DependencyRows.RowConsistency | nabla/api/homelab_dependency_health.py:178-199 | For one row of one topology: its effective state agrees with the evidence shown beside it iff the last row of its id has its state, or neither of the two fails and some live dependency reaches an impaired row. |
| DependencyRows.SelfConsistencyMeaning | nabla/api/homelab_dependency_health.py:178-199 | For one topology all rows are published consistently iff that holds of each of them. |
| DependencyRows.SelfConsistencyNeedsAgreement | nabla/api/homelab_dependency_health.py:178-199 | The rows are published consistently under every topology iff rows that answer to one id agree on their state. |
| DependencyRows.UniqueIdsAgree | nabla/api/homelab_dependency_health.py:150-151 | Rows with unique string ids do agree. |
| DependencyRows.DuplicateIdsExample | nabla/api/homelab_dependency_health.py:151-199 | A failed and an ok row of one id: the failed one is published as ok. |
| DependencyRows.DisagreeingRowsExample | nabla/api/homelab_dependency_health.py:151-199 | An ok and an unknown row of one id with a failed dependency: they disagree and are still published consistently. |
| ProbePolicy.UniqueServices | nabla/api/homelab_probe_policy.py:55-65 | The loop keeps what UniqueKeepsFirst describes. |
| ProbePolicy.UniqueKeepsFirst | nabla/api/homelab_probe_policy.py:55-65 | Ids occur once, none is lost, and the declaration kept is the first of its id. |
| ProbePolicy.RankedIgnoresOrder | nabla/api/homelab_probe_policy.py:46-52 | The ranking is the same list for every order of a catalog with unique ids. |
| ProbePolicy.FixedAreHighestRanked | nabla/api/homelab_probe_policy.py:46-79 | The fixed services are the highest-ranked, in the one rank space that counts; a ranked service is left to rotation only when the fixed part is full of services that outrank it. |
| ProbePolicy.FixedIgnoresOrder | nabla/api/homelab_probe_policy.py:68-80 | So is the fixed part. |
| ProbePolicy.PartitionFacts | nabla/api/homelab_probe_policy.py:68-80 | Fixed and rotating services split the catalog; above the limit rotation has more members than slots. |
| ProbePolicy.SelectionFillsLimit | nabla/api/homelab_probe_policy.py:97-116 | A selection has exactly `limit` services with distinct ids once services outnumber the limit, and all of them otherwise. |
| ProbePolicy.SubsetMeaning | nabla/api/homelab_probe_policy.py:97-116 | From a catalog with repeated ids too, a selection has different ids, each by its first declaration, and as many as the limit allows. |
| ProbePolicy.SelectionLayout | nabla/api/homelab_probe_policy.py:107-116 | The fixed services are listed first, by rank, then the slots of rotation in turn from the place the bucket has reached. |
| ProbePolicy.FixedSize | nabla/api/homelab_probe_policy.py:68-80 | All ranked services are fixed as far as the limit allows, less one slot for rotation at a limit of four and two from five on. |
| ProbePolicy.GarageIsAlwaysSelected | nabla/api/homelab_probe_policy.py:17-37 | While the catalog ranks nothing, the three Garage targets it has are selected in every bucket under every limit of at least three. |
| Rotation.WindowFacts | nabla/api/homelab_probe_policy.py:110-116 | The modular window has distinct members of the ring, as many as slots. |
| Rotation.IntervalIsExact | nabla/api/homelab_probe_policy.py:135-138 | For every single rotating member the ceiling of ring over slots is the least number of consecutive buckets that are sure to select it. |
| Rotation.SomeoneMissed | nabla/api/homelab_probe_policy.py:157-160 | No shorter run selects the whole ring, wherever it starts. |
| Polling.PolledMeaning | nabla/api/homelab_probe_policy.py:110-116 | Looking at every g-th bucket only, the window ever selects a member of the ring iff its place, counted from the first window and modulo gcd(g * slots, size), is below the slots, and then within size / gcd(g * slots, size) looks. |
| Polling.PollingReachesAll | nabla/api/homelab_probe_policy.py:110-116 | The looks select the whole ring iff gcd(g * slots, size) is at most the slots, wherever they start. |
| ProbePolicy.IntervalIsTight | nabla/api/homelab_probe_policy.py:119-138 | The advertised interval is missing iff no bucket ever probes the service; otherwise it is 30 seconds times the least sure number of buckets, and after any time a run of all but one of these comes that misses the service. |
| ProbePolicy.FullCycleIsTight | nabla/api/homelab_probe_policy.py:141-160 | A run of buckets probes the whole catalog iff it is at least as long as the advertised full cycle; without one no run does, unless the catalog is empty, which has none. |
| ProbePolicy.StarvedIff | nabla/api/homelab_probe_policy.py:77-79 | Rotation has no slot iff the limit is at most three and the priorities use it up. |
| ProbePolicy.PrioritiesFixedThenRotated | nabla/api/homelab_probe_policy.py:83-94 | Fixed priorities followed by rotated ones are exactly the ranked priorities. |
| ProbePolicy.NoneRotatedWithinLimit | nabla/api/homelab_probe_policy.py:83-94 | Within the limit none is rotated. |
| ProbeUnits.SelectProbeUnits | nabla/api/homelab_probe_units.py:128-170 | Empty under a non-positive limit, an error for a negative cycle or a repeated id, else the selection the lemmas describe. |
| ProbeUnits.RepeatedId | nabla/api/homelab_probe_units.py:143-147 | The collecting loop stops at the first unit whose id an earlier one has. |
| ProbeUnits.OutcomeMeaning | nabla/api/homelab_probe_units.py:128-149 | Nothing under a non-positive limit; then a negative cycle and the first repeated id are errors; else the units selected. |
| ProbeUnits.FixedAreMostUrgent | nabla/api/homelab_probe_units.py:150-156 | The same for units: by priority, then id. |
| ProbeUnits.FixedSize | nabla/api/homelab_probe_units.py:150-156 | All units with a priority are fixed, most urgent first, as far as one slot, or two from a limit of five on, is left to rotation. |
| ProbeUnits.SelectionLayout | nabla/api/homelab_probe_units.py:163-170 | Fixed units first, then the slots of rotation in turn from the place the cycle has reached. |
| ProbeUnits.RotationByUrgency | nabla/api/homelab_probe_units.py:157-164 | The rotating units with a priority come first, most urgent first, ties by id. |
| ProbeUnits.SelectionFillsLimit | nabla/api/homelab_probe_units.py:128-170 | Above the limit exactly `limit` distinct units are selected. |
| ProbeUnits.NeverStarves | nabla/api/homelab_probe_units.py:150-170 | Under every positive limit rotation has a slot, and a run of cycles selects every unit iff it has at least ceil(rotating / slots) cycles. |
| ProbeUnits.SelectionIgnoresOrder | nabla/api/homelab_probe_units.py:128-170 | The set of selected units never depends on the input order, and above the limit neither does the list. |
| ProbeUnits.SmallSelectionKeepsOrder | nabla/api/homelab_probe_units.py:148-149 | Within the limit the list changes with the order of the input iff that order changes. |
| ProbeUnits.ExchangedUnitsExample | nabla/api/homelab_probe_units.py:148-149 | Two units under a limit of two, exchanged: the selection is exchanged too. |
| ProbePlanning.GroupComponents | nabla/api/homelab_probe_units.py:37-63 | The loop fails with the first component error, or groups exactly the eligible components by key in catalog order. |
| ProbePlanning.FirstErrorMeaning | nabla/api/homelab_probe_units.py:44-57 | A catalog is refused iff some component is at fault, and for the fault of the first one: an empty id, an earlier component's id, a unit of blanks, or a priority outside 0 to 1000. |
| ProbePlanning.EndpointsAreMembers | nabla/api/homelab_probe_units.py:66-94 | Resolved endpoints are distinct members of the unit; inside, a policy is taken as declared or refused. |
| ProbePlanning.EndpointsMeaning | nabla/api/homelab_probe_units.py:66-94 | The first member without any policy, an error with two different ones, and else what the one policy says, with its errors in order. |
| ProbePlanning.PlannedMeaning | nabla/api/homelab_probe_units.py:97-125 | A unit holds the observed components that belong to it, in catalog order, with the least of their priorities and the endpoints their policies come to. |
| ProbePlanning.LeastPriorityIsMinimum | nabla/api/homelab_probe_units.py:113-114 | A unit's priority is that of its most urgent member that has one. |
| ProbePlanning.BuildProbeUnits | nabla/api/homelab_probe_units.py:97-125 | Success is a plan with unique ids sorted by id; failure is the first component error or, without any, the endpoint error of the first unit, in order of first appearance, that has one. |
| ProbePlanning.KeysByFirstAppearance | nabla/api/homelab_probe_units.py:54-63 | In that order the first eligible component of an earlier key comes before all those of a later key. |
| ProbePlanning.UnitsPartition | nabla/api/homelab_probe_units.py:97-125 | Each eligible component is in exactly one unit and nothing else is in any, so a public plan holds no private component. |
| ProbePlanning.AloneUnlessNamed | nabla/api/homelab_probe_units.py:60-62 | A component without a declared unit is alone in its unit iff no eligible component declares a unit under its reserved name. |
| ProbePlanning.ReservedNameExample | nabla/api/homelab_probe_units.py:60-62 | A component that declares the reserved name of another is planned into its unit. |
| ProbePlanning.EveryComponentGetsItsTurn | nabla/api/homelab_probe_units.py:97-170 | Planning and selection: every eligible component's unit is selected within every ceil(rotating / slots) cycles, and within the limit in every single one. |
| ProbeEvidence.StaleIffShortCadence | nabla/api/homelab_probe_evidence.py:39-46 | An entry still retained can be reported stale iff its cadence is below half an hour. |
| EvidenceImports.LimitsInSeconds | nabla/api/homelab_probe_evidence.py:39-46 | The stale limit and the retention of every interval, in seconds. |
| ProbeEvidence.EvidenceStore.MergeProbeEvidence | nabla/api/homelab_probe_evidence.py:100-211 | The store and the report after a merge are those of the functions that the run lemmas are about. |
| ProbeEvidence.EvidenceStore.ImportShared | nabla/api/homelab_probe_evidence.py:117-156 | Shared entries are imported in order, each replacing only an older record. |
| EvidenceImports.ImportMeaning | nabla/api/homelab_probe_evidence.py:117-156 | After the import an id has an entry iff it had one or some envelope for it is acceptable: eligible, in a known state, at a known time, at most 30 seconds ahead and inside its lifetime. The entry is the old one unless an acceptable envelope is later, and else the first of the latest acceptable ones. |
| EvidenceImports.ReportedWithoutProbe | nabla/api/homelab_probe_evidence.py:117-211 | Of an eligible service without a current row something is reported iff there is an entry inside its lifetime or an acceptable envelope. |
| EvidenceImports.SharedIsReported | nabla/api/homelab_probe_evidence.py:117-211 | The first of the latest acceptable envelopes, if later than the old entry, is what is reported, with its own row, time and age. |
| EvidenceImports.FreshWorkerExample | nabla/api/homelab_probe_evidence.py:117-156 | A process with an empty store reports what another one has shared ten seconds ago. |
| EvidenceImports.ReportIsHonest | nabla/api/homelab_probe_evidence.py:49-82 | Every reported row is stale iff it has reached its limit; a stale one only warns, with unknown reachability and the recorded row beside it; any other shows the recorded row. |
| EvidenceImports.LastRowCounts | nabla/api/homelab_probe_evidence.py:164 | Of several current rows of one id the last counts; rows without an id do not. |
| ProbeEvidence.EvidenceStore.Expire | nabla/api/homelab_probe_evidence.py:158-162 | Intervals are refreshed; ineligible entries and those past their retention go, no others. |
| ProbeEvidence.EvidenceStore.RecordCurrent | nabla/api/homelab_probe_evidence.py:164-211 | Rows that did not time out are recorded; every id of the store or the rows is reported once. |
| EvidenceRuns.MergeAt | nabla/api/homelab_probe_evidence.py:158-211 | For one id: a probe that came back replaces its entry; otherwise, and after a timeout, only import and retention decide. |
| EvidenceRuns.SurvivorsAreYoung | nabla/api/homelab_probe_evidence.py:44-46 | Every surviving entry is younger than its retention. |
| EvidenceRuns.RecordedNeverGoesBack | nabla/api/homelab_probe_evidence.py:117-211 | Over any run with a fixed catalog and a clock that does not go back, the time recorded for an id never decreases, even across eviction and re-import. |
| EvidenceRuns.UnselectedStretch | nabla/api/homelab_probe_policy.py:97-138 | Between two probes of a service fewer buckets pass than its advertised interval has. |
| EvidenceRuns.IntervalInBuckets | nabla/api/homelab_probe_evidence.py:85-97 | The cadence recorded for a service is its least sure number of buckets times 30 seconds. |
| EvidenceRuns.StaysRecorded | nabla/api/homelab_probe_evidence.py:158-205 | Once probed, a service stays recorded, at least as recently as its last probe. |
| EvidenceRuns.ServiceStaysFresh | nabla/api/homelab_probe_evidence.py:49-82 | From its first probe on, a service is reported and not stale at every refresh. |
| EvidenceRuns.EvidenceStaysFresh | nabla/api/homelab_probe_evidence.py:39-211 | From the end of the first full cycle on, every report has exactly one row per eligible service and none is stale. |
| EvidenceReports.ReportShowsLastProbe | nabla/api/homelab_probe_evidence.py:49-211 | Without shared entries a service is reported with exactly the row of its last probe, that probe's time and age, and the rest of its interval as the time to the next probe. |
| EvidenceReports.FreshIffYoung | nabla/api/homelab_probe_evidence.py:39-211 | Complete refreshes at any spacing, nothing shared: a service probed before is reported iff its last probe is younger than its retention, and as not stale iff that is younger than its stale limit as well. |
| EvidenceReports.TimeoutShowsRetained | nabla/api/homelab_probe_evidence.py:167-196 | A timed-out probe records nothing; the retained record is shown with the reason of the failed attempt, or else the attempt marked as such. |
| EvidenceLimit.SlowCycleLosesEvidence | nabla/api/homelab_probe_evidence.py:44-46 | With a full cycle beyond 119 buckets some valid run reports nothing about an eligible service. |
| EvidenceLimit.FreshnessLimit | nabla/api/homelab_probe_evidence.py:39-46 | Evidence is sure to stay fresh iff the advertised full cycle is at most 119 buckets. |
| EvidenceLimit.OverlongCatalogExample | nabla/api/homelab_probe_evidence.py:44-46 | 1429 services without priorities, with ids that the catalog accepts, have in either scope a full cycle of 120 buckets, and their evidence is not sure to stay fresh. |
| PolledServices.PollingProbesAll | nabla/api/homelab_probe_policy.py:97-116 | Refreshes in every g-th bucket probe every service sometime iff there are no more services than the limit, or rotation has slots and gcd(g * slots, rotating) is at most the slots. |
| PolledServices.PollingReportsAll | nabla/api/homelab_probe_evidence.py:100-211 | A run of such refreshes from an empty store, as many as there are services or more, reports every service sometime iff that holds. |
| PolledServices.MinutePollingExample | nabla/api/homelab_probe_policy.py:110-116 | With 24 services without priorities and a refresh in every second bucket, from an even one on, exactly the first twelve are ever selected. |
| ProbeCoverage.CoverageAddsUp | nabla/api/homelab_health.py:197-249 | Known evidence, unobserved services and the slots of a disabled scope make up the eligible count iff the scope is disabled or all known evidence is of eligible services. Without those slots a disabled scope adds up iff nothing is eligible in it. |
| ProbeCoverage.DisabledScopeExample | nabla/api/homelab_health.py:341-369 | In a disabled scope with one eligible service nothing is known or unobserved. |
| ProbeCoverage.MergeAddsUp | nabla/api/homelab_health.py:197-249 | After any merge whose current rows are of eligible services the three figures add up, and the first two do iff the scope is enabled or empty. |
| ProbeCoverage.KnownRowsAndIds | nabla/api/homelab_probe_evidence.py:214-232 | The summary counts as many known rows as there are known ids. |
| ProbeCoverage.SummaryMeaning | nabla/api/homelab_probe_evidence.py:214-232 | After a merge as many rows are current as services came back from a probe, and known, stale and merely attempted rows make up the report. |
| ProbeCoverage.UnobservedMeaning | nabla/api/homelab_health.py:229-248 | An eligible service is listed as unobserved iff no current evidence of it is reported. |
| ProbeCoverage.CoverageBecomesFull | nabla/api/homelab_health.py:197-249 | Scheduler, store and summary: from the end of the first full cycle on all eligible services are known and none is unobserved. |
| ProbeCache.ProbeKeyRecords.Get | nabla/api/external_probe_cache.py:173-188 | A lookup drops an expired entry and tells whether the entry may be served without asking Redis. |
| ProbeCache.StoredIsFound | nabla/api/external_probe_cache.py:165-193 | What was stored is found again, unchanged, while it is inside one of the three windows, and served without Redis while it is less than five seconds old and inside the window of its outcome. |
| ProbeCache.ProbeKeyRecords.AcquireLock | nabla/api/external_probe_cache_redis.py:59-68 | Set-if-absent with expiry: succeeds iff the lock is absent or out of time. |
| ProbeCache.ProbeKeyRecords.ReleaseLock | nabla/api/external_probe_cache_redis.py:71-81 | Compare-and-delete: a lock under another token is left alone. |
| ProbeCache.LockExcludes | nabla/api/external_probe_cache_redis.py:59-81 | Until it expires, the lock of one token gives another token nothing and survives its release; its own release frees it. |
| ProbeCache.ServedMeaning | nabla/api/external_probe_cache.py:131-406 | A cached answer not flagged as stale is the current observation; what replaces it is the valid last good value; unconditional answers are given exactly while the current observation is fresh. |
| ProbeCache.AnswersMeaning | nabla/api/external_probe_cache.py:80-406 | Each kind of cached answer in terms of the records and the policy's windows: a lookup serves only a success younger than the one window or a failure younger than the other; an open circuit, a used-up budget and a refreshing peer serve the last good value as each of them should. |
| ProbeCacheProtocol.StepKeepsInv | nabla/api/external_probe_cache.py:236-568 | Every step of every caller, of the clock and of other processes keeps the protocol's invariant. |
| ProbeCacheAnswers.CheckHotMoves | nabla/api/external_probe_cache.py:261-267 | A hot entry answers at once, everybody else waits for the turn, and an entry outside its windows is dropped. |
| ProbeCacheAnswers.LookUpMoves | nabla/api/external_probe_cache.py:293-309 | Under the turn a hot entry answers; else Redis is asked, and without a client a young entry still answers. |
| ProbeCacheAnswers.ReadRemoteMoves | nabla/api/external_probe_cache.py:270-290 | A young envelope in Redis answers and any is kept locally; otherwise the lock is next; when Redis fails, what was seen answers while it is young. |
| ProbeCacheAnswers.TryLockMoves | nabla/api/external_probe_cache.py:337-353 | The lock is taken iff it is free and the command goes through; whoever does not get it waits for the peer; when Redis fails the caller goes on alone. |
| ProbeCacheAnswers.PeerMoves | nabla/api/external_probe_cache.py:206-217 | Only a young envelope counts as the peer's; once waiting is over, what was seen stands in, flagged, and with nothing seen the caller goes on. |
| ProbeCacheAnswers.DecideMoves | nabla/api/external_probe_cache.py:361-382 | An open circuit answers with what was seen, without a refresh; otherwise, or with nothing seen, the refresh starts. |
| ProbeCacheAnswers.AdmitMoves | nabla/api/external_probe_cache.py:385-406 | A used-up budget ends the refresh with what stands in, if anything; else the load starts. |
| ProbeCacheAnswers.StoreMoves | nabla/api/external_probe_cache.py:441-517 | What was loaded is kept locally, with the right last good value, and goes to Redis if that has been up. |
| ProbeCacheAnswers.LookupsGiveYoung | nabla/api/external_probe_cache.py:80-92 | In every run, whoever is answered by a lookup is given a success younger than the window of successes or a failure younger than that of failures. |
| ProbeCacheSteps.LookUpRecords | nabla/api/external_probe_cache.py:261-309 | The lookup under the turn takes the records from one protocol state to the next, and serves a hot and fresh entry. |
| ProbeCacheSteps.TryLockRecords | nabla/api/external_probe_cache.py:337-353 | Asking for the lock does so as well, and the caller believes to hold it iff it was given. |
| ProbeCacheSteps.StoreRecords | nabla/api/external_probe_cache.py:441-461 | Storing the refreshed envelope does so. |
| ProbeCacheSteps.ReleaseRecords | nabla/api/external_probe_cache.py:356-358 | Releasing the lock does so. |
| ProbeCacheProtocol.OneLoader | nabla/api/external_probe_cache.py:519-568 | At no time in any run do two callers of the process load one key. |
| ProbeCacheProtocol.LoadsStartCold | nabla/api/external_probe_cache.py:519-568 | No load starts while the local entry is both hot and fresh. |
| ProbeCacheProtocol.ReleasesUnlessCutOff | nabla/api/external_probe_cache.py:554-568 | In every run, a finished caller that entered the origin refresh with the Redis lock has sent its release iff no event of the run interrupted it while it gave the provider's slot back. |
| ProbeCacheProtocol.SlotlessAlwaysReleases | nabla/api/provider_circuit.py:398-410 | A finished caller that entered the origin refresh with the Redis lock and without the half-open slot has sent its release, whenever it was interrupted. |
| ProbeCacheCutOff.ReleaseCanBeSkipped | nabla/api/provider_circuit.py:398-410 | Under every policy some run ends with such a caller finished and the lock still held under its token. |
| ProbeCacheProtocol.ReleaseSparesOthers | nabla/api/external_probe_cache_redis.py:71-81 | A release only ever deletes the lock under the caller's own token, which no other caller has. |
| ProbeCacheLastGood.RefreshedRemembers | nabla/api/external_probe_cache.py:441-459 | A success becomes the last good value; a failure never replaces it. |
| ProbeCacheLastGood.StepKeepsLocal | nabla/api/external_probe_cache.py:131-568 | Every step of a process without Redis keeps the last good values tied to the latest success. |
| ProbeCacheLastGood.LastGoodIsLatestSuccess | nabla/api/external_probe_cache.py:66-77 | The last good value held is the latest success, and is held while that is younger than the stale window. |
| ProbeCacheLastGood.GivenGoodIsRecent | nabla/api/external_probe_cache.py:131-162 | Every result given to a caller carries as its last good value the latest success, at most the stale window old, or none. |
| StaleWhileRevalidate.Cache.GetSnapshot | nabla/api/health_board.py:359-399 | A request starts a task and answers as the state machine says. |
| StaleWhileRevalidate.Cache.EndFetch | nabla/api/health_board.py:322-352 | A successful fetch replaces the snapshot; a failed one only notes the error. |
| StaleWhileRevalidate.OneRefresh | nabla/api/health_board.py:355-374 | At no time do two refresh tasks run. |
| StaleWhileRevalidate.RequestStartsTask | nabla/api/health_board.py:367-374 | In every run a request starts a task iff it is forced or nothing was committed less than the time to live ago, and no task is running. |
| StaleWhileRevalidate.ErrorOfLastEnd | nabla/api/health_board.py:322-348 | The error on show is that of the refresh that ended last, if it failed. |
| StaleWhileRevalidate.SnapshotIsLastCommit | nabla/api/health_board.py:345-348 | The snapshot and its time are those of the last successful refresh; failures leave both alone. |
| StaleWhileRevalidate.NeverLost | nabla/api/homelab_declared.py:263-308 | A snapshot once obtained is never lost. |
| StaleWhileRevalidate.FreshAnswersAreYoung | nabla/api/health_board.py:367-399 | Every answer holds what was committed last; it is called fresh iff it was not forced and that was less than the time to live ago; any other answer comes with a refresh under way; pending means nothing was ever committed. |
| StaleWhileRevalidate.StandInOnlyWhenCold | nabla/api/homelab_topology.py:360-409 | An awaited refresh returns the last committed value, and the built-in stand-in only if none ever succeeded. |
| RuntimeCache.Cache.CachedRuntime | nabla/api/homelab_runtime.py:123-148 | One call of the shared cache. |
| RuntimeCache.LastKnownGoodServed | nabla/api/homelab_runtime.py:123-148 | Once TrueNAS was reached every call returns a reachable snapshot with the apps of the last observation that reached it, marked stale iff a later refresh failed. |
| RuntimeCache.RefreshesAfterTtl | nabla/api/homelab_runtime.py:123-136 | In every run a call refreshes iff it is the first or the time to live has passed since the end of the last refresh; otherwise it returns what is there. |
| RuntimeCache.ErrorOfLastFailure | nabla/api/homelab_runtime.py:138-148 | What is served although a refresh failed carries the error of the last failure, or a fixed text. |
| RuntimeCache.UnreachableUntilReached | nabla/api/homelab_runtime.py:123-148 | Before that a call returns what the last refresh observed, which is not reachable. |
| GitDescribe.SplitIsUnique | nabla/_version.py:367 | A text has at most one split into tag, count and revision, even if the tag looks like a described version. |
| GitDescribe.Search | nabla/_version.py:365-374 | The greedy search finds the split iff there is one. |
| GitDescribe.PiecesFromDescribe | nabla/_version.py:353-393 | Reading yields the pieces, an unparsable text or a wrong prefix, exactly as the text calls for. |
| GitDescribe.ReadingIsUnique | nabla/_version.py:353-393 | The description determines the outcome. |
| GitDescribe.PrintAfterRead | nabla/_version.py:609-626 | Prefix and printed pieces give the text back iff its count is canonical, its tag is more than the prefix and no line break ends it. |
| GitDescribe.LeadingZeroExample | nabla/_version.py:390 | v1-05-gabc is read as five commits and printed without the zero. |
| GitDescribe.BareTagExample | nabla/_version.py:609-626 | v-5-gabc is read with an empty tag and printed without it. |
| GitDescribe.ReadAfterPrint | nabla/_version.py:609-626 | Reading what was printed gives the pieces back, whatever the tag looks like. |
| GitDescribe.DirtyExample | nabla/_version.py:609-626 | A modified work tree is told by its mark, read and printed. |
| Decimal.RenderOfValue | nabla/_version.py:390 | Reading and printing a numeral, in whatever decimal digits, gives it back iff it is in ASCII digits and has no leading zero. |
| QueryString.QueryStringToDict | nabla/db_config.py:124-138 | The loop fills the parameters of the parts, later ones overriding. |
| QueryString.ParsedIsClean | nabla/db_config.py:131-137 | Keys are nonempty and stripped and hold no '=' or '&'; values are stripped and hold no '&'. |
| QueryString.EntryMeaning | nabla/db_config.py:131-137 | A part gives its key before the first equals sign and its value after it, both stripped, and nothing without such a key. |
| QueryString.DressedQuery | nabla/db_config.py:124-130 | Whitespace around a query and question marks before it change nothing. |
| Dicts.LastEntryWins | nabla/db_config.py:131-137 | The last part that names a key gives its value. |
| QueryString.SecuredFacts | nabla/db_config.py:88-91 | sslmode=require is added iff no ssl or sslmode key is present in any case; nothing else changes. |
| QueryString.SslKeyMeaning | nabla/db_config.py:88-91 | Such a key spells ssl or sslmode but for the case of its letters. |
| QueryString.MergeSslmodeRequire | nabla/db_config.py:86-94 | There always is a result, and it prints the secured parameters in key order. |
| QueryString.ListedIsUnique | nabla/db_config.py:94 | The printed order is determined by the keys. |
| QueryString.ReadAfterPrint | nabla/db_config.py:86-138 | Reading the printed parameters gives them back iff the first printed key does not start with a question mark. |
| QueryString.MergeIsIdempotent | nabla/db_config.py:86-94 | Merging twice is merging once iff that holds. |
| QueryString.MarkedKeyExample | nabla/db_config.py:86-138 | &?a=1 is such a query: the printed text reads otherwise, and merging again changes it. |
| OwnerCookie.AcceptedIff | nabla/api/owner_ui_session.py:53-73 | A token is accepted iff a secret is configured, the token has at most 180 characters and consists of two times 1200 seconds apart, a nonce and the keyed hash of the three under that secret, and it is between 30 seconds before the first time and the second. |
| OwnerCookie.OtherSignatureRefused | nabla/api/owner_ui_session.py:73 | A created cookie with any other text for its signature is refused at every time. |
| OwnerCookie.OtherSecretRefused | nabla/api/owner_ui_session.py:34-39 | Under another secret it is accepted only if both secrets give it the same signature. |
| OwnerCookie.PaddedParse | nabla/api/owner_ui_session.py:65 | Times are read with surrounding whitespace and a sign. |
| OwnerCookie.GroupedParse | nabla/api/owner_ui_session.py:65 | A numeral is read as its value, also with a single underscore inside. |
| OwnerCookie.CreatedIsAcceptedInWindow | nabla/api/owner_ui_session.py:47-73 | A cookie created at t is accepted at u under the same secret iff it is at most 180 characters long and t - 30 <= u < t + 1200. |
| OwnerCookie.CreatedFitsTheLimit | nabla/api/owner_ui_session.py:47-55 | The length limit does not bite while the clock has at most forty digits. |
| OwnerCookie.AcceptedInOneWindow | nabla/api/owner_ui_session.py:53-73 | Any token is never accepted under a secret, or exactly in one such window. |
| OwnerCookie.LifetimeIsBounded | nabla/api/owner_ui_session.py:68-72 | No token at all is accepted at two times 1230 seconds or more apart. |
| Lifespan.ExitStack.HandOver | nabla/lifespan.py:179-181 | All that one stack holds moves to another, in order. |
| Lifespan.Application.TryDatabase | nabla/lifespan.py:178-188 | An optional database that fails leaves the application's stack as it was, with its connection undone. |
| Lifespan.Application.StartDatabase | nabla/lifespan.py:173-189 | The database is available iff all its steps succeed; startup is aborted iff it is required or its failure is not an ordinary exception. |
| Lifespan.Application.Unwind | nabla/lifespan.py:204-237 | Everything held runs, latest first, also when releases fail, and the latest failure surfaces. |
| Lifespan.Application.Run | nabla/lifespan.py:192-239 | For every combination of failures: the application serves iff startup succeeds, the journal is that of its startup and service followed by the releases of all that is held, latest first, nothing stays held and all started workers are cancelled. |
| LifespanMeaning.WhatHappens | nabla/lifespan.py:192-239 | From the settings and the failing steps alone: the pool is closed iff the database is selected, Redis iff it is selected and the cache was set up, MCP and the workers iff startup got that far, each exactly once; and each step is tried iff the ones before it in its subsystem worked. |
| LifespanMeaning.FailureMeaning | nabla/lifespan.py:173-239 | Startup ends with the failure of the first step that is reached and fails, unless that is an optional database's and can be caught. |
| LifespanMeaning.SurfacingMeaning | nabla/lifespan.py:204-237 | What surfaces in the end is the failure of the earliest registered release that fails, else that of startup or service. |
| Lifespan.EachReleasedOnce | nabla/lifespan.py:204-232 | Each registered release runs exactly once and no other runs. |
| Lifespan.DisconnectedIffConnected | nabla/lifespan.py:138-141 | The database is disconnected exactly as often as connected, at most once. |
| Lifespan.ReverseOrder | nabla/lifespan.py:204-232 | Of two registered releases the later one runs first, if it is still held. |
| Lifespan.WorkersCancelledFirst | nabla/lifespan.py:30-34 | Once registered, the cancellation of the workers runs before any other release. |
| ExitStacks.ReplayUnwound | nabla/lifespan.py:204-237 | Unwinding what lies above a base leaves exactly the base held. |
| Reconciliation.MatchMeaning | nabla/api/homelab_runtime.py:164-185 | An app matches iff it has the identity and the container asked for; a stopped app is matched by identity alone; the container that comes with it is the first of its service. |
| Reconciliation.ReconcileDeclared | nabla/api/homelab_runtime.py:199-248 | The condition of a service is set by how many apps match it, and it claims exactly those. |
| Reconciliation.ConditionMeaning | nabla/api/homelab_runtime.py:213-230 | Not observed without a binding, unknown out of reach, and else declared only, in sync or conflicting as no app matches, one or several. |
| Reconciliation.BuildStatus | nabla/api/homelab_runtime.py:300-354 | Rows in catalog order, exactly the unclaimed apps as observed only, and the counts of both. |
| Reconciliation.CountsAddUp | nabla/api/homelab_runtime.py:334-343 | The five counts add up to the declared services. |
| Reconciliation.AppsClaimedOrListed | nabla/api/homelab_runtime.py:314-332 | With unique app ids every observed app is claimed by a matching binding or listed exactly once. |
| Reconciliation.AppsConserved | nabla/api/homelab_runtime.py:314-332 | Also with repeated ids, the listed apps and the claimed ones are as many as were observed. |
| Reconciliation.UnreachableListsAll | nabla/api/homelab_runtime.py:199-332 | Out of reach nothing is in sync or claimed, and all apps of the snapshot are listed. |
| Reconciliation.NoDriftMeaning | nabla/api/homelab_runtime.py:344-354 | There is no drift iff every bound service matches exactly one app and every app is matched. |

## Left out

- All input and output: HTTP, DNS, TCP, Redis transport, SQL, git and TrueNAS clients. Probes, loaders, fetches and command outputs are arbitrary values or failures.
- Floating point: times and intervals are reals, so the rounding of ages, percentages and figures for display is not modelled.
- Clocks that go backwards. The probe cache runs on one clock, although the source reads a monotonic clock for the local entry and wall time for the envelope.
- DependencyRows.PropagateRequiredDependencyHealth: does not model the other keys of a row or the normalising of state texts; ids are any type with a total order, for which `TextOrder` gives Python's order on strings, and a row without an id has no relations.
- DependencyRows.EvidenceMeaning: does not model the descriptive fields of the evidence (names, relation type, observation times), which are copied.
- ProbeEvidence.EvidenceStore.MergeProbeEvidence: does not model the order of the reported rows, which are a map by id, the diagnostic fields of a row, or the reading of timestamp texts, which is an optional epoch.
- EvidenceRuns.EvidenceStaysFresh: assumes a refresh in every 30-second bucket, merged before the end of the next one, and no timed-out probe. The source neither enforces this nor can it go on for long: its payload cache restarts its 30 seconds when a refresh ends, so the selections drift by the time each refresh takes, and a run that skips no bucket has less than about 30 seconds of refresh time in all. The advertised cycle is only a capacity estimate, as the source says itself; EvidenceReports.FreshIffYoung and PolledServices.PollingReportsAll do without the assumption.
- PolledServices.PollingReportsAll: is about refreshes whose buckets are equally far apart; other patterns of skipped buckets are left out.
- ProbeCacheProtocol.OneLoader: is about one process and one key; the source promises no exclusion across processes, since the lock may expire. Resetting the cache, metrics, cache-layer labels and the circuit metadata are left out, and the policy of a key does not change during a run.
- ProbeCacheAnswers.PeerMoves: the wait for a peer may end at any time; how often it polls and how long it lasts is left out.
- ProbeCacheProtocol.ReleasesUnlessCutOff: starts where the source's own guard starts, so a caller interrupted between taking the lock and the origin refresh leaves the lock to its time to live. The circuit breaker's own state and its lock are not modelled.
- ProbeCacheProtocol.ReleaseSparesOthers: assumes that the random token of a caller is never drawn again, by this process or another one.
- ProbeCacheLastGood.LastGoodIsLatestSuccess: is about the process-local mode; with Redis a successful read may replace a newer local envelope.
- Malformed envelopes from Redis are modelled as envelopes with missing parts.
- StaleWhileRevalidate.OneRefresh: leaves out the reset functions that only tests use. The catalog and topology caches keep no error text; theirs is unused.
- RuntimeCache.LastKnownGoodServed: leaves out the retrying of the TrueNAS client, which is part of the arbitrary observation.
- ProbePlanning.BuildProbeUnits: components are typed records, so the refusal of fields of a wrong JSON type is left out.
- GitDescribe.PiecesFromDescribe: the decimal digits beyond ASCII are any table, not Unicode's own; numerals too long for Python to convert, branch, date and the other renderings are left out.
- QueryString.SecuredFacts: lowers ASCII letters only, which decides the same keys.
- OwnerCookie.AcceptedInOneWindow: the keyed hash is any function with hexadecimal digests; how hard it is to compute without the secret is not modelled.
- Lifespan.Application.Run: leaves out logging and the reading of settings, and cancellation during a release is one of its possible failures.
- Reconciliation.BuildStatus: leaves out the catalog drift report, which compares three membership lists, and the presentation fields of rows.
- The membership and coverage summaries of the catalog, the exposure classifiers, the owner login routes and the user interface are settled by reading one branch each and would only add easy members.
