/** The sampling policy of the service probes: a fixed set of ranked services plus a rotating
    window over the others (nabla/api/homelab_probe_policy.py). */
module ProbePolicy {
  import opened Lists
  import opened Rotation
  import opened Sorting
  import opened TextOrder
  import opened Wrappers

  const HEALTH_CACHE_TTL_SEC := 30.0

  /** The length of some 30-second buckets. */
  function Seconds(buckets: int): real {
    30.0 * buckets as real
  }

  const PRIORITY_SERVICE_ORDER: seq<string> := [
    "garage", "garage-admin", "garage-webui", "postgresql", "redis", "cloudflared",
    "vaultwarden", "sentry", "prometheus", "grafana", "n8n", "pyroscope"]

  /** A catalog service; `details` stands for the fields the policy does not read. */
  datatype Service = Service(id: string, details: string, probePriority: Option<int>)

  ghost predicate UniqueIds(services: seq<Service>) {
    forall i, j :: 0 <= i < j < |services| ==> services[i].id != services[j].id
  }

  // ---------------------------------------------------------------- unique services

  /** The first declaration of each id, in order. */
  function Unique(services: seq<Service>): seq<Service> {
    if services == [] then []
    else
      var kept, last := Unique(services[..|services| - 1]), services[|services| - 1];
      if IdIn(kept, last.id) then kept else kept + [last]
  }

  method UniqueServices(services: seq<Service>) returns (unique: seq<Service>)
    ensures unique == Unique(services)
  {
    unique := [];
    var seen: set<string> := {};
    for i := 0 to |services|
      invariant unique == Unique(services[..i])
      invariant forall id :: id in seen <==> IdIn(unique, id)
    {
      var service := services[i];
      assert services[..i + 1][..i] == services[..i];
      if service.id !in seen {
        seen := seen + {service.id};
        unique := unique + [service];
      }
    }
    assert services[..|services|] == services;
  }

  predicate IdIn(services: seq<Service>, id: string) {
    exists s :: s in services && s.id == id
  }

  /** The earliest declaration of its id. */
  ghost predicate FirstOfId(services: seq<Service>, u: Service) {
    exists i :: 0 <= i < |services| && services[i] == u && forall j :: 0 <= j < i ==> services[j].id != u.id
  }

  /** Ids occur once, none is lost, and the declaration kept is the first one of its id. */
  lemma UniqueKeepsFirst(services: seq<Service>)
    ensures UniqueIds(Unique(services))
    ensures forall id :: IdIn(services, id) <==> IdIn(Unique(services), id)
    ensures forall u :: u in Unique(services) ==> FirstOfId(services, u)
  {
    UniqueHasUniqueIds(services);
    forall id ensures IdIn(services, id) <==> IdIn(Unique(services), id) {
      UniqueKeepsIds(services, id);
    }
    forall u | u in Unique(services) ensures FirstOfId(services, u) {
      UniqueIsFirst(services, u);
    }
  }

  lemma {:induction false} UniqueHasUniqueIds(services: seq<Service>)
    ensures UniqueIds(Unique(services))
  {
    if services != [] {
      UniqueHasUniqueIds(services[..|services| - 1]);
    }
  }

  lemma {:induction false} UniqueKeepsIds(services: seq<Service>, id: string)
    ensures IdIn(services, id) <==> IdIn(Unique(services), id)
  {
    if services != [] {
      var rest, last := services[..|services| - 1], services[|services| - 1];
      UniqueKeepsIds(rest, id);
      assert services == rest + [last];
      assert IdIn(services, id) <==> IdIn(rest, id) || last.id == id;
      assert IdIn(Unique(rest) + [last], id) <==> IdIn(Unique(rest), id) || last.id == id;
    }
  }

  lemma FirstAt(services: seq<Service>, u: Service, i: nat)
    requires i < |services| && services[i] == u && forall j :: 0 <= j < i ==> services[j].id != u.id
    ensures FirstOfId(services, u)
  {
  }

  lemma {:induction false} UniqueIsFirst(services: seq<Service>, u: Service)
    requires u in Unique(services)
    ensures FirstOfId(services, u)
  {
    var rest, last := services[..|services| - 1], services[|services| - 1];
    if u in Unique(rest) {
      UniqueIsFirst(rest, u);
      var i :| 0 <= i < |rest| && rest[i] == u && forall j :: 0 <= j < i ==> rest[j].id != u.id;
      FirstAt(services, u, i);
    } else {
      UniqueKeepsIds(rest, u.id);
      forall j | 0 <= j < |services| - 1 ensures services[j].id != u.id {
        assert rest[j] in rest;
      }
      FirstAt(services, u, |services| - 1);
    }
  }

  lemma {:induction false} UniqueOfUnique(services: seq<Service>)
    requires UniqueIds(services)
    ensures Unique(services) == services
  {
    if services != [] {
      hide UniqueIds, IdIn;
      LastIsNew(services);
      UniqueOfUnique(services[..|services| - 1]);
    }
  }

  lemma LastIsNew(services: seq<Service>)
    requires UniqueIds(services) && services != []
    ensures var rest, last := services[..|services| - 1], services[|services| - 1];
            UniqueIds(rest) && !IdIn(rest, last.id) && services == rest + [last]
  {
  }

  lemma UniqueIdsDistinct(services: seq<Service>)
    requires UniqueIds(services)
    ensures Distinct(services)
    ensures forall s, t :: s in services && t in services && s.id == t.id ==> s == t
  {
  }

  // ---------------------------------------------------------------- ranks

  predicate HasPriority(service: Service) {
    service.probePriority.Some?
  }

  predicate InBootstrapOrder(service: Service) {
    service.id in PRIORITY_SERVICE_ORDER
  }

  /** Whether the ranks come from the catalog; otherwise the bootstrap order is used. */
  predicate CatalogDeclaresPriority(services: seq<Service>) {
    exists s :: s in services && HasPriority(s)
  }

  function CatalogRank(service: Service): int {
    match service.probePriority
    case Some(rank) => rank
    case None => 0
  }

  predicate CatalogOrder(a: Service, b: Service) {
    CatalogRank(a) < CatalogRank(b) || (CatalogRank(a) == CatalogRank(b) && TextLe(a.id, b.id))
  }

  function PlaceIn(list: seq<string>, id: string): (place: nat)
    ensures place <= |list|
    ensures id in list ==> place < |list| && list[place] == id
  {
    if list == [] || list[0] == id then 0 else 1 + PlaceIn(list[1..], id)
  }

  predicate BootstrapOrder(a: Service, b: Service) {
    PlaceIn(PRIORITY_SERVICE_ORDER, a.id) <= PlaceIn(PRIORITY_SERVICE_ORDER, b.id)
  }

  function RankedPriorities(services: seq<Service>): seq<Service> {
    if CatalogDeclaresPriority(services)
    then Sort(Filter(services, HasPriority), CatalogOrder)
    else Sort(Filter(services, InBootstrapOrder), BootstrapOrder)
  }

  lemma OrdersArePreorders()
    ensures TotalPreorder(CatalogOrder) && TotalPreorder(BootstrapOrder)
  {
    TextLeIsTotalOrder();
  }

  lemma RankedFacts(services: seq<Service>)
    requires UniqueIds(services)
    ensures Distinct(RankedPriorities(services))
    ensures forall s :: s in RankedPriorities(services) ==> s in services
  {
    UniqueIdsDistinct(services);
    FilterKeepsDistinct(services, HasPriority);
    FilterKeepsDistinct(services, InBootstrapOrder);
    FilterMembers(services, HasPriority);
    FilterMembers(services, InBootstrapOrder);
    SortKeepsDistinct(Filter(services, HasPriority), CatalogOrder);
    SortKeepsDistinct(Filter(services, InBootstrapOrder), BootstrapOrder);
    SortPermutes(Filter(services, HasPriority), CatalogOrder);
    SortPermutes(Filter(services, InBootstrapOrder), BootstrapOrder);
  }

  /** The ranking does not depend on the order of the catalog. */
  lemma RankedIgnoresOrder(services: seq<Service>, shuffled: seq<Service>)
    requires UniqueIds(services) && multiset(shuffled) == multiset(services)
    ensures RankedPriorities(shuffled) == RankedPriorities(services)
  {
    OrdersArePreorders();
    SameMembers(services, shuffled);
    FilterPermutes(services, shuffled, HasPriority);
    FilterPermutes(services, shuffled, InBootstrapOrder);
    NoPriorityTies(services);
    SortIgnoresOrder(Filter(services, HasPriority), Filter(shuffled, HasPriority), CatalogOrder);
    SortIgnoresOrder(Filter(services, InBootstrapOrder), Filter(shuffled, InBootstrapOrder), BootstrapOrder);
  }

  lemma NoPriorityTies(services: seq<Service>)
    requires UniqueIds(services)
    ensures NoTies(Filter(services, HasPriority), CatalogOrder)
    ensures NoTies(Filter(services, InBootstrapOrder), BootstrapOrder)
  {
    UniqueIdsDistinct(services);
    FilterMembers(services, HasPriority);
    FilterMembers(services, InBootstrapOrder);
    forall x: Service, y: Service | x in services && y in services && CatalogOrder(x, y) && CatalogOrder(y, x)
      ensures x == y
    {
      TextLeAntisymmetric(x.id, y.id);
    }
  }

  // ---------------------------------------------------------------- fixed and rotating services

  function Reserved(count: nat, limit: nat): nat {
    if limit > 3 && count > limit then (if limit - 3 < 2 then limit - 3 else 2) else 0
  }

  function Fixed(services: seq<Service>, limit: nat): seq<Service>
    requires limit > 0
  {
    Prefix(RankedPriorities(services), limit - Reserved(|services|, limit))
  }

  function NotAmong(services: seq<Service>): Service -> bool {
    (service: Service) => forall s: Service :: s in services ==> s.id != service.id
  }

  function Rotating(services: seq<Service>, limit: nat): seq<Service>
    requires limit > 0
  {
    Filter(services, NotAmong(Fixed(services, limit)))
  }

  function RotatingSlots(services: seq<Service>, limit: nat): nat
    requires limit > 0
  {
    limit - |Fixed(services, limit)|
  }

  /** The two parts split the catalog, and with more services than the limit rotation has more
      members than slots. */
  lemma PartitionFacts(services: seq<Service>, limit: nat)
    requires UniqueIds(services) && limit > 0
    ensures var fixed, rotating := Fixed(services, limit), Rotating(services, limit);
            && Distinct(fixed) && Distinct(rotating)
            && |fixed| + |rotating| == |services|
            && |fixed| <= limit - Reserved(|services|, limit)
            && (forall s :: s in services <==> s in fixed || s in rotating)
            && (forall s: Service :: !(s in fixed && s in rotating))
  {
    var fixed, rotating := Fixed(services, limit), Rotating(services, limit);
    var keep := NotAmong(fixed);
    RankedFacts(services);
    UniqueIdsDistinct(services);
    FilterKeepsDistinct(services, keep);
    FilterMembers(services, keep);
    forall s ensures s in services <==> s in fixed || s in rotating {
      if s in services && s !in rotating {
        var f :| f in fixed && f.id == s.id;
        assert f == s;
      }
    }
    SplitLengths(services, fixed, rotating);
  }

  /** A service with a rank, in the one rank space that counts for the catalog. */
  predicate IsRanked(services: seq<Service>, s: Service) {
    if CatalogDeclaresPriority(services) then s.probePriority.Some? else s.id in PRIORITY_SERVICE_ORDER
  }

  /** In that rank space the first service comes before the second. */
  predicate Outranks(services: seq<Service>, s: Service, t: Service)
    requires IsRanked(services, s) && IsRanked(services, t)
  {
    if CatalogDeclaresPriority(services) then
      || s.probePriority.value < t.probePriority.value
      || (s.probePriority.value == t.probePriority.value && TextLe(s.id, t.id))
    else PlaceIn(PRIORITY_SERVICE_ORDER, s.id) <= PlaceIn(PRIORITY_SERVICE_ORDER, t.id)
  }

  lemma RankedMembers(services: seq<Service>, s: Service)
    ensures s in RankedPriorities(services) <==> s in services && IsRanked(services, s)
  {
    FilterMembers(services, HasPriority);
    FilterMembers(services, InBootstrapOrder);
    SortPermutes(Filter(services, HasPriority), CatalogOrder);
    SortPermutes(Filter(services, InBootstrapOrder), BootstrapOrder);
  }

  /** The fixed services are the highest-ranked ones: a ranked service that is left to rotation is outranked
      by every fixed one, and the fixed part is then full. */
  lemma FixedAreHighestRanked(services: seq<Service>, limit: nat, s: Service, t: Service)
    requires limit > 0 && s in Fixed(services, limit)
    requires t in services && IsRanked(services, t) && t !in Fixed(services, limit)
    ensures s in services && IsRanked(services, s) && Outranks(services, s, t)
    ensures |Fixed(services, limit)| == limit - Reserved(|services|, limit)
  {
    RankedMembers(services, s);
    RankedMembers(services, t);
    OrdersArePreorders();
    var n := limit - Reserved(|services|, limit);
    if CatalogDeclaresPriority(services) {
      SortSorts(Filter(services, HasPriority), CatalogOrder);
      PrefixComesFirst(RankedPriorities(services), CatalogOrder, n, s, t);
    } else {
      SortSorts(Filter(services, InBootstrapOrder), BootstrapOrder);
      PrefixComesFirst(RankedPriorities(services), BootstrapOrder, n, s, t);
    }
  }

  // ---------------------------------------------------------------- selection

  /** What one 30-second bucket selects from a catalog without duplicates. */
  function Selection(services: seq<Service>, limit: int, bucket: int): seq<Service> {
    if limit <= 0 then []
    else if |services| <= limit then services
    else Fixed(services, limit) + Window(Rotating(services, limit), RotatingSlots(services, limit), bucket)
  }

  function BucketOf(now: real): int {
    (now / 30.0).Floor
  }

  function SelectProbeSubset(services: seq<Service>, limit: int, now: real): seq<Service> {
    Selection(Unique(services), limit, BucketOf(now))
  }

  /** A selection never repeats an id, and it uses the whole limit as soon as services outnumber it. */
  lemma SelectionFillsLimit(services: seq<Service>, limit: nat, bucket: int)
    requires UniqueIds(services)
    ensures var selected := Selection(services, limit, bucket);
            && UniqueIds(selected)
            && (forall s :: s in selected ==> s in services)
            && |selected| == if |services| <= limit then |services| else limit
  {
    if 0 < limit < |services| {
      PartitionFacts(services, limit);
      UniqueIdsDistinct(services);
      var fixed, rotating := Fixed(services, limit), Rotating(services, limit);
      WindowFacts(rotating, RotatingSlots(services, limit), bucket);
      var window := Window(rotating, RotatingSlots(services, limit), bucket);
      var selected := fixed + window;
      forall i, j | 0 <= i < j < |selected| ensures selected[i].id != selected[j].id {
        assert selected[i] in services && selected[j] in services;
        if i < |fixed| <= j {
          assert selected[i] in fixed && selected[j] in rotating;
        }
        assert selected[i] != selected[j];
      }
    }
  }

  /** How many services are fixed: all ranked ones, as far as the limit allows; above the limit one slot, or from a
      limit of five on two, is left to rotation, but none up to a limit of three. They are listed by rank. */
  lemma FixedSize(services: seq<Service>, limit: nat)
    requires limit > 0
    ensures var room := if |services| <= limit || limit <= 3 then limit else if limit == 4 then 3 else limit - 2;
            var ranked := |RankedPriorities(services)|;
            |Fixed(services, limit)| == if ranked <= room then ranked else room
    ensures forall i :: 0 <= i < |Fixed(services, limit)| ==>
              i < |RankedPriorities(services)| && Fixed(services, limit)[i] == RankedPriorities(services)[i]
  {
  }

  /** A selection above the limit lists the fixed services first, and then the slots of rotation in turn, from the
      place that the bucket has reached. */
  lemma SelectionLayout(services: seq<Service>, limit: nat, bucket: int, i: nat)
    requires UniqueIds(services) && 0 < limit < |services| && i < limit
    ensures var selected, fixed := Selection(services, limit, bucket), Fixed(services, limit);
            var ring, slots := Rotating(services, limit), RotatingSlots(services, limit);
            && |selected| == limit && |fixed| <= limit && ring != []
            && selected[i] == if i < |fixed| then fixed[i]
                              else ring[((bucket * slots) % |ring| + (i - |fixed|)) % |ring|]
  {
    hide UniqueIds, Fixed, Rotating, Window, RotatingSlots;
    PartitionFacts(services, limit);
    SlotsLeft(services, limit);
    WindowSize(Rotating(services, limit), RotatingSlots(services, limit), bucket);
  }

  lemma SlotsLeft(services: seq<Service>, limit: nat)
    requires limit > 0
    ensures |Fixed(services, limit)| <= limit
    ensures RotatingSlots(services, limit) == limit - |Fixed(services, limit)|
  {
  }

  /** Garage comes first as long as the catalog ranks nothing itself: its three targets, if the catalog has them, are
      selected in every bucket under every limit of at least three. */
  lemma GarageIsAlwaysSelected(services: seq<Service>, limit: nat, bucket: int, s: Service)
    requires UniqueIds(services) && limit >= 3 && s in services
    requires s.id == "garage" || s.id == "garage-admin" || s.id == "garage-webui"
    requires forall t :: t in services ==> t.probePriority == None
    ensures s in Selection(services, limit, bucket)
  {
    if |services| > limit && s !in Fixed(services, limit) {
      GarageIsFixed(services, limit, s);
    }
  }

  lemma GarageIsFixed(services: seq<Service>, limit: nat, s: Service)
    requires UniqueIds(services) && limit >= 3 && s in services
    requires s.id == "garage" || s.id == "garage-admin" || s.id == "garage-webui"
    requires forall t :: t in services ==> t.probePriority == None
    ensures s in Fixed(services, limit)
  {
    hide PlaceIn, Fixed, UniqueIds;
    if s !in Fixed(services, limit) {
      GarageRanksFirst(s.id);
      NotAllFixed(services, limit, s);
      FixedBefore(services, limit, s, 0);
      FixedBefore(services, limit, s, 1);
      FixedBefore(services, limit, s, 2);
      FixedPlacesDiffer(services, limit, 0, 1);
      FixedPlacesDiffer(services, limit, 0, 2);
      FixedPlacesDiffer(services, limit, 1, 2);
    }
  }

  lemma FixedBefore(services: seq<Service>, limit: nat, s: Service, i: nat)
    requires UniqueIds(services) && limit > 0 && s in services && InBootstrapOrder(s)
    requires s !in Fixed(services, limit) && i < |Fixed(services, limit)|
    requires forall t :: t in services ==> t.probePriority == None
    ensures RanksBefore(Fixed(services, limit)[i], s)
  {
    hide PlaceIn;
    FixedAreHighestRanked(services, limit, Fixed(services, limit)[i], s);
    UniqueIdsDistinct(services);
  }

  lemma FixedPlacesDiffer(services: seq<Service>, limit: nat, i: nat, j: nat)
    requires UniqueIds(services) && limit > 0 && i < j < |Fixed(services, limit)|
    requires InBootstrapOrder(Fixed(services, limit)[i]) && InBootstrapOrder(Fixed(services, limit)[j])
    ensures PlaceIn(PRIORITY_SERVICE_ORDER, Fixed(services, limit)[i].id) !=
            PlaceIn(PRIORITY_SERVICE_ORDER, Fixed(services, limit)[j].id)
  {
    hide PlaceIn, Fixed;
    FixedIdsDiffer(services, limit, i, j);
    PlacesDiffer(Fixed(services, limit)[i].id, Fixed(services, limit)[j].id);
  }

  /** In the bootstrap order, one service strictly before another. */
  predicate RanksBefore(s: Service, t: Service) {
    InBootstrapOrder(s) && PlaceIn(PRIORITY_SERVICE_ORDER, s.id) < PlaceIn(PRIORITY_SERVICE_ORDER, t.id)
  }

  lemma NotAllFixed(services: seq<Service>, limit: nat, s: Service)
    requires UniqueIds(services) && limit >= 3 && s in services && s !in Fixed(services, limit)
    requires InBootstrapOrder(s) && forall t :: t in services ==> t.probePriority == None
    ensures |Fixed(services, limit)| >= 3
  {
    FixedSize(services, limit);
    RankedMembers(services, s);
    assert Fixed(services, limit) != RankedPriorities(services);
  }

  lemma FixedIdsDiffer(services: seq<Service>, limit: nat, i: nat, j: nat)
    requires UniqueIds(services) && limit > 0 && i < j < |Fixed(services, limit)|
    ensures Fixed(services, limit)[i].id != Fixed(services, limit)[j].id
  {
    PartitionFacts(services, limit);
    UniqueIdsDistinct(services);
  }

  lemma PlacesDiffer(a: string, b: string)
    requires a != b && a in PRIORITY_SERVICE_ORDER && b in PRIORITY_SERVICE_ORDER
    ensures PlaceIn(PRIORITY_SERVICE_ORDER, a) != PlaceIn(PRIORITY_SERVICE_ORDER, b)
  {
  }

  lemma GarageRanksFirst(id: string)
    requires id == "garage" || id == "garage-admin" || id == "garage-webui"
    ensures id in PRIORITY_SERVICE_ORDER && PlaceIn(PRIORITY_SERVICE_ORDER, id) < 3
  {
    var order := PRIORITY_SERVICE_ORDER;
    assert order[0] == "garage" && order[1] == "garage-admin" && order[2] == "garage-webui";
    assert order[1..][0] == order[1] && order[1..][1..][0] == order[2];
  }

  /** A selection from any catalog, with repeated ids or without: as many services with different ids as the limit
      and the ids allow, each by the first declaration of its id. */
  lemma SubsetMeaning(services: seq<Service>, limit: int, now: real)
    ensures var selected := SelectProbeSubset(services, limit, now);
            && UniqueIds(selected)
            && (forall s :: s in selected ==> FirstOfId(services, s))
            && |selected| == if limit <= 0 then 0 else if |Unique(services)| <= limit then |Unique(services)| else limit
  {
    UniqueKeepsFirst(services);
    if limit > 0 {
      SelectionFillsLimit(Unique(services), limit, BucketOf(now));
    }
  }

  /** The bootstrap ranks of the twelve services that have one. */
  lemma BootstrapRanks(k: nat, name: string)
    requires k < 12 && name == match k
                               case 0 => "garage" case 1 => "garage-admin" case 2 => "garage-webui"
                               case 3 => "postgresql" case 4 => "redis" case 5 => "cloudflared"
                               case 6 => "vaultwarden" case 7 => "sentry" case 8 => "prometheus"
                               case 9 => "grafana" case 10 => "n8n" case _ => "pyroscope"
    ensures name in PRIORITY_SERVICE_ORDER && PlaceIn(PRIORITY_SERVICE_ORDER, name) == k
    ensures |PRIORITY_SERVICE_ORDER| == 12
  {
    assert PRIORITY_SERVICE_ORDER[k] == name;
    InitialsDiffer();
    var place := PlaceIn(PRIORITY_SERVICE_ORDER, name);
    assert PRIORITY_SERVICE_ORDER[place] == name;
  }

  lemma InitialsDiffer()
    ensures forall i, j :: 0 <= i < j < 12 ==> PRIORITY_SERVICE_ORDER[i] != PRIORITY_SERVICE_ORDER[j]
  {
    var order := PRIORITY_SERVICE_ORDER;
    assert |order[0]| == 6 && |order[1]| == 12 && |order[2]| == 12 && |order[3]| == 10 && |order[4]| == 5;
    assert |order[5]| == 11 && |order[6]| == 11 && |order[7]| == 6 && |order[8]| == 10 && |order[9]| == 7;
    assert |order[10]| == 3 && |order[11]| == 9;
    assert order[1][7] == 'a' && order[2][7] == 'w' && order[0][0] == 'g' && order[7][0] == 's';
    assert order[3][1] == 'o' && order[8][1] == 'r' && order[5][0] == 'c' && order[6][0] == 'v';
  }

  // ---------------------------------------------------------------- advertised estimates

  function EstimatedProbeInterval(service: Service, eligible: seq<Service>, limit: int): Option<real> {
    var services := Unique(eligible);
    if limit <= 0 || service !in services then None
    else if |services| <= limit then Some(HEALTH_CACHE_TTL_SEC)
    else if service in Fixed(services, limit) then Some(HEALTH_CACHE_TTL_SEC)
    else
      var slots: int := limit - |Fixed(services, limit)|;
      if slots <= 0 then None
      else
        var rounds := Rounds(|Rotating(services, limit)|, slots);
        Some(Seconds(if rounds < 1 then 1 else rounds))
  }

  function EstimatedFullCycle(eligible: seq<Service>, limit: int): Option<real> {
    var services := Unique(eligible);
    if services == [] || limit <= 0 then None
    else if |services| <= limit then Some(HEALTH_CACHE_TTL_SEC)
    else
      var slots: int := limit - |Fixed(services, limit)|;
      if slots <= 0 then None
      else Some(Seconds(Rounds(|Rotating(services, limit)|, slots)))
  }

  ghost predicate ProbedWithin(service: Service, services: seq<Service>, limit: int, from: int, n: nat) {
    exists b :: from <= b < from + n && service in Selection(services, limit, b)
  }

  /** Any `n` consecutive buckets are sure to probe the service. */
  ghost predicate ProbedEvery(service: Service, services: seq<Service>, limit: int, n: nat) {
    forall from: int :: ProbedWithin(service, services, limit, from, n)
  }

  /** `n` is the least number of consecutive buckets that are sure to probe the service. */
  ghost predicate LeastInterval(service: Service, services: seq<Service>, limit: int, n: nat) {
    forall m: nat :: ProbedEvery(service, services, limit, m) <==> m >= n
  }

  /** However late one looks, some `n` consecutive buckets still leave the service out. */
  ghost predicate KeepsWaiting(service: Service, services: seq<Service>, limit: int, n: nat) {
    forall after: int :: WaitsAfter(service, services, limit, n, after)
  }

  ghost predicate WaitsAfter(service: Service, services: seq<Service>, limit: int, n: nat, after: int) {
    exists from :: from >= after && !ProbedWithin(service, services, limit, from, n)
  }

  /** The advertised interval of a service is exact. It is missing exactly when no bucket ever
      probes the service; otherwise it is 30 seconds times the least number of consecutive buckets
      that are sure to probe it, and a wait of all but one of these keeps occurring. */
  lemma IntervalIsTight(service: Service, eligible: seq<Service>, limit: int)
    ensures EstimatedProbeInterval(service, eligible, limit) == None <==>
            forall b :: service !in Selection(Unique(eligible), limit, b)
    ensures EstimatedProbeInterval(service, eligible, limit).Some? ==>
            exists n: nat :: n > 0 && LeastInterval(service, Unique(eligible), limit, n) &&
                        EstimatedProbeInterval(service, eligible, limit).value == Seconds(n) &&
                        KeepsWaiting(service, Unique(eligible), limit, n - 1)
  {
    hide LeastInterval, KeepsWaiting, Selection;
    if service in Unique(eligible) {
      IntervalOfListed(service, eligible, limit);
    } else {
      UniqueHasUniqueIds(eligible);
      NeverSelected(service, Unique(eligible), limit);
    }
  }

  lemma IntervalOfListed(service: Service, eligible: seq<Service>, limit: int)
    requires service in Unique(eligible)
    ensures EstimatedProbeInterval(service, eligible, limit) == None <==>
            forall b :: service !in Selection(Unique(eligible), limit, b)
    ensures EstimatedProbeInterval(service, eligible, limit).Some? ==>
            exists n: nat :: n > 0 && LeastInterval(service, Unique(eligible), limit, n) &&
                        EstimatedProbeInterval(service, eligible, limit).value == Seconds(n) &&
                        KeepsWaiting(service, Unique(eligible), limit, n - 1)
  {
    UniqueKeepsFirst(eligible);
    var services := Unique(eligible);
    if 0 < limit < |services| {
      PartitionFacts(services, limit);
      var slots := RotatingSlots(services, limit);
      if service in Fixed(services, limit) {
        AlwaysProbed(service, services, limit);
        assert HEALTH_CACHE_TTL_SEC == Seconds(1);
      } else if slots > 0 {
        RotatingInterval(service, services, limit);
      }
    } else if 0 < limit {
      AlwaysProbed(service, services, limit);
      assert HEALTH_CACHE_TTL_SEC == Seconds(1);
    }
  }

  lemma NeverSelected(service: Service, services: seq<Service>, limit: int)
    requires UniqueIds(services) && service !in services
    ensures forall b :: service !in Selection(services, limit, b)
  {
    forall b: int ensures service !in Selection(services, limit, b) {
      if limit > 0 {
        SelectionFillsLimit(services, limit, b);
      }
    }
  }

  lemma AlwaysProbed(service: Service, services: seq<Service>, limit: int)
    requires UniqueIds(services) && limit > 0
    requires service in services && (|services| <= limit || service in Fixed(services, limit))
    ensures service in Selection(services, limit, 0)
    ensures LeastInterval(service, services, limit, 1) && KeepsWaiting(service, services, limit, 0)
  {
    forall after: int ensures WaitsAfter(service, services, limit, 0, after) {
      assert !ProbedWithin(service, services, limit, after, 0);
    }
    assert forall b :: service in Selection(services, limit, b);
    forall m: nat ensures ProbedEvery(service, services, limit, m) <==> m >= 1 {
      if m >= 1 {
        forall from: int ensures ProbedWithin(service, services, limit, from, m) {
          assert from <= from < from + m && service in Selection(services, limit, from);
        }
      } else {
        assert !ProbedWithin(service, services, limit, 0, m);
      }
    }
  }

  lemma RotatingInterval(service: Service, services: seq<Service>, limit: int)
    requires UniqueIds(services) && 0 < limit < |services|
    requires service in Rotating(services, limit) && RotatingSlots(services, limit) > 0
    ensures var n := Rounds(|Rotating(services, limit)|, RotatingSlots(services, limit));
            && n >= 2
            && LeastInterval(service, services, limit, n) && KeepsWaiting(service, services, limit, n - 1)
            && exists b :: service in Selection(services, limit, b)
  {
    var n := RotatingRounds(services, limit);
    RotatingLeast(service, services, limit, n);
    RotatingKeepsWaiting(service, services, limit, n - 1);
    ProbedSometime(service, services, limit, n);
  }

  lemma RotatingRounds(services: seq<Service>, limit: int) returns (n: nat)
    requires UniqueIds(services) && 0 < limit < |services| && RotatingSlots(services, limit) > 0
    ensures n == Rounds(|Rotating(services, limit)|, RotatingSlots(services, limit)) && n >= 2
  {
    PartitionFacts(services, limit);
    RoundsIsCeiling(|Rotating(services, limit)|, RotatingSlots(services, limit));
    n := Rounds(|Rotating(services, limit)|, RotatingSlots(services, limit));
  }

  lemma ProbedSometime(service: Service, services: seq<Service>, limit: int, n: nat)
    requires LeastInterval(service, services, limit, n)
    ensures exists b :: service in Selection(services, limit, b)
  {
    assert ProbedEvery(service, services, limit, n);
    assert ProbedWithin(service, services, limit, 0, n);
  }

  lemma RotatingLeast(service: Service, services: seq<Service>, limit: int, n: nat)
    requires UniqueIds(services) && 0 < limit < |services|
    requires service in Rotating(services, limit) && RotatingSlots(services, limit) > 0
    requires n == Rounds(|Rotating(services, limit)|, RotatingSlots(services, limit))
    ensures LeastInterval(service, services, limit, n)
  {
    forall m: nat ensures ProbedEvery(service, services, limit, m) <==> m >= n {
      RotatingEvery(service, services, limit, m);
    }
  }

  lemma RotatingKeepsWaiting(service: Service, services: seq<Service>, limit: int, wait: nat)
    requires UniqueIds(services) && 0 < limit < |services|
    requires service in Rotating(services, limit) && RotatingSlots(services, limit) > 0
    requires wait + 1 == Rounds(|Rotating(services, limit)|, RotatingSlots(services, limit))
    ensures KeepsWaiting(service, services, limit, wait)
  {
    forall after: int ensures WaitsAfter(service, services, limit, wait, after) {
      RotatingWaits(service, services, limit, after);
    }
  }

  lemma RotatingEvery(service: Service, services: seq<Service>, limit: int, m: nat)
    requires UniqueIds(services) && 0 < limit < |services|
    requires service in Rotating(services, limit) && RotatingSlots(services, limit) > 0
    ensures ProbedEvery(service, services, limit, m) <==>
            m >= Rounds(|Rotating(services, limit)|, RotatingSlots(services, limit))
  {
    PartitionFacts(services, limit);
    var ring, slots := Rotating(services, limit), RotatingSlots(services, limit);
    IntervalIsExact(ring, slots, service, m);
    forall from: int
      ensures SeenWithin(ring, slots, service, from, m) <==> ProbedWithin(service, services, limit, from, m)
    {
      RotatingSeen(service, services, limit, from, m);
    }
  }

  lemma RotatingWaits(service: Service, services: seq<Service>, limit: int, after: int)
    requires UniqueIds(services) && 0 < limit < |services|
    requires service in Rotating(services, limit) && RotatingSlots(services, limit) > 0
    ensures var n := Rounds(|Rotating(services, limit)|, RotatingSlots(services, limit));
            n > 0 && WaitsAfter(service, services, limit, n - 1, after)
  {
    PartitionFacts(services, limit);
    var ring, slots := Rotating(services, limit), RotatingSlots(services, limit);
    RoundsIsCeiling(|ring|, slots);
    var from := MissedFrom(ring, slots, service, after);
    RotatingSeen(service, services, limit, from, Rounds(|ring|, slots) - 1);
  }

  lemma RotatingSeen(service: Service, services: seq<Service>, limit: int, from: int, m: nat)
    requires UniqueIds(services) && 0 < limit < |services| && service in Rotating(services, limit)
    requires RotatingSlots(services, limit) > 0
    ensures SeenWithin(Rotating(services, limit), RotatingSlots(services, limit), service, from, m) <==>
            ProbedWithin(service, services, limit, from, m)
  {
    PartitionFacts(services, limit);
    forall b: int ensures service in Window(Rotating(services, limit), RotatingSlots(services, limit), b) <==>
                          service in Selection(services, limit, b)
    {
      SelectedByWindow(services, limit, b, service);
    }
  }

  /** A run of buckets probes the whole catalog. */
  ghost predicate CoversAll(services: seq<Service>, limit: int, from: int, n: nat) {
    forall s :: s in services ==> ProbedWithin(s, services, limit, from, n)
  }

  /** The advertised full cycle is exact, run by run: every run of that many buckets probes the whole
      catalog and no shorter run does, wherever it starts. Without an estimate no run does, unless there is
      nothing to probe, and then there is no estimate. */
  lemma FullCycleIsTight(eligible: seq<Service>, limit: int, from: int, n: nat)
    ensures eligible == [] ==> EstimatedFullCycle(eligible, limit) == None
    ensures CoversAll(Unique(eligible), limit, from, n) <==>
              || eligible == []
              || (EstimatedFullCycle(eligible, limit).Some? &&
                  Seconds(n) >= EstimatedFullCycle(eligible, limit).value)
  {
    if eligible == [] { return; }
    UniqueHasUniqueIds(eligible);
    UniqueKeepsIds(eligible, eligible[0].id);
    var services := Unique(eligible);
    if limit <= 0 || |services| <= limit {
      UnsplitCycle(services, limit, from, n);
      ScaleBuckets(n, 1);
    } else {
      SplitCycle(services, limit, from, n);
      if RotatingSlots(services, limit) > 0 {
        ScaleBuckets(n, Rounds(|Rotating(services, limit)|, RotatingSlots(services, limit)));
      }
    }
  }

  lemma ScaleBuckets(n: nat, m: nat)
    ensures Seconds(n) >= Seconds(m) <==> n >= m
    ensures Seconds(1) == HEALTH_CACHE_TTL_SEC
  {
  }

  lemma UnsplitCycle(services: seq<Service>, limit: int, from: int, n: nat)
    requires UniqueIds(services) && services != []
    requires limit <= 0 || |services| <= limit
    ensures CoversAll(services, limit, from, n) <==> limit > 0 && n >= 1
  {
    if limit > 0 && n >= 1 {
      forall s | s in services ensures ProbedWithin(s, services, limit, from, n) {
        assert s in Selection(services, limit, from);
      }
    } else {
      assert services[0] in services && !ProbedWithin(services[0], services, limit, from, n);
    }
  }

  lemma SplitCycle(services: seq<Service>, limit: int, from: int, n: nat)
    requires UniqueIds(services) && 0 < limit < |services|
    ensures RotatingSlots(services, limit) >= 0
    ensures CoversAll(services, limit, from, n) <==>
            RotatingSlots(services, limit) > 0 && n >= Rounds(|Rotating(services, limit)|,
                          RotatingSlots(services, limit))
  {
    PartitionFacts(services, limit);
    var ring, slots := Rotating(services, limit), RotatingSlots(services, limit);
    if slots == 0 || n < Rounds(|ring|, slots) {
      var missed := MissedInShortRun(services, limit, from, n);
    } else {
      LongRunCovers(services, limit, from, n);
    }
  }

  /** A rotating service is selected by a bucket exactly when its window holds it. */
  lemma SelectedByWindow(services: seq<Service>, limit: int, bucket: int, s: Service)
    requires UniqueIds(services) && 0 < limit < |services| && s in Rotating(services, limit)
    ensures RotatingSlots(services, limit) >= 0
    ensures s in Window(Rotating(services, limit), RotatingSlots(services, limit), bucket) <==>
            s in Selection(services, limit, bucket)
  {
    PartitionFacts(services, limit);
  }

  lemma MissedInShortRun(services: seq<Service>, limit: int, from: int, n: nat) returns (missed: Service)
    requires UniqueIds(services) && 0 < limit < |services|
    requires var slots := RotatingSlots(services, limit);
             slots == 0 || (slots > 0 && n < Rounds(|Rotating(services, limit)|, slots))
    ensures missed in services && !ProbedWithin(missed, services, limit, from, n)
  {
    PartitionFacts(services, limit);
    var ring, slots := Rotating(services, limit), RotatingSlots(services, limit);
    missed := ring[0];
    if slots > 0 {
      missed := SomeoneMissed(ring, slots, from, n);
    }
    forall b | from <= b < from + n ensures missed !in Selection(services, limit, b) {
      SelectedByWindow(services, limit, b, missed);
    }
  }

  lemma LongRunCovers(services: seq<Service>, limit: int, from: int, n: nat)
    requires UniqueIds(services) && 0 < limit < |services| && RotatingSlots(services, limit) > 0
    requires n >= Rounds(|Rotating(services, limit)|, RotatingSlots(services, limit))
    ensures CoversAll(services, limit, from, n)
  {
    PartitionFacts(services, limit);
    var ring, slots := Rotating(services, limit), RotatingSlots(services, limit);
    RoundsIsCeiling(|ring|, slots);
    forall s | s in services ensures ProbedWithin(s, services, limit, from, n) {
      if s in ring {
        IntervalIsExact(ring, slots, s, n);
        assert SeenWithin(ring, slots, s, from, n);
        var b :| from <= b < from + n && s in Window(ring, slots, b);
        SelectedByWindow(services, limit, b, s);
      } else {
        assert s in Selection(services, limit, from);
      }
    }
  }

  /** Rotation starves exactly under a limit of at most three that the priorities use up. */
  lemma StarvedIff(services: seq<Service>, limit: nat)
    requires UniqueIds(services) && 0 < limit < |services|
    ensures RotatingSlots(services, limit) == 0 <==> limit <= 3 && |RankedPriorities(services)| >= limit
  {
  }

  // ---------------------------------------------------------------- independence of order, rotated priorities

  /** Which services are fixed does not depend on the order of the catalog. */
  lemma FixedIgnoresOrder(services: seq<Service>, shuffled: seq<Service>, limit: nat)
    requires UniqueIds(services) && multiset(shuffled) == multiset(services) && limit > 0
    ensures Fixed(shuffled, limit) == Fixed(services, limit)
  {
    RankedIgnoresOrder(services, shuffled);
    SameMembers(services, shuffled);
  }

  function Ids(services: seq<Service>): seq<string> {
    seq(|services|, i requires 0 <= i < |services| => services[i].id)
  }

  function RotatedPriorityIds(eligible: seq<Service>, limit: int): seq<string> {
    var services := Unique(eligible);
    if limit <= 0 || |services| <= limit then []
    else Ids(Filter(RankedPriorities(services), NotAmong(Fixed(services, limit))))
  }

  /** Nothing rotates while all services fit. */
  lemma NoneRotatedWithinLimit(eligible: seq<Service>, limit: int)
    ensures limit <= 0 || |Unique(eligible)| <= limit ==> RotatedPriorityIds(eligible, limit) == []
  {
  }

  /** The fixed priorities followed by the rotated ones are exactly the ranked priorities: none is
      lost, none is counted twice and the order of the ranks is kept. */
  lemma PrioritiesFixedThenRotated(eligible: seq<Service>, limit: nat)
    requires 0 < limit < |Unique(eligible)|
    ensures Ids(Fixed(Unique(eligible), limit)) + RotatedPriorityIds(eligible, limit) ==
            Ids(RankedPriorities(Unique(eligible)))
  {
    UniqueHasUniqueIds(eligible);
    var services := Unique(eligible);
    FixedThenRotated(services, limit);
    IdsAppend(Fixed(services, limit), Filter(RankedPriorities(services), NotAmong(Fixed(services, limit))));
  }

  lemma FixedThenRotated(services: seq<Service>, limit: nat)
    requires UniqueIds(services) && limit > 0
    ensures Fixed(services, limit) + Filter(RankedPriorities(services), NotAmong(Fixed(services, limit))) ==
            RankedPriorities(services)
  {
    hide RankedPriorities, UniqueIds, Filter;
    var ranked := RankedPriorities(services);
    RankedHasUniqueIds(services);
    var k := |Fixed(services, limit)|;
    assert Fixed(services, limit) == ranked[..k];
    DropPrefix(ranked, k);
  }

  lemma IdsAppend(a: seq<Service>, b: seq<Service>)
    ensures Ids(a) + Ids(b) == Ids(a + b)
  {
  }

  lemma RankedHasUniqueIds(services: seq<Service>)
    requires UniqueIds(services)
    ensures UniqueIds(RankedPriorities(services))
  {
    RankedFacts(services);
    UniqueIdsDistinct(services);
    var ranked := RankedPriorities(services);
    forall i, j | 0 <= i < j < |ranked| ensures ranked[i].id != ranked[j].id {
      assert ranked[i] in services && ranked[j] in services && ranked[i] != ranked[j];
    }
  }

  lemma DropPrefix(ranked: seq<Service>, k: nat)
    requires UniqueIds(ranked) && k <= |ranked|
    ensures Filter(ranked, NotAmong(ranked[..k])) == ranked[k..]
  {
    var keep := NotAmong(ranked[..k]);
    forall i | 0 <= i < k ensures !keep(ranked[i]) {
      assert ranked[i] in ranked[..k];
    }
    FilterSuffix(ranked, keep, k);
  }
}
