/** Selection of deployment units for one probe cycle
    (nabla/api/homelab_probe_units.py, select_probe_units). */
module ProbeUnits {
  import opened Lists
  import opened Rotation
  import opened Sorting
  import opened TextOrder
  import opened Wrappers

  /** A deployment unit: its components, its priority and the endpoints to probe. */
  datatype ProbeUnit = ProbeUnit(id: string, componentIds: seq<string>, priority: Option<int>,
                                 primary: Option<string>, secondaries: seq<string>)

  datatype SelectionError = NegativeCycle | DuplicateUnit(id: string)

  ghost predicate UniqueIds(units: seq<ProbeUnit>) {
    forall i, j :: 0 <= i < j < |units| ==> units[i].id != units[j].id
  }

  predicate HasId(units: seq<ProbeUnit>, id: string) {
    exists u :: u in units && u.id == id
  }

  /** The id of the first unit whose id an earlier unit already has. */
  function FirstDuplicate(units: seq<ProbeUnit>): (duplicate: Option<string>)
    ensures duplicate == None <==> UniqueIds(units)
  {
    if units == [] then None
    else
      var rest, last := units[..|units| - 1], units[|units| - 1];
      assert units == rest + [last];
      match FirstDuplicate(rest)
      case Some(id) => Some(id)
      case None =>
        if HasId(rest, last.id) then
          var u :| u in rest && u.id == last.id;
          Some(last.id)
        else None
  }

  predicate HasPriority(unit: ProbeUnit) {
    unit.priority.Some?
  }

  function Rank(unit: ProbeUnit): int {
    match unit.priority
    case Some(rank) => rank
    case None => 1001
  }

  predicate RankOrder(a: ProbeUnit, b: ProbeUnit) {
    Rank(a) < Rank(b) || (Rank(a) == Rank(b) && TextLe(a.id, b.id))
  }

  /** Units with a priority come first, by rank and id; the others follow by id. */
  predicate RotationOrder(a: ProbeUnit, b: ProbeUnit) {
    (HasPriority(a) && !HasPriority(b)) || (HasPriority(a) == HasPriority(b) && RankOrder(a, b))
  }

  function Reserved(limit: nat): nat {
    if limit > 3 then (if limit - 3 < 2 then limit - 3 else 2) else 1
  }

  function Ranked(units: seq<ProbeUnit>): seq<ProbeUnit> {
    Sort(Filter(units, HasPriority), RankOrder)
  }

  function Fixed(units: seq<ProbeUnit>, limit: nat): seq<ProbeUnit> {
    Prefix(Ranked(units), if limit > Reserved(limit) then limit - Reserved(limit) else 0)
  }

  function NotAmong(units: seq<ProbeUnit>): ProbeUnit -> bool {
    (unit: ProbeUnit) => !HasId(units, unit.id)
  }

  function Rotating(units: seq<ProbeUnit>, limit: nat): seq<ProbeUnit> {
    Sort(Filter(units, NotAmong(Fixed(units, limit))), RotationOrder)
  }

  function Slots(units: seq<ProbeUnit>, limit: nat): nat {
    limit - |Fixed(units, limit)|
  }

  function UnitSelection(units: seq<ProbeUnit>, limit: nat, cycle: int): seq<ProbeUnit>
    requires limit > 0
  {
    if |units| <= limit then units
    else Fixed(units, limit) + Window(Rotating(units, limit), Slots(units, limit), cycle)
  }

  function SelectionOutcome(units: seq<ProbeUnit>, limit: int, cycle: int): Result<seq<ProbeUnit>, SelectionError> {
    if limit <= 0 then Success([])
    else if cycle < 0 then Failure(NegativeCycle)
    else
      match FirstDuplicate(units)
      case Some(id) => Failure(DuplicateUnit(id))
      case None => Success(UnitSelection(units, limit, cycle))
  }

  method SelectProbeUnits(units: seq<ProbeUnit>, limit: int, cycle: int)
    returns (outcome: Result<seq<ProbeUnit>, SelectionError>)
    ensures outcome == SelectionOutcome(units, limit, cycle)
  {
    if limit <= 0 {
      return Success([]);
    }
    if cycle < 0 {
      return Failure(NegativeCycle);
    }
    var duplicate := RepeatedId(units);
    match duplicate {
      case Some(id) => outcome := Failure(DuplicateUnit(id));
      case None => outcome := Success(UnitSelection(units, limit, cycle));
    }
  }

  /** Collects the units by id and stops at the first repeated id. */
  method RepeatedId(units: seq<ProbeUnit>) returns (duplicate: Option<string>)
    ensures duplicate == FirstDuplicate(units)
  {
    hide FirstDuplicate, HasId;
    var unique: map<string, ProbeUnit> := map[];
    NoUnits();
    for i := 0 to |units|
      invariant FirstDuplicate(units[..i]) == None
      invariant forall id :: id in unique <==> HasId(units[..i], id)
    {
      var unit := units[i];
      OneMoreUnit(units, i);
      if unit.id in unique {
        DuplicateStays(units, i + 1);
        return Some(unit.id);
      }
      unique := unique[unit.id := unit];
    }
    assert units[..|units|] == units;
    duplicate := None;
  }

  lemma NoUnits()
    ensures FirstDuplicate([]) == None && forall id :: !HasId([], id)
  {
  }

  lemma OneMoreUnit(units: seq<ProbeUnit>, i: nat)
    requires i < |units| && FirstDuplicate(units[..i]) == None
    ensures FirstDuplicate(units[..i + 1]) ==
            if HasId(units[..i], units[i].id) then Some(units[i].id) else None
    ensures forall id :: HasId(units[..i + 1], id) <==> HasId(units[..i], id) || id == units[i].id
  {
    var now, next := units[..i], units[..i + 1];
    assert next[..i] == now;
    forall id ensures HasId(next, id) <==> HasId(now, id) || id == units[i].id {
      assert next == now + [units[i]];
      assert units[i] in next;
    }
  }

  lemma {:induction false} DuplicateStays(units: seq<ProbeUnit>, n: nat)
    requires n <= |units| && FirstDuplicate(units[..n]).Some?
    ensures FirstDuplicate(units) == FirstDuplicate(units[..n])
  {
    if n == |units| {
      assert units[..n] == units;
    } else {
      var rest := units[..|units| - 1];
      assert rest[..n] == units[..n];
      DuplicateStays(rest, n);
    }
  }

  // ---------------------------------------------------------------- partition and selection facts

  lemma OrdersArePreorders()
    ensures TotalPreorder(RankOrder) && TotalPreorder(RotationOrder)
  {
    TextLeIsTotalOrder();
  }

  lemma UniqueIdsDistinct(units: seq<ProbeUnit>)
    requires UniqueIds(units)
    ensures Distinct(units)
    ensures forall s, t :: s in units && t in units && s.id == t.id ==> s == t
  {
  }

  lemma FixedFacts(units: seq<ProbeUnit>, limit: nat)
    requires UniqueIds(units)
    ensures Distinct(Fixed(units, limit)) && |Fixed(units, limit)| <= limit
    ensures limit > 0 ==> |Fixed(units, limit)| < limit
    ensures forall u :: u in Fixed(units, limit) ==> u in units
  {
    UniqueIdsDistinct(units);
    FilterKeepsDistinct(units, HasPriority);
    FilterMembers(units, HasPriority);
    SortKeepsDistinct(Filter(units, HasPriority), RankOrder);
    SortPermutes(Filter(units, HasPriority), RankOrder);
  }

  /** The fixed units are the most urgent ones: a unit with a priority that is left to rotation has a
      priority no more urgent than any fixed unit's, ties going by id, and the fixed part is then full. */
  lemma FixedAreMostUrgent(units: seq<ProbeUnit>, limit: nat, u: ProbeUnit, v: ProbeUnit)
    requires limit > 0 && u in Fixed(units, limit)
    requires v in units && v.priority.Some? && v !in Fixed(units, limit)
    ensures u in units && u.priority.Some?
    ensures u.priority.value < v.priority.value || (u.priority.value == v.priority.value && TextLe(u.id, v.id))
    ensures |Fixed(units, limit)| == limit - Reserved(limit)
  {
    var ranked := Filter(units, HasPriority);
    OrdersArePreorders();
    FilterMembers(units, HasPriority);
    SortPermutes(ranked, RankOrder);
    SortSorts(ranked, RankOrder);
    PrefixComesFirst(Ranked(units), RankOrder, if limit > Reserved(limit) then limit - Reserved(limit) else 0, u, v);
  }

  /** How many units are fixed: all with a priority, as far as one slot, or from a limit of five on two, is left to
      rotation. */
  lemma FixedSize(units: seq<ProbeUnit>, limit: nat)
    ensures var room := if limit <= 1 then 0 else if limit <= 4 then limit - 1 else limit - 2;
            var urgent := |Filter(units, HasPriority)|;
            |Fixed(units, limit)| == if urgent <= room then urgent else room
    ensures forall i, j :: 0 <= i < j < |Fixed(units, limit)| ==>
              RankOrder(Fixed(units, limit)[i], Fixed(units, limit)[j])
  {
    OrdersArePreorders();
    SortPermutes(Filter(units, HasPriority), RankOrder);
    SameMembers(Ranked(units), Filter(units, HasPriority));
    SortSorts(Filter(units, HasPriority), RankOrder);
  }

  /** A selection above the limit lists the fixed units first, and then the slots of rotation in turn, from the place
      that the cycle has reached. */
  lemma SelectionLayout(units: seq<ProbeUnit>, limit: nat, cycle: int, i: nat)
    requires UniqueIds(units) && 0 < limit < |units| && i < limit
    ensures var selected, fixed := UnitSelection(units, limit, cycle), Fixed(units, limit);
            var ring, slots := Rotating(units, limit), Slots(units, limit);
            && |selected| == limit && |fixed| < limit && ring != []
            && selected[i] == if i < |fixed| then fixed[i]
                              else ring[((cycle * slots) % |ring| + (i - |fixed|)) % |ring|]
  {
    PartitionFacts(units, limit);
    SelectionFillsLimit(units, limit, cycle);
  }

  /** The first unit whose id an earlier one has. */
  ghost predicate FirstRepeat(units: seq<ProbeUnit>, i: nat) {
    && i < |units| && (exists j :: 0 <= j < i && units[j].id == units[i].id)
    && UniqueIds(units[..i])
  }

  /** What a selection comes to: nothing under a non-positive limit, an error for a negative cycle or for the first
      repeated id, and otherwise the units selected. */
  lemma OutcomeMeaning(units: seq<ProbeUnit>, limit: int, cycle: int)
    ensures var outcome := SelectionOutcome(units, limit, cycle);
            && (limit <= 0 ==> outcome == Success([]))
            && (limit > 0 && cycle < 0 ==> outcome == Failure(NegativeCycle))
            && (limit > 0 && cycle >= 0 && UniqueIds(units) ==> outcome == Success(UnitSelection(units, limit, cycle)))
            && forall i: nat :: limit > 0 && cycle >= 0 && FirstRepeat(units, i) ==>
                                outcome == Failure(DuplicateUnit(units[i].id))
  {
    forall i: nat | FirstRepeat(units, i) ensures FirstDuplicate(units) == Some(units[i].id) {
      RepeatIsFound(units, i);
    }
  }

  lemma RepeatIsFound(units: seq<ProbeUnit>, i: nat)
    requires FirstRepeat(units, i)
    ensures FirstDuplicate(units) == Some(units[i].id)
  {
    OneMoreUnit(units, i);
    var j :| 0 <= j < i && units[j].id == units[i].id;
    assert units[..i][j] in units[..i];
    DuplicateStays(units, i + 1);
  }

  /** Rotation starts with the units that have a priority, most urgent first. */
  lemma RotationByUrgency(units: seq<ProbeUnit>, limit: nat, i: nat, j: nat)
    requires i < j < |Rotating(units, limit)|
    ensures var a, b := Rotating(units, limit)[i], Rotating(units, limit)[j];
            && (b.priority.Some? ==> a.priority.Some? && a.priority.value <= b.priority.value)
            && (a.priority == b.priority ==> TextLe(a.id, b.id))
  {
    OrdersArePreorders();
    SortSorts(Filter(units, NotAmong(Fixed(units, limit))), RotationOrder);
  }

  /** Rotation always has a slot, and more members than slots once units outnumber the limit. */
  lemma PartitionFacts(units: seq<ProbeUnit>, limit: nat)
    requires UniqueIds(units) && limit > 0
    ensures var fixed, rotating := Fixed(units, limit), Rotating(units, limit);
            && Distinct(fixed) && Distinct(rotating)
            && |fixed| + |rotating| == |units|
            && |fixed| < limit
            && (forall u :: u in units <==> u in fixed || u in rotating)
            && (forall u: ProbeUnit :: !(u in fixed && u in rotating))
  {
    var fixed, rotating := Fixed(units, limit), Rotating(units, limit);
    FixedFacts(units, limit);
    UniqueIdsDistinct(units);
    FilterKeepsDistinct(units, NotAmong(fixed));
    FilterMembers(units, NotAmong(fixed));
    SortKeepsDistinct(Filter(units, NotAmong(fixed)), RotationOrder);
    SortPermutes(Filter(units, NotAmong(fixed)), RotationOrder);
    forall u ensures u in units <==> u in fixed || u in rotating {
      if u in units && u !in rotating {
        var f :| f in fixed && f.id == u.id;
        assert f == u;
      }
    }
    SplitLengths(units, fixed, rotating);
  }

  /** A successful selection is distinct and uses the whole limit as soon as units outnumber it. */
  lemma SelectionFillsLimit(units: seq<ProbeUnit>, limit: nat, cycle: int)
    requires limit > 0 && UniqueIds(units)
    ensures var selected := UnitSelection(units, limit, cycle);
            && Distinct(selected)
            && (forall u :: u in selected ==> u in units)
            && |selected| == if |units| <= limit then |units| else limit
  {
    UniqueIdsDistinct(units);
    if limit < |units| {
      PartitionFacts(units, limit);
      var fixed, ring, slots := Fixed(units, limit), Rotating(units, limit), Slots(units, limit);
      WindowFacts(ring, slots, cycle);
      var selected := fixed + Window(ring, slots, cycle);
      forall i, j | 0 <= i < j < |selected| ensures selected[i] != selected[j] {
        if i < |fixed| <= j {
          assert selected[i] in fixed && selected[j] in ring;
        }
      }
    }
  }

  ghost predicate SelectedWithin(unit: ProbeUnit, units: seq<ProbeUnit>, limit: nat, from: int, n: nat)
    requires limit > 0
  {
    exists c :: from <= c < from + n && unit in UnitSelection(units, limit, c)
  }

  ghost predicate CoversAll(units: seq<ProbeUnit>, limit: nat, from: int, n: nat)
    requires limit > 0
  {
    forall u :: u in units ==> SelectedWithin(u, units, limit, from, n)
  }

  /** No unit starves, under any positive limit: a run of cycles selects every unit exactly when it
      has at least as many cycles as rotation needs rounds. */
  lemma NeverStarves(units: seq<ProbeUnit>, limit: nat, from: int, n: nat)
    requires 0 < limit < |units| && UniqueIds(units)
    ensures Slots(units, limit) > 0
    ensures CoversAll(units, limit, from, n) <==> n >= Rounds(|Rotating(units, limit)|, Slots(units, limit))
  {
    PartitionFacts(units, limit);
    var ring, slots := Rotating(units, limit), Slots(units, limit);
    if n < Rounds(|ring|, slots) {
      var missed := SomeoneMissed(ring, slots, from, n);
      forall c | from <= c < from + n ensures missed !in UnitSelection(units, limit, c) {
        SelectedByWindow(units, limit, c, missed);
      }
      assert !SelectedWithin(missed, units, limit, from, n);
    } else {
      LongRunCovers(units, limit, from, n);
    }
  }

  lemma SelectedByWindow(units: seq<ProbeUnit>, limit: nat, cycle: int, u: ProbeUnit)
    requires 0 < limit < |units| && UniqueIds(units) && u in Rotating(units, limit)
    ensures u in Window(Rotating(units, limit), Slots(units, limit), cycle) <==> u in UnitSelection(units, limit, cycle)
  {
    PartitionFacts(units, limit);
  }

  lemma LongRunCovers(units: seq<ProbeUnit>, limit: nat, from: int, n: nat)
    requires 0 < limit < |units| && UniqueIds(units) && Slots(units, limit) > 0
    requires n >= Rounds(|Rotating(units, limit)|, Slots(units, limit))
    ensures CoversAll(units, limit, from, n)
  {
    PartitionFacts(units, limit);
    var ring, slots := Rotating(units, limit), Slots(units, limit);
    RoundsIsCeiling(|ring|, slots);
    forall u | u in units ensures SelectedWithin(u, units, limit, from, n) {
      if u in ring {
        IntervalIsExact(ring, slots, u, n);
        assert SeenWithin(ring, slots, u, from, n);
        var c :| from <= c < from + n && u in Window(ring, slots, c);
        SelectedByWindow(units, limit, c, u);
      } else {
        assert u in UnitSelection(units, limit, from);
      }
    }
  }

  // ---------------------------------------------------------------- independence of order

  lemma NoUnitTies(units: seq<ProbeUnit>, keep: ProbeUnit -> bool)
    requires UniqueIds(units)
    ensures NoTies(Filter(units, keep), RankOrder) && NoTies(Filter(units, keep), RotationOrder)
  {
    UniqueIdsDistinct(units);
    FilterMembers(units, keep);
    forall x: ProbeUnit, y: ProbeUnit | x in units && y in units && RankOrder(x, y) && RankOrder(y, x)
      ensures x == y
    {
      TextLeAntisymmetric(x.id, y.id);
    }
  }

  lemma PartsIgnoreOrder(units: seq<ProbeUnit>, shuffled: seq<ProbeUnit>, limit: nat)
    requires UniqueIds(units) && multiset(shuffled) == multiset(units)
    ensures Fixed(shuffled, limit) == Fixed(units, limit)
    ensures Rotating(shuffled, limit) == Rotating(units, limit)
  {
    OrdersArePreorders();
    FilterPermutes(units, shuffled, HasPriority);
    NoUnitTies(units, HasPriority);
    SortIgnoresOrder(Filter(units, HasPriority), Filter(shuffled, HasPriority), RankOrder);
    var keep := NotAmong(Fixed(units, limit));
    FilterPermutes(units, shuffled, keep);
    NoUnitTies(units, keep);
    SortIgnoresOrder(Filter(units, keep), Filter(shuffled, keep), RotationOrder);
  }

  lemma ShuffledUniqueIds(units: seq<ProbeUnit>, shuffled: seq<ProbeUnit>)
    requires UniqueIds(units) && multiset(shuffled) == multiset(units)
    ensures UniqueIds(shuffled)
  {
    UniqueIdsDistinct(units);
    DistinctByMultiset(units);
    DistinctByMultiset(shuffled);
    SameMembers(units, shuffled);
    forall i, j | 0 <= i < j < |shuffled| ensures shuffled[i].id != shuffled[j].id {
      assert shuffled[i] in units && shuffled[j] in units && shuffled[i] != shuffled[j];
    }
  }

  /** The same units in another order give the same selected units; above the limit they even give
      the same list. */
  lemma SelectionIgnoresOrder(units: seq<ProbeUnit>, shuffled: seq<ProbeUnit>, limit: nat, cycle: int)
    requires limit > 0 && UniqueIds(units) && multiset(shuffled) == multiset(units)
    ensures UniqueIds(shuffled)
    ensures multiset(UnitSelection(shuffled, limit, cycle)) == multiset(UnitSelection(units, limit, cycle))
    ensures |units| > limit ==> UnitSelection(shuffled, limit, cycle) == UnitSelection(units, limit, cycle)
  {
    ShuffledUniqueIds(units, shuffled);
    SameMembers(units, shuffled);
    if |units| > limit {
      LargeSelectionIgnoresOrder(units, shuffled, limit, cycle);
    }
  }

  lemma LargeSelectionIgnoresOrder(units: seq<ProbeUnit>, shuffled: seq<ProbeUnit>, limit: nat, cycle: int)
    requires 0 < limit < |units| && UniqueIds(units) && UniqueIds(shuffled) && multiset(shuffled) == multiset(units)
    ensures UnitSelection(shuffled, limit, cycle) == UnitSelection(units, limit, cycle)
  {
    SameMembers(units, shuffled);
    PartsIgnoreOrder(units, shuffled, limit);
    PartitionFacts(units, limit);
    assert Window(Rotating(shuffled, limit), Slots(shuffled, limit), cycle) ==
           Window(Rotating(units, limit), Slots(units, limit), cycle);
  }

  /** Within the limit the list follows the order of the input, so it changes with it exactly when
      the order changes. */
  lemma SmallSelectionKeepsOrder(units: seq<ProbeUnit>, shuffled: seq<ProbeUnit>, limit: nat, cycle: int)
    requires limit > 0 && UniqueIds(units) && multiset(shuffled) == multiset(units)
    ensures UniqueIds(shuffled)
    ensures UnitSelection(shuffled, limit, cycle) == UnitSelection(units, limit, cycle) <==>
            |units| > limit || shuffled == units
  {
    SelectionIgnoresOrder(units, shuffled, limit, cycle);
    SameMembers(units, shuffled);
  }

  /** Two units under a limit of two: exchanging them exchanges them in the selection. */
  lemma ExchangedUnitsExample(a: ProbeUnit, b: ProbeUnit, cycle: int)
    requires a.id != b.id
    ensures UniqueIds([a, b]) && multiset([b, a]) == multiset([a, b])
    ensures UnitSelection([b, a], 2, cycle) != UnitSelection([a, b], 2, cycle)
  {
    assert [a, b][0] == a && [b, a][0] == b;
  }
}
