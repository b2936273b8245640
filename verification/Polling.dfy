/** What a rotating window reaches when it is not looked at in every bucket but in every `gap`-th one. */
module Polling {
  import opened GreatestDivisor
  import opened Lists
  import opened Rotation

  /** The bucket of the `i`-th look. */
  function PollAt(from: int, gap: nat, i: nat): int {
    from + i * gap
  }

  /** How finely the looks divide the ring: their windows start this many places apart. */
  function Grain(gap: nat, slots: nat, size: nat): (grain: nat)
    requires size > 0
    ensures grain > 0
  {
    GcdPositive(gap * slots, size);
    Gcd(gap * slots, size)
  }

  /** At how many places of the ring a window can start. */
  function Period(gap: nat, slots: nat, size: nat): nat
    requires size > 0
  {
    size / Grain(gap, slots, size)
  }

  /** The place lies in the window at one of the places, `grain` apart, at which windows start. */
  predicate InReach(from: int, place: nat, slots: nat, grain: nat)
    requires grain > 0
  {
    (place - from * slots) % grain < slots
  }

  lemma GrainFacts(gap: nat, slots: nat, size: nat) returns (x: int, y: int, p: nat, q: nat)
    requires size > 0
    ensures var d := Grain(gap, slots, size);
            && d <= size && d == x * (gap * slots) + y * size && gap * slots == p * d && size == q * d && q > 0
  {
    x, y, p, q := Bezout(gap * slots, size);
    if q <= 0 {
      MultiplyMonotone(q, 0, Grain(gap, slots, size));
    }
    MultiplyMonotone(1, q, Grain(gap, slots, size));
  }

  /** A place out of reach is served by no look. */
  lemma ServedInReach(from: int, gap: nat, i: nat, place: nat, slots: nat, size: nat)
    requires 0 < slots <= size && place < size
    requires Serves(PollAt(from, gap, i), place, slots, size)
    ensures InReach(from, place, slots, Grain(gap, slots, size))
  {
    var d, bucket := Grain(gap, slots, size), PollAt(from, gap, i);
    var _, _, p, q := GrainFacts(gap, slots, size);
    ServesIffAhead(bucket, place, slots, size);
    var ahead := Ahead(bucket, place, slots, size);
    var turns := Divide(place - bucket * slots, size);
    var rest := ahead % d;
    var laps := Divide(ahead, d);
    StartOfLook(from, gap, i, slots);
    WholeGrains(i, p, d, turns, q, laps, gap * slots, size);
    Residue(place - from * slots, d, i * p + turns * q + laps, rest);
    RestIsLess(ahead, d);
  }

  lemma RestIsLess(a: nat, d: nat)
    requires d > 0
    ensures a % d <= a
  {
    if a < d {
      Residue(a, d, 0, a);
    }
  }

  lemma StartOfLook(from: int, gap: nat, i: nat, slots: nat)
    ensures PollAt(from, gap, i) * slots == from * slots + i * (gap * slots)
  {
    Distribute(from, i * gap, slots);
    assert i * gap * slots == i * (gap * slots);
  }

  lemma WholeGrains(i: int, p: int, d: int, turns: int, q: int, laps: int, step: int, size: int)
    requires step == p * d && size == q * d
    ensures i * step + turns * size + laps * d == (i * p + turns * q + laps) * d
  {
    assert i * (p * d) == i * p * d;
    assert turns * (q * d) == turns * q * d;
    Distribute(i * p, turns * q, d);
    Distribute(i * p + turns * q, laps, d);
  }

  /** A place in reach is served by one of as many looks as there are starts. */
  lemma ReachIsServed(from: int, gap: nat, place: nat, slots: nat, size: nat) returns (i: nat)
    requires 0 < slots <= size && place < size
    requires InReach(from, place, slots, Grain(gap, slots, size))
    ensures i < Period(gap, slots, size) && Serves(PollAt(from, gap, i), place, slots, size)
  {
    var d, step := Grain(gap, slots, size), gap * slots;
    var x, y, p, q := GrainFacts(gap, slots, size);
    var rest := (place - from * slots) % d;
    var t := Divide(place - from * slots, d);
    i := (x * t) % q;
    var w := Divide(x * t, q);
    StepsToGrain(x, y, p, q, d, t, w, i, step, size);
    StartOfLook(from, gap, i, slots);
    Residue(place - PollAt(from, gap, i) * slots, size, w * p + y * t, rest);
    ServesIffAhead(PollAt(from, gap, i), place, slots, size);
    QuotientOf(size, q, d);
  }

  lemma QuotientOf(size: nat, q: nat, d: nat)
    requires d > 0 && size == q * d
    ensures size / d == q
  {
    var k, rest := size / d, size % d;
    assert size == k * d + rest;
    Distribute(q, k, d);
    OnlyZeroMultiple(q - k, d);
  }

  lemma StepsToGrain(x: int, y: int, p: int, q: int, d: int, t: int, w: int, i: int, step: int, size: int)
    requires d == x * step + y * size && step == p * d && size == q * d && x * t == w * q + i
    ensures t * d == i * step + (w * p + y * t) * size
  {
    calc {
      t * d;
      t * (x * step + y * size);
      { Distribute(x * step, y * size, t); }
      (x * step) * t + (y * size) * t;
      { assert (x * step) * t == (x * t) * step; assert (y * size) * t == (y * t) * size; }
      (w * q + i) * step + (y * t) * size;
      { Distribute(w * q, i, step); }
      (w * q) * step + i * step + (y * t) * size;
      { assert (w * q) * step == w * q * (p * d); assert w * q * (p * d) == w * p * (q * d); }
      i * step + (w * p) * size + (y * t) * size;
      { Distribute(w * p, y * t, size); }
      i * step + (w * p + y * t) * size;
    }
  }

  /** Some place is out of reach exactly when the grain is coarser than the window. */
  lemma AllInReach(from: int, slots: nat, size: nat, grain: nat, q: nat)
    requires 0 < slots <= size && 0 < grain && size == q * grain
    ensures (forall place: nat :: place < size ==> InReach(from, place, slots, grain)) <==> grain <= slots
  {
    if grain > slots {
      var place := (from * slots + slots) % size;
      var turns := Divide(from * slots + slots, size);
      Distribute(0, turns * q, grain);
      assert turns * (q * grain) == turns * q * grain;
      Residue(place - from * slots, grain, 0 - turns * q, slots);
      assert !InReach(from, place, slots, grain);
    }
  }

  // ---------------------------------------------------------------- looks at a list

  ghost predicate PolledAt<T>(ring: seq<T>, slots: nat, x: T, from: int, gap: nat, i: nat) {
    x in Window(ring, slots, PollAt(from, gap, i))
  }

  /** One of the first `n` looks selects `x`. */
  ghost predicate PolledWithin<T>(ring: seq<T>, slots: nat, x: T, from: int, gap: nat, n: nat) {
    exists i: nat :: i < n && PolledAt(ring, slots, x, from, gap, i)
  }

  ghost predicate EverPolled<T>(ring: seq<T>, slots: nat, x: T, from: int, gap: nat) {
    exists i: nat :: PolledAt(ring, slots, x, from, gap, i)
  }

  /** Which members of the ring the looks select at all: those whose place is in reach of the first window, and
      these within as many looks as there are starts. */
  lemma PolledMeaning<T>(ring: seq<T>, slots: nat, place: nat, from: int, gap: nat)
    requires Distinct(ring) && 0 < slots <= |ring| && place < |ring|
    ensures EverPolled(ring, slots, ring[place], from, gap) <==>
            InReach(from, place, slots, Grain(gap, slots, |ring|))
    ensures EverPolled(ring, slots, ring[place], from, gap) ==>
            PolledWithin(ring, slots, ring[place], from, gap, Period(gap, slots, |ring|))
  {
    var size := |ring|;
    var _, _, _, q := GrainFacts(gap, slots, size);
    if EverPolled(ring, slots, ring[place], from, gap) {
      var i: nat :| PolledAt(ring, slots, ring[place], from, gap, i);
      WindowMembers(ring, slots, PollAt(from, gap, i), place);
      ServedInReach(from, gap, i, place, slots, size);
    }
    if InReach(from, place, slots, Grain(gap, slots, size)) {
      var i := ReachIsServed(from, gap, place, slots, size);
      WindowMembers(ring, slots, PollAt(from, gap, i), place);
      assert PolledAt(ring, slots, ring[place], from, gap, i);
    }
  }

  /** The greatest common divisor of the places that the window moves between two looks and the size of the ring
      is no larger than the window. */
  predicate GapReaches(gap: nat, slots: nat, size: nat) {
    Gcd(gap * slots, size) <= slots
  }

  /** That is exactly when the looks select the whole ring, wherever they start. */
  lemma PollingReachesAll<T>(ring: seq<T>, slots: nat, from: int, gap: nat)
    requires Distinct(ring) && 0 < slots <= |ring|
    ensures (forall x :: x in ring ==> EverPolled(ring, slots, x, from, gap)) <==> GapReaches(gap, slots, |ring|)
  {
    var _, _, _, q := GrainFacts(gap, slots, |ring|);
    AllInReach(from, slots, |ring|, Grain(gap, slots, |ring|), q);
    forall place: nat | place < |ring|
      ensures EverPolled(ring, slots, ring[place], from, gap) <==>
              InReach(from, place, slots, Grain(gap, slots, |ring|))
    {
      PolledMeaning(ring, slots, place, from, gap);
    }
    if forall x :: x in ring ==> EverPolled(ring, slots, x, from, gap) {
      forall place: nat | place < |ring| ensures InReach(from, place, slots, Grain(gap, slots, |ring|)) {
        assert ring[place] in ring;
      }
    }
  }
}
