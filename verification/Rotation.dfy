/** The rotating window shared by the probe policy and the probe units: bucket `b` serves
    `slots` consecutive places of a ring of `size` places, starting at place `b * slots`. */
module Rotation {
  import opened Lists

  /** The place of the ring served at one offset of a bucket's window. */
  function Place(bucket: int, offset: nat, slots: nat, size: nat): nat
    requires size > 0
  {
    ((bucket * slots) % size + offset) % size
  }

  predicate Serves(bucket: int, place: nat, slots: nat, size: nat)
    requires size > 0
  {
    exists offset :: 0 <= offset < slots && Place(bucket, offset, slots, size) == place
  }

  /** The number of buckets the policy advertises for a full turn: the ceiling of size / slots. */
  function Rounds(size: nat, slots: nat): nat
    requires slots > 0
  {
    (size + slots - 1) / slots
  }

  /** How far ahead of the bucket's first place a place lies. */
  function Ahead(bucket: int, place: nat, slots: nat, size: nat): (d: nat)
    requires size > 0
    ensures d < size
  {
    (place - bucket * slots) % size
  }

  lemma OnlyZeroMultiple(factor: int, size: int)
    requires -size < factor * size < size
    ensures factor == 0
  {
    if factor >= 1 {
      MultiplyMonotone(1, factor, size);
    } else if factor <= -1 {
      MultiplyMonotone(factor, -1, size);
    }
  }

  lemma MultiplyMonotone(a: int, b: int, size: int)
    requires a <= b && size >= 0
    ensures a * size <= b * size
  {
    assert (b - a) * size >= 0;
  }

  lemma Distribute(a: int, b: int, size: int)
    ensures (a + b) * size == a * size + b * size
    ensures (a - b) * size == a * size - b * size
  {
  }

  /** Division with remainder, as a quotient to reason with. */
  lemma Divide(x: int, size: nat) returns (quotient: int)
    requires size > 0
    ensures x == quotient * size + x % size
  {
    quotient := x / size;
  }

  lemma Residue(x: int, size: nat, quotient: int, rest: nat)
    requires size > 0 && rest < size
    requires x == quotient * size + rest
    ensures x % size == rest
  {
    var q := Divide(x, size);
    Distribute(q, quotient, size);
    OnlyZeroMultiple(q - quotient, size);
  }

  lemma ServesIffAhead(bucket: int, place: nat, slots: nat, size: nat)
    requires 0 < slots <= size && place < size
    ensures Serves(bucket, place, slots, size) <==> Ahead(bucket, place, slots, size) < slots
  {
    var at := bucket * slots;
    var start := at % size;
    var turns := Divide(at, size);
    var d := Ahead(bucket, place, slots, size);
    var q := Divide(place - at, size);
    Distribute(q, turns, size);
    if d < slots {
      Distribute(0, q + turns, size);
      Residue(start + d, size, 0 - (q + turns), place);
      assert Place(bucket, d, slots, size) == place;
    }
    forall offset | 0 <= offset < slots && Place(bucket, offset, slots, size) == place
      ensures offset == d
    {
      var laps := Divide(start + offset, size);
      Distribute(laps, turns, size);
      Distribute(0, laps + turns, size);
      Residue(place - at, size, 0 - (laps + turns), offset);
    }
  }

  /** One bucket later every place is `slots` nearer, or has just been passed. */
  lemma AheadAfterOne(bucket: int, place: nat, slots: nat, size: nat)
    requires 0 < slots <= size && place < size
    ensures var d := Ahead(bucket, place, slots, size);
            Ahead(bucket + 1, place, slots, size) == if d < slots then d - slots + size else d - slots
  {
    var d := Ahead(bucket, place, slots, size);
    var q := Divide(place - bucket * slots, size);
    Distribute(bucket, 1, slots);
    var x := place - (bucket + 1) * slots;
    if d < slots {
      Distribute(q, 1, size);
      Residue(x, size, q - 1, d - slots + size);
    } else {
      Residue(x, size, q, d - slots);
    }
  }

  /** A place that lies at least `n` windows ahead comes exactly `n` windows nearer in `n` buckets,
      and none of those buckets serves it. */
  lemma {:induction false} AheadAfterMany(bucket: int, n: nat, place: nat, slots: nat, size: nat)
    requires 0 < slots <= size && place < size
    requires n * slots <= Ahead(bucket, place, slots, size)
    ensures Ahead(bucket + n, place, slots, size) == Ahead(bucket, place, slots, size) - n * slots
    ensures forall i :: bucket <= i < bucket + n ==> !Serves(i, place, slots, size)
  {
    if n > 0 {
      assert (n - 1) * slots == n * slots - slots;
      AheadAfterMany(bucket, n - 1, place, slots, size);
      AheadAfterOne(bucket + n - 1, place, slots, size);
      ServesIffAhead(bucket + n - 1, place, slots, size);
    }
  }

  /** `Rounds` is the least number of windows that cover the ring. */
  lemma RoundsIsCeiling(size: nat, slots: nat)
    requires slots > 0
    ensures Rounds(size, slots) * slots >= size
    ensures size > 0 ==> (Rounds(size, slots) - 1) * slots < size && Rounds(size, slots) >= 1
    ensures size > slots ==> Rounds(size, slots) >= 2
  {
    var k := Rounds(size, slots);
    var r := (size + slots - 1) % slots;
    assert size + slots - 1 == k * slots + r;
    assert (k - 1) * slots == k * slots - slots;
    if size > slots && k <= 1 {
      MultiplyMonotone(k, 1, slots);
    } else if size > 0 && k <= 0 {
      MultiplyMonotone(k, 0, slots);
    }
  }

  /** Fairness: every run of `Rounds` consecutive buckets serves every place. */
  lemma EveryRunServes(bucket: int, place: nat, slots: nat, size: nat) returns (hit: int)
    requires 0 < slots <= size && place < size
    ensures bucket <= hit < bucket + Rounds(size, slots) && Serves(hit, place, slots, size)
  {
    var d := Ahead(bucket, place, slots, size);
    var n := d / slots;
    assert d == n * slots + d % slots;
    AheadAfterMany(bucket, n, place, slots, size);
    ServesIffAhead(bucket + n, place, slots, size);
    RoundsIsCeiling(size, slots);
    if n >= Rounds(size, slots) {
      MultiplyMonotone(Rounds(size, slots), n, slots);
    }
    hit := bucket + n;
  }

  /** Tightness for the whole ring: fewer buckets always leave some place unserved. */
  lemma ShorterRunMisses(bucket: int, length: nat, slots: nat, size: nat) returns (place: nat)
    requires 0 < slots < size && length < Rounds(size, slots)
    ensures place < size && forall i :: bucket <= i < bucket + length ==> !Serves(i, place, slots, size)
  {
    RoundsIsCeiling(size, slots);
    MultiplyMonotone(length, Rounds(size, slots) - 1, slots);
    var at, width := bucket * slots, length * slots;
    place := (at + width) % size;
    var turns := Divide(at + width, size);
    Distribute(0, turns, size);
    Residue(place - at, size, 0 - turns, width);
    AheadAfterMany(bucket, length, place, slots, size);
  }

  /** Tightness for one place: however late one looks, every single place is at some time left
      unserved for a whole run of `Rounds - 1` buckets. Between two hits the distance ahead grows
      by `size % slots`, so the longer gap comes round. */
  lemma LongestGapComes(bucket: int, place: nat, slots: nat, size: nat) returns (from: int)
    requires 0 < slots < size && place < size
    ensures from >= bucket
    ensures forall i :: from <= i < from + Rounds(size, slots) - 1 ==> !Serves(i, place, slots, size)
  {
    var hit := EveryRunServes(bucket, place, slots, size);
    from := LongestGapAfterHit(hit, place, slots, size);
  }

  lemma {:induction false} LongestGapAfterHit(hit: int, place: nat, slots: nat, size: nat) returns (from: int)
    requires 0 < slots < size && place < size && Serves(hit, place, slots, size)
    ensures from >= hit
    ensures forall i :: from <= i < from + Rounds(size, slots) - 1 ==> !Serves(i, place, slots, size)
    decreases slots - Ahead(hit, place, slots, size)
  {
    ServesIffAhead(hit, place, slots, size);
    var d := Ahead(hit, place, slots, size);
    AheadAfterOne(hit, place, slots, size);
    var k := Rounds(size, slots);
    RoundsIsCeiling(size, slots);
    assert (k - 1) * slots == k * slots - slots;
    assert (k - 2) * slots == k * slots - 2 * slots;
    if (k - 1) * slots <= d - slots + size {
      AheadAfterMany(hit + 1, k - 1, place, slots, size);
      from := hit + 1;
    } else {
      AheadAfterMany(hit + 1, k - 2, place, slots, size);
      ServesIffAhead(hit + 1 + (k - 2), place, slots, size);
      from := LongestGapAfterHit(hit + 1 + (k - 2), place, slots, size);
    }
  }

  /** The window of one bucket visits distinct places. */
  lemma WindowIsInjective(bucket: int, o1: nat, o2: nat, slots: nat, size: nat)
    requires 0 < slots <= size && o1 < o2 < slots
    ensures Place(bucket, o1, slots, size) != Place(bucket, o2, slots, size)
  {
    var start := (bucket * slots) % size;
    if Place(bucket, o1, slots, size) == Place(bucket, o2, slots, size) {
      var q1 := Divide(start + o1, size);
      var q2 := Divide(start + o2, size);
      Distribute(q2, q1, size);
      OnlyZeroMultiple(q2 - q1, size);
    }
  }

  // ---------------------------------------------------------------- windows over a list

  /** The part of the ring that one bucket selects. */
  function Window<T>(ring: seq<T>, slots: nat, bucket: int): seq<T> {
    if ring == [] then [] else
    seq(if slots <= |ring| then slots else |ring|,
        offset requires 0 <= offset => ring[Place(bucket, offset, slots, |ring|)])
  }

  /** A window never holds more than the whole ring, and starts where the bucket says. */
  lemma WindowSize<T>(ring: seq<T>, slots: nat, bucket: int)
    ensures |Window(ring, slots, bucket)| == if |ring| <= slots then |ring| else slots
    ensures forall i :: 0 <= i < |Window(ring, slots, bucket)| ==>
              Window(ring, slots, bucket)[i] == ring[((bucket * slots) % |ring| + i) % |ring|]
  {
  }

  lemma WindowMembers<T>(ring: seq<T>, slots: nat, bucket: int, place: nat)
    requires Distinct(ring) && place < |ring| && slots <= |ring|
    ensures ring[place] in Window(ring, slots, bucket) <==> Serves(bucket, place, slots, |ring|)
  {
    var window := Window(ring, slots, bucket);
    if ring[place] in window {
      var offset :| 0 <= offset < |window| && window[offset] == ring[place];
      assert Place(bucket, offset, slots, |ring|) == place;
    }
    if Serves(bucket, place, slots, |ring|) {
      var offset :| 0 <= offset < slots && Place(bucket, offset, slots, |ring|) == place;
      assert window[offset] == ring[place];
    }
  }

  lemma WindowFacts<T>(ring: seq<T>, slots: nat, bucket: int)
    requires Distinct(ring) && slots <= |ring| && ring != []
    ensures |Window(ring, slots, bucket)| == slots && Distinct(Window(ring, slots, bucket))
    ensures forall x :: x in Window(ring, slots, bucket) ==> x in ring
  {
    forall i, j | 0 <= i < j < slots ensures Window(ring, slots, bucket)[i] != Window(ring, slots, bucket)[j] {
      WindowIsInjective(bucket, i, j, slots, |ring|);
    }
  }

  /** Whatever bucket one starts at, the next `n` buckets select `x` at least once. */
  ghost predicate SeenEvery<T>(ring: seq<T>, slots: nat, x: T, n: nat) {
    forall from: int :: SeenWithin(ring, slots, x, from, n)
  }

  ghost predicate SeenWithin<T>(ring: seq<T>, slots: nat, x: T, from: int, n: nat) {
    exists b :: from <= b < from + n && x in Window(ring, slots, b)
  }

  /** `Rounds` is, for each single member of the ring, the least number of consecutive buckets that
      are sure to select it. */
  lemma IntervalIsExact<T>(ring: seq<T>, slots: nat, x: T, n: nat)
    requires Distinct(ring) && 0 < slots < |ring| && x in ring
    ensures SeenEvery(ring, slots, x, n) <==> n >= Rounds(|ring|, slots)
  {
    var place :| 0 <= place < |ring| && ring[place] == x;
    if n >= Rounds(|ring|, slots) {
      forall from: int ensures SeenWithin(ring, slots, x, from, n) {
        var hit := EveryRunServes(from, place, slots, |ring|);
        WindowMembers(ring, slots, hit, place);
      }
    } else {
      var from := MissedFrom(ring, slots, x, 0);
      assert !SeenWithin(ring, slots, x, from, n);
    }
  }

  /** However late one looks, a member of the ring is still left out for `Rounds - 1` buckets. */
  lemma MissedFrom<T>(ring: seq<T>, slots: nat, x: T, after: int) returns (from: int)
    requires Distinct(ring) && 0 < slots < |ring| && x in ring
    ensures from >= after
    ensures forall n: nat :: n < Rounds(|ring|, slots) ==> !SeenWithin(ring, slots, x, from, n)
  {
    var place :| 0 <= place < |ring| && ring[place] == x;
    from := LongestGapComes(after, place, slots, |ring|);
    forall b | from <= b < from + Rounds(|ring|, slots) - 1 ensures x !in Window(ring, slots, b) {
      WindowMembers(ring, slots, b, place);
    }
  }

  /** No run shorter than `Rounds` selects the whole ring, wherever it starts. */
  lemma SomeoneMissed<T>(ring: seq<T>, slots: nat, from: int, n: nat) returns (x: T)
    requires Distinct(ring) && 0 < slots < |ring| && n < Rounds(|ring|, slots)
    ensures x in ring && !SeenWithin(ring, slots, x, from, n)
  {
    var place := ShorterRunMisses(from, n, slots, |ring|);
    x := ring[place];
    forall b | from <= b < from + n ensures x !in Window(ring, slots, b) {
      WindowMembers(ring, slots, b, place);
    }
  }
}
