/** Exit stacks: releases are registered as resources are acquired and run in reverse when the stack
    unwinds; a stack can hand all it holds to another. A journal records what happened, and replaying the
    journal tells what is still held. */
module ExitStacks {
  import opened Wrappers

  datatype Release = ClosePool | CloseRedis | Disconnect | CloseMcp | CancelWorkers

  datatype Step =
    | InitCache | Connect | InitSchema | InitNotes | InitUsers | InitSensors | InitFlags | InitMcp
    | StartMetrics | StartListener | StartHeartbeat | Serve

  datatype Entry = Did(step: Step) | Failed(step: Step) | Registered(release: Release) | Released(release: Release)

  /** An entry of an exit stack: one release, or everything another stack held. */
  datatype Held = Callback(release: Release) | Stack(inner: seq<Held>)

  /** The single releases that a stack holds, oldest first. */
  function Flatten(held: seq<Held>): seq<Release>
    decreases held
  {
    if held == [] then [] else Flatten(held[..|held| - 1]) + FlattenOne(held[|held| - 1])
  }

  function FlattenOne(entry: Held): seq<Release>
    decreases entry
  {
    match entry
    case Callback(release) => [release]
    case Stack(inner) => Flatten(inner)
  }

  /** What is still held after a journal; nothing if some release did not take the latest one held. */
  function Replay(journal: seq<Entry>): Option<seq<Release>> {
    if journal == [] then Some([]) else ReplayOne(Replay(journal[..|journal| - 1]), journal[|journal| - 1])
  }

  function ReplayOne(before: Option<seq<Release>>, entry: Entry): Option<seq<Release>> {
    match entry
    case Registered(release) => if before.Some? then Some(before.value + [release]) else None
    case Released(release) =>
      if before.Some? && before.value != [] && before.value[|before.value| - 1] == release
      then Some(before.value[..|before.value| - 1]) else None
    case _ => before
  }

  lemma ReplayNext(journal: seq<Entry>, entry: Entry)
    ensures (journal + [entry])[..|journal|] == journal
    ensures entry.Did? || entry.Failed? ==> Replay(journal + [entry]) == Replay(journal)
    ensures entry.Registered? && Replay(journal).Some? ==>
              Replay(journal + [entry]) == Some(Replay(journal).value + [entry.release])
  {
    assert (journal + [entry])[..|journal|] == journal;
  }

  lemma ReplayRelease(journal: seq<Entry>, held: seq<Release>, release: Release)
    requires Replay(journal) == Some(held + [release])
    ensures Replay(journal + [Released(release)]) == Some(held)
  {
    assert (journal + [Released(release)])[..|journal|] == journal;
    assert (held + [release])[..|held|] == held;
  }

  /** The journal of releasing everything, latest first. */
  function Unwound(releases: seq<Release>): seq<Entry> {
    if releases == [] then []
    else [Released(releases[|releases| - 1])] + Unwound(releases[..|releases| - 1])
  }

  lemma {:induction false} ReplayUnwound(journal: seq<Entry>, base: seq<Release>, releases: seq<Release>)
    requires Replay(journal) == Some(base + releases)
    ensures Replay(journal + Unwound(releases)) == Some(base)
    decreases |releases|
  {
    if releases == [] {
      assert journal + Unwound(releases) == journal && base + releases == base;
    } else {
      var n := |releases| - 1;
      UnwoundStep(journal, base, releases);
      ReplayRelease(journal, base + releases[..n], releases[n]);
      ReplayUnwound(journal + [Released(releases[n])], base, releases[..n]);
    }
  }

  lemma UnwoundStep(journal: seq<Entry>, base: seq<Release>, releases: seq<Release>)
    requires releases != []
    ensures var n := |releases| - 1;
            && base + releases == (base + releases[..n]) + [releases[n]]
            && journal + Unwound(releases) == (journal + [Released(releases[n])]) + Unwound(releases[..n])
  {
    LastApart(base, releases);
    MiddleApart(journal, Released(releases[|releases| - 1]), Unwound(releases[..|releases| - 1]));
  }

  lemma LastApart<T>(a: seq<T>, b: seq<T>)
    requires b != []
    ensures a + b == (a + b[..|b| - 1]) + [b[|b| - 1]]
  {
    assert b == b[..|b| - 1] + [b[|b| - 1]];
  }

  lemma MiddleApart<T>(a: seq<T>, x: T, b: seq<T>)
    ensures a + ([x] + b) == (a + [x]) + b
  {
  }

  lemma {:induction false} UnwoundJoins(a: seq<Release>, b: seq<Release>)
    ensures Unwound(a + b) == Unwound(b) + Unwound(a)
  {
    if b == [] {
      assert a + b == a;
    } else {
      var n := |b| - 1;
      assert (a + b)[..|a + b| - 1] == a + b[..n];
      UnwoundJoins(a, b[..n]);
    }
  }

  lemma {:induction false} UnwoundOnlyReleases(releases: seq<Release>)
    ensures forall i :: 0 <= i < |Unwound(releases)| ==> Unwound(releases)[i].Released?
  {
    if releases != [] {
      UnwoundOnlyReleases(releases[..|releases| - 1]);
    }
  }

  // ---------------------------------------------------------------- what a replayable journal says

  /** Registered so far is released so far and still held. */
  lemma {:induction false} ReplayCounts(journal: seq<Entry>, release: Release)
    requires Replay(journal).Some?
    ensures multiset(journal)[Registered(release)]
         == multiset(journal)[Released(release)] + multiset(Replay(journal).value)[release]
  {
    if journal != [] {
      var n := |journal| - 1;
      ReplayCounts(journal[..n], release);
      CountLast(journal, Registered(release));
      CountLast(journal, Released(release));
      if journal[n].Released? {
        CountLast(Replay(journal[..n]).value, release);
      }
    }
  }

  lemma CountLast<T>(s: seq<T>, x: T)
    requires s != []
    ensures multiset(s)[x] == multiset(s[..|s| - 1])[x] + if s[|s| - 1] == x then 1 else 0
  {
    assert s == s[..|s| - 1] + [s[|s| - 1]];
  }

  /** The stack still holds `base`, and above it nothing equal to `release`. */
  predicate Above(stack: Option<seq<Release>>, base: seq<Release>, release: Release) {
    stack.Some? && base <= stack.value && release !in stack.value[|base|..]
  }

  lemma {:induction false} StaysAbove(journal: seq<Entry>, b: nat, k: nat, base: seq<Release>, latest: Release,
                                      release: Release)
    requires b < k <= |journal| && Replay(journal).Some?
    requires Replay(journal[..b + 1]) == Some(base + [latest])
    requires forall i :: b < i < k ==> journal[i] != Registered(release) && journal[i] != Released(latest)
    ensures Above(Replay(journal[..k]), base + [latest], release)
  {
    PrefixReplays(journal, k);
    if k > b + 1 {
      StaysAbove(journal, b, k - 1, base, latest, release);
      assert journal[..k][..k - 1] == journal[..k - 1];
      StepAbove(Replay(journal[..k - 1]), journal[k - 1], base, latest, release);
    }
  }

  lemma StepAbove(before: Option<seq<Release>>, entry: Entry, base: seq<Release>, latest: Release, release: Release)
    requires Above(before, base + [latest], release) && ReplayOne(before, entry).Some?
    requires entry != Registered(release) && entry != Released(latest)
    ensures Above(ReplayOne(before, entry), base + [latest], release)
  {
    if entry.Released? {
      assert before.value[|base|] == latest;
      assert |before.value| > |base| + 1;
    }
  }

  lemma {:induction false} PrefixReplays(journal: seq<Entry>, k: nat)
    requires k <= |journal| && Replay(journal).Some?
    ensures Replay(journal[..k]).Some?
    decreases |journal|
  {
    if k == |journal| {
      assert journal[..k] == journal;
    } else {
      var n := |journal| - 1;
      PrefixReplays(journal[..n], k);
      assert journal[..n][..k] == journal[..k];
    }
  }

  /** Reverse order of what is still held: what was registered later is released earlier. */
  lemma LaterReleasedFirst(journal: seq<Entry>, b: nat, c: nat)
    requires Replay(journal).Some? && b < c < |journal|
    requires journal[b].Registered? && journal[c].Released? && journal[b].release != journal[c].release
    requires forall i :: b < i < c ==> journal[i] != Registered(journal[c].release)
    ensures exists d :: b < d < c && journal[d] == Released(journal[b].release)
  {
    var latest, release := journal[b].release, journal[c].release;
    if forall i :: b < i < c ==> journal[i] != Released(latest) {
      PrefixReplays(journal, b);
      PrefixReplays(journal, c + 1);
      assert journal[..b + 1][..b] == journal[..b];
      assert journal[..c + 1][..c] == journal[..c];
      StaysAbove(journal, b, c, Replay(journal[..b]).value, latest, release);
      assert false;
    }
  }
}
