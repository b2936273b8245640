/** Starting and stopping the application (nabla/lifespan.py), whatever step fails and however. */
module Lifespan {
  import opened ExitStacks
  import opened Lists
  import opened Wrappers

  /** An exception that `except Exception` catches, or one that it lets through. */
  datatype Failure = Ordinary | Fatal

  /** How each acquiring step and each release ends, should it run. */
  datatype World = World(step: Step -> Option<Failure>, release: Release -> Option<Failure>)

  datatype Settings = Settings(database: bool, redis: bool, mcp: bool, observability: bool,
                               metricsEnabled: bool, postgresRequired: bool)

  datatype Worker = SystemMetrics | EventListener | Heartbeat

  function Rank(release: Release): nat {
    match release
    case ClosePool => 0
    case CloseRedis => 1
    case Disconnect => 2
    case CloseMcp => 3
    case CancelWorkers => 4
  }

  // ---------------------------------------------------------------- what every journal keeps

  /** Releases are registered in the fixed order of acquisition, each at most once. */
  predicate InOrder(journal: seq<Entry>) {
    forall i, j :: 0 <= i < j < |journal| && journal[i].Registered? && journal[j].Registered? ==>
      Rank(journal[i].release) < Rank(journal[j].release)
  }

  predicate RegisteredBelow(journal: seq<Entry>, level: nat) {
    forall i :: 0 <= i < |journal| && journal[i].Registered? ==> Rank(journal[i].release) < level
  }

  /** Every successful connect registered a disconnect, and nothing else did; whoever began to set up MCP
      had registered its closing. */
  predicate Matched(journal: seq<Entry>) {
    && multiset(journal)[Did(Connect)] == multiset(journal)[Registered(Disconnect)]
    && (Did(InitMcp) in journal || Failed(InitMcp) in journal ==> Registered(CloseMcp) in journal)
  }

  predicate Orderly(journal: seq<Entry>, held: seq<Release>, level: nat) {
    Replay(journal) == Some(held) && InOrder(journal) && RegisteredBelow(journal, level) && Matched(journal)
  }

  lemma StepKeepsOrder(journal: seq<Entry>, held: seq<Release>, level: nat, entry: Entry)
    requires Orderly(journal, held, level)
    requires (entry.Did? || entry.Failed?) && entry != Did(Connect)
    requires entry.step.InitMcp? ==> Registered(CloseMcp) in journal
    ensures Orderly(journal + [entry], held, level)
  {
    ReplayNext(journal, entry);
  }

  lemma RegisterKeepsOrder(journal: seq<Entry>, held: seq<Release>, level: nat, release: Release)
    requires Orderly(journal, held, level) && Rank(release) >= level && release != Disconnect
    ensures Orderly(journal + [Registered(release)], held + [release], Rank(release) + 1)
    ensures Registered(release) in journal + [Registered(release)]
  {
    ReplayNext(journal, Registered(release));
  }

  lemma ConnectKeepsOrder(journal: seq<Entry>, held: seq<Release>, level: nat)
    requires Orderly(journal, held, level) && Rank(Disconnect) >= level
    ensures Orderly(journal + [Did(Connect)] + [Registered(Disconnect)], held + [Disconnect], Rank(Disconnect) + 1)
  {
    ReplayNext(journal, Did(Connect));
    ReplayNext(journal + [Did(Connect)], Registered(Disconnect));
    ConnectMatches(journal);
  }

  lemma ConnectMatches(journal: seq<Entry>)
    requires Matched(journal)
    ensures Matched(journal + [Did(Connect)] + [Registered(Disconnect)])
  {
  }

  lemma UnwindKeepsOrder(journal: seq<Entry>, base: seq<Release>, releases: seq<Release>, level: nat)
    requires Orderly(journal, base + releases, level)
    ensures Orderly(journal + Unwound(releases), base, level)
  {
    ReplayUnwound(journal, base, releases);
    UnwoundOnlyReleases(releases);
    ReleasesKeepRest(journal, Unwound(releases), level);
  }

  lemma ReleasesKeepRest(journal: seq<Entry>, releases: seq<Entry>, level: nat)
    requires InOrder(journal) && RegisteredBelow(journal, level) && Matched(journal)
    requires forall i :: 0 <= i < |releases| ==> releases[i].Released?
    ensures var whole := journal + releases; InOrder(whole) && RegisteredBelow(whole, level) && Matched(whole)
  {
    var whole := journal + releases;
    assert forall i :: 0 <= i < |whole| && !whole[i].Released? ==> i < |journal| && whole[i] == journal[i];
    assert multiset(whole) == multiset(journal) + multiset(releases);
    assert Did(Connect) !in releases && Registered(Disconnect) !in releases;
  }

  // ---------------------------------------------------------------- what an orderly journal says

  lemma {:induction false} RegisteredAtMostOnce(journal: seq<Entry>, release: Release)
    requires InOrder(journal)
    ensures multiset(journal)[Registered(release)] <= 1
  {
    if journal != [] {
      var n := |journal| - 1;
      var before := journal[..n];
      assert journal == before + [journal[n]];
      RegisteredAtMostOnce(before, release);
      if journal[n] == Registered(release) {
        assert Registered(release) !in before;
      }
    }
  }

  /** Once nothing is held any more, each registered release has run exactly once, and no other has. */
  lemma EachReleasedOnce(journal: seq<Entry>, level: nat, release: Release)
    requires Orderly(journal, [], level)
    ensures multiset(journal)[Released(release)] == multiset(journal)[Registered(release)] <= 1
  {
    ReplayCounts(journal, release);
    RegisteredAtMostOnce(journal, release);
  }

  /** The database is disconnected exactly as often as it was connected: once or not at all. */
  lemma DisconnectedIffConnected(journal: seq<Entry>, level: nat)
    requires Orderly(journal, [], level)
    ensures multiset(journal)[Released(Disconnect)] == multiset(journal)[Did(Connect)] <= 1
  {
    EachReleasedOnce(journal, level, Disconnect);
  }

  /** Reverse order of what is still held: of two releases, the one registered later runs first. */
  lemma ReverseOrder(journal: seq<Entry>, held: seq<Release>, level: nat, a: nat, b: nat, c: nat)
    requires Orderly(journal, held, level) && a < b < c < |journal|
    requires journal[a].Registered? && journal[b].Registered? && journal[c] == Released(journal[a].release)
    ensures exists d :: b < d < c && journal[d] == Released(journal[b].release)
  {
    assert Rank(journal[a].release) < Rank(journal[b].release);
    LaterReleasedFirst(journal, b, c);
  }

  /** Between the registration of the background workers' cancellation and the cancellation itself nothing
      else is released: they are stopped before MCP, the database and Redis go. */
  lemma WorkersCancelledFirst(journal: seq<Entry>, held: seq<Release>, level: nat, b: nat, c: nat)
    requires Orderly(journal, held, level) && b < c < |journal|
    requires journal[b] == Registered(CancelWorkers) && journal[c].Released? && journal[c].release != CancelWorkers
    ensures exists d :: b < d < c && journal[d] == Released(CancelWorkers)
  {
    forall i | b < i < c ensures journal[i] != Registered(journal[c].release) {
      if journal[i].Registered? {
        assert Rank(journal[b].release) < Rank(journal[i].release);
      }
    }
    LaterReleasedFirst(journal, b, c);
  }

  // ---------------------------------------------------------------- when the application starts

  const DATABASE_STEPS := [Connect, InitSchema, InitNotes, InitUsers, InitSensors]
  const TABLE_STEPS := [InitSchema, InitNotes, InitUsers, InitSensors]

  function FirstFailure(steps: seq<Step>, world: World): Option<Failure> {
    if steps == [] then None
    else if world.step(steps[0]).Some? then world.step(steps[0])
    else FirstFailure(steps[1..], world)
  }

  /** What a start of the database leaves on its stack. */
  function ConnectionHeld(world: World): seq<Release> {
    if world.step(Connect).None? then [Disconnect] else []
  }

  /** What surfaces when an optional database fails to start: undoing the connection may fail in turn. */
  function AttemptFailure(world: World): Option<Failure> {
    Surfacing(FirstFailure(DATABASE_STEPS, world), ConnectionHeld(world), world)
  }

  /** Startup goes on past the database: it works, or it may be missing and its failure can be caught. */
  predicate DatabaseTolerated(settings: Settings, world: World) {
    || !settings.database
    || FirstFailure(DATABASE_STEPS, world).None?
    || (!settings.postgresRequired && AttemptFailure(world) == Some(Ordinary))
  }

  predicate WorkersStart(settings: Settings, world: World) {
    && (settings.observability && settings.metricsEnabled ==> world.step(StartMetrics).None?)
    && (settings.redis ==> world.step(StartListener).None? && world.step(StartHeartbeat).None?)
  }

  function SelectedWorkers(settings: Settings): seq<Worker> {
    (if settings.observability && settings.metricsEnabled then [SystemMetrics] else [])
    + (if settings.redis then [EventListener, Heartbeat] else [])
  }

  predicate Starts(settings: Settings, world: World) {
    && world.step(InitCache).None? && DatabaseTolerated(settings, world) && world.step(InitFlags).None?
    && (settings.mcp ==> world.step(InitMcp).None?)
    && WorkersStart(settings, world)
  }

  // ---------------------------------------------------------------- what startup does, in order

  function StepEntry(step: Step, world: World): Entry {
    if world.step(step).None? then Did(step) else Failed(step)
  }

  /** Steps in a row, up to the first that fails. */
  function StepsJournal(steps: seq<Step>, world: World): seq<Entry> {
    if steps == [] then []
    else [StepEntry(steps[0], world)] + if world.step(steps[0]).None? then StepsJournal(steps[1..], world) else []
  }

  function StoresJournal(settings: Settings, world: World): seq<Entry> {
    (if settings.database then [Registered(ClosePool)] else []) + [StepEntry(InitCache, world)]
    + if world.step(InitCache).None? && settings.redis then [Registered(CloseRedis)] else []
  }

  function CriticalJournal(world: World): seq<Entry> {
    if world.step(Connect).Some? then [Failed(Connect)]
    else [Did(Connect)] + [Registered(Disconnect)] + StepsJournal(TABLE_STEPS, world)
  }

  /** An optional database that fails is disconnected at once, if it was connected. */
  function DatabaseJournal(settings: Settings, world: World): seq<Entry> {
    if !settings.database then []
    else
      CriticalJournal(world)
      + if !settings.postgresRequired && FirstFailure(DATABASE_STEPS, world).Some?
        then Unwound(ConnectionHeld(world)) else []
  }

  function WorkersJournal(settings: Settings, world: World): seq<Entry> {
    var metrics := if settings.observability && settings.metricsEnabled then [StartMetrics] else [];
    var listeners := if settings.redis then [StartListener, StartHeartbeat] else [];
    StepsJournal(metrics + listeners, world)
  }

  function ServicesJournal(settings: Settings, world: World): seq<Entry> {
    (if settings.mcp then [Registered(CloseMcp)] + [StepEntry(InitMcp, world)] else [])
    + if settings.mcp && world.step(InitMcp).Some? then []
      else [Registered(CancelWorkers)] + WorkersJournal(settings, world)
  }

  function FlagsJournal(settings: Settings, world: World): seq<Entry> {
    [StepEntry(InitFlags, world)] + if world.step(InitFlags).None? then ServicesJournal(settings, world) else []
  }

  function StartupJournal(settings: Settings, world: World): seq<Entry> {
    StoresJournal(settings, world)
    + if world.step(InitCache).Some? then []
      else
        DatabaseJournal(settings, world)
        + if DatabaseTolerated(settings, world) then FlagsJournal(settings, world) else []
  }

  /** All that happens before the stack is left. */
  function LifeJournal(settings: Settings, world: World): seq<Entry> {
    StartupJournal(settings, world) + if Starts(settings, world) then [StepEntry(Serve, world)] else []
  }

  /** The failure that ends startup: that of the first step that fails and is not tolerated. */
  function StartupFailure(settings: Settings, world: World): Option<Failure> {
    if world.step(InitCache).Some? then world.step(InitCache)
    else if !DatabaseTolerated(settings, world) then
      if settings.postgresRequired then FirstFailure(DATABASE_STEPS, world) else AttemptFailure(world)
    else if world.step(InitFlags).Some? then world.step(InitFlags)
    else if settings.mcp && world.step(InitMcp).Some? then world.step(InitMcp)
    else WorkersFailure(settings, world)
  }

  function WorkersFailure(settings: Settings, world: World): Option<Failure> {
    if settings.observability && settings.metricsEnabled && world.step(StartMetrics).Some? then
      world.step(StartMetrics)
    else if settings.redis then FirstFailure([StartListener, StartHeartbeat], world)
    else None
  }

  /** The failure with which the application's own part ends, before the stack is left. */
  function LifeFailure(settings: Settings, world: World): Option<Failure> {
    if Starts(settings, world) then world.step(Serve) else StartupFailure(settings, world)
  }

  lemma NoStep(world: World)
    ensures StepsJournal([], world) == [] && FirstFailure([], world) == None
  {
  }

  lemma NextStep(steps: seq<Step>, i: nat, world: World)
    requires i < |steps|
    ensures var ok := world.step(steps[i]).None?;
            && StepsJournal(steps[i..], world) ==
                 (if ok then [StepEntry(steps[i], world)] + StepsJournal(steps[i + 1..], world)
                  else [StepEntry(steps[i], world)])
            && FirstFailure(steps[i..], world) ==
                 (if ok then FirstFailure(steps[i + 1..], world) else world.step(steps[i]))
            && steps[|steps|..] == []
  {
    assert steps[i..][1..] == steps[i + 1..];
  }

  lemma TwoSteps(a: Step, b: Step, world: World)
    ensures StepsJournal([a, b], world) ==
            if world.step(a).None? then [StepEntry(a, world)] + [StepEntry(b, world)] else [StepEntry(a, world)]
    ensures FirstFailure([a, b], world) == if world.step(a).None? then world.step(b) else world.step(a)
  {
    assert [a, b][0..] == [a, b] && [a, b][1..] == [b];
    NextStep([a, b], 0, world);
    NextStep([a, b], 1, world);
    NoStep(world);
    assert [StepEntry(b, world)] + [] == [StepEntry(b, world)];
  }

  lemma WorkersInOrder(settings: Settings, world: World)
    ensures var metrics := settings.observability && settings.metricsEnabled;
            var listeners := if settings.redis then StepsJournal([StartListener, StartHeartbeat], world) else [];
            WorkersJournal(settings, world) ==
            if !metrics then listeners
            else if world.step(StartMetrics).None? then [StepEntry(StartMetrics, world)] + listeners
            else [StepEntry(StartMetrics, world)]
    ensures WorkersFailure(settings, world).None? <==> WorkersStart(settings, world)
  {
    TwoSteps(StartListener, StartHeartbeat, world);
    NoStep(world);
    var listeners := if settings.redis then [StartListener, StartHeartbeat] else [];
    var steps := [StartMetrics] + listeners;
    assert steps[0..] == steps && steps[1..] == listeners && [] + listeners == listeners;
    NextStep(steps, 0, world);
  }

  lemma WeakenLevel(journal: seq<Entry>, held: seq<Release>, level: nat, level': nat)
    requires Orderly(journal, held, level) && level <= level'
    ensures Orderly(journal, held, level')
  {
  }

  // ---------------------------------------------------------------- the program

  class ExitStack {
    var held: seq<Held>

    constructor ()
      ensures held == []
    {
      held := [];
    }

    method Push(entry: Held)
      modifies this
      ensures held == old(held) + [entry]
      ensures Flatten(held) == old(Flatten(held)) + FlattenOne(entry)
    {
      assert (held + [entry])[..|held|] == held;
      held := held + [entry];
    }

    /** Hands over all that is held. */
    method PopAll() returns (all: seq<Held>)
      modifies this
      ensures all == old(held) && held == []
    {
      all, held := held, [];
    }

    /** Moves all that is held onto another stack, to be released there. */
    method HandOver(other: ExitStack)
      requires other != this
      modifies this, other
      ensures held == []
      ensures Flatten(other.held) == old(Flatten(other.held)) + old(Flatten(held))
    {
      var all := PopAll();
      other.Push(Stack(all));
    }
  }

  /** The failure that surfaces when releases run on top of a pending failure: the latest one. */
  function Surfacing(pending: Option<Failure>, releases: seq<Release>, world: World): Option<Failure>
    decreases |releases|
  {
    if releases == [] then pending
    else
      var n := |releases| - 1;
      Surfacing(if world.release(releases[n]).Some? then world.release(releases[n]) else pending, releases[..n], world)
  }

  lemma {:induction false} SurfacingJoins(pending: Option<Failure>, a: seq<Release>, b: seq<Release>, world: World)
    ensures Surfacing(pending, a + b, world) == Surfacing(Surfacing(pending, b, world), a, world)
    decreases |b|
  {
    if b == [] {
      assert a + b == a;
    } else {
      var n := |b| - 1;
      assert (a + b)[..|a + b| - 1] == a + b[..n];
      SurfacingJoins(if world.release(b[n]).Some? then world.release(b[n]) else pending, a, b[..n], world);
    }
  }

  class Application {
    var journal: seq<Entry>
    var tasks: seq<Worker>
    var cancelled: seq<Worker>
    var databaseAvailable: bool

    constructor ()
      ensures journal == [] && tasks == [] && cancelled == [] && !databaseAvailable
    {
      journal, tasks, cancelled, databaseAvailable := [], [], [], false;
    }

    method Perform(step: Step, world: World) returns (raised: Option<Failure>)
      modifies this`journal
      ensures raised == world.step(step)
      ensures journal == old(journal) + [StepEntry(step, world)]
    {
      raised := world.step(step);
      journal := journal + [if raised.None? then Did(step) else Failed(step)];
    }

    method Register(stack: ExitStack, release: Release)
      modifies this`journal, stack
      ensures journal == old(journal) + [Registered(release)]
      ensures stack.held == old(stack.held) + [Callback(release)]
      ensures Flatten(stack.held) == old(Flatten(stack.held)) + [release]
    {
      journal := journal + [Registered(release)];
      stack.Push(Callback(release));
    }

    method RunRelease(release: Release, pending: Option<Failure>, world: World) returns (raised: Option<Failure>)
      modifies this`journal, this`cancelled
      ensures journal == old(journal) + [Released(release)]
      ensures cancelled == if release == CancelWorkers then tasks else old(cancelled)
      ensures raised == if world.release(release).Some? then world.release(release) else pending
    {
      journal := journal + [Released(release)];
      if release == CancelWorkers {
        cancelled := tasks;
      }
      raised := if world.release(release).Some? then world.release(release) else pending;
    }

    /** Runs all releases that are held, latest first, even if some of them fail. */
    method Unwind(held: seq<Held>, pending: Option<Failure>, world: World) returns (raised: Option<Failure>)
      modifies this`journal, this`cancelled
      ensures journal == old(journal) + Unwound(Flatten(held))
      ensures cancelled == if CancelWorkers in Flatten(held) then tasks else old(cancelled)
      ensures raised == Surfacing(pending, Flatten(held), world)
      decreases held
    {
      if held == [] { return pending; }
      var n := |held| - 1;
      UnwindSplits(held, pending, world);
      raised := UnwindOne(held[n], pending, world);
      raised := Unwind(held[..n], raised, world);
      Regroup(old(journal), Unwound(FlattenOne(held[n])), Unwound(Flatten(held[..n])));
    }

    method UnwindOne(entry: Held, pending: Option<Failure>, world: World) returns (raised: Option<Failure>)
      modifies this`journal, this`cancelled
      ensures journal == old(journal) + Unwound(FlattenOne(entry))
      ensures cancelled == if CancelWorkers in FlattenOne(entry) then tasks else old(cancelled)
      ensures raised == Surfacing(pending, FlattenOne(entry), world)
      decreases entry
    {
      match entry {
        case Callback(release) =>
          UnwoundOne(release);
          SurfacingOne(pending, release, world);
          raised := RunRelease(release, pending, world);
        case Stack(inner) =>
          raised := Unwind(inner, pending, world);
      }
    }

    method PerformInOrder(step: Step, world: World, ghost held: seq<Release>, ghost level: nat)
      returns (raised: Option<Failure>)
      requires Orderly(journal, held, level) && !step.Connect?
      requires step.InitMcp? ==> Registered(CloseMcp) in journal
      modifies this`journal
      ensures Orderly(journal, held, level)
      ensures raised == world.step(step)
      ensures journal == old(journal) + [StepEntry(step, world)]
    {
      StepKeepsOrder(journal, held, level, StepEntry(step, world));
      raised := Perform(step, world);
    }

    method RegisterInOrder(stack: ExitStack, release: Release)
      requires Orderly(journal, Flatten(stack.held), Rank(release)) && release != Disconnect
      modifies this`journal, stack
      ensures Orderly(journal, Flatten(stack.held), Rank(release) + 1)
      ensures Flatten(stack.held) == old(Flatten(stack.held)) + [release]
      ensures journal == old(journal) + [Registered(release)]
    {
      RegisterKeepsOrder(journal, Flatten(stack.held), Rank(release), release);
      Register(stack, release);
    }

    /** Steps in a row, up to the first that fails. */
    method PerformAll(steps: seq<Step>, world: World, ghost held: seq<Release>, ghost level: nat)
      returns (raised: Option<Failure>)
      requires Orderly(journal, held, level)
      requires forall i :: 0 <= i < |steps| ==> !steps[i].Connect? && !steps[i].InitMcp?
      modifies this`journal
      ensures Orderly(journal, held, level)
      ensures raised == FirstFailure(steps, world)
      ensures journal == old(journal) + StepsJournal(steps, world)
    {
      hide Orderly, StepsJournal, FirstFailure;
      assert steps[0..] == steps;
      var i := 0;
      while i < |steps|
        invariant 0 <= i <= |steps|
        invariant Orderly(journal, held, level)
        invariant FirstFailure(steps, world) == FirstFailure(steps[i..], world)
        invariant old(journal) + StepsJournal(steps, world) == journal + StepsJournal(steps[i..], world)
      {
        NextStep(steps, i, world);
        Regroup(journal, [StepEntry(steps[i], world)], StepsJournal(steps[i + 1..], world));
        raised := PerformInOrder(steps[i], world, held, level);
        if raised.Some? { return; }
        i := i + 1;
      }
      assert steps[i..] == [];
      NoStep(world);
      assert journal + [] == journal;
      raised := None;
    }

    /** Connects and, only then, registers the disconnect. `base` is what other stacks hold below this one. */
    method ConnectDatabase(stack: ExitStack, world: World, ghost base: seq<Release>) returns (raised: Option<Failure>)
      requires Orderly(journal, base + Flatten(stack.held), Rank(Disconnect))
      modifies this`journal, stack
      ensures Orderly(journal, base + Flatten(stack.held), Rank(Disconnect) + 1)
      ensures raised == world.step(Connect)
      ensures Flatten(stack.held) == old(Flatten(stack.held)) + ConnectionHeld(world)
      ensures journal == old(journal) + if raised.Some? then [Failed(Connect)]
                                        else [Did(Connect)] + [Registered(Disconnect)]
    {
      hide Orderly, Flatten;
      ghost var before, held := journal, base + Flatten(stack.held);
      raised := Perform(Connect, world);
      if raised.Some? {
        StepKeepsOrder(before, held, Rank(Disconnect), Failed(Connect));
        WeakenLevel(journal, held, Rank(Disconnect), Rank(Disconnect) + 1);
        return;
      }
      Register(stack, Disconnect);
      ConnectKeepsOrder(before, held, Rank(Disconnect));
      Regroup(base, old(Flatten(stack.held)), [Disconnect]);
    }

    /** On failure the stack keeps what was registered. */
    method StartCriticalDatabase(stack: ExitStack, world: World, ghost base: seq<Release>)
      returns (raised: Option<Failure>)
      requires Orderly(journal, base + Flatten(stack.held), Rank(Disconnect))
      modifies this`journal, stack
      ensures Orderly(journal, base + Flatten(stack.held), Rank(Disconnect) + 1)
      ensures raised == FirstFailure(DATABASE_STEPS, world)
      ensures Flatten(stack.held) == old(Flatten(stack.held)) + ConnectionHeld(world)
      ensures journal == old(journal) + CriticalJournal(world)
    {
      hide Orderly, Flatten;
      assert DATABASE_STEPS[0] == Connect && DATABASE_STEPS[1..] == TABLE_STEPS;
      raised := ConnectDatabase(stack, world, base);
      if raised.None? {
        Regroup(old(journal), [Did(Connect)] + [Registered(Disconnect)], StepsJournal(TABLE_STEPS, world));
        raised := PerformAll(TABLE_STEPS, world, base + Flatten(stack.held), Rank(Disconnect) + 1);
      }
    }

    /** Unwinds what lies above `below`. */
    method UnwindAbove(held: seq<Held>, pending: Option<Failure>, world: World, ghost below: seq<Release>,
                       ghost level: nat)
      returns (raised: Option<Failure>)
      requires Orderly(journal, below + Flatten(held), level)
      modifies this`journal, this`cancelled
      ensures Orderly(journal, below, level)
      ensures cancelled == if CancelWorkers in Flatten(held) then tasks else old(cancelled)
      ensures raised == Surfacing(pending, Flatten(held), world)
      ensures journal == old(journal) + Unwound(Flatten(held))
    {
      UnwindKeepsOrder(journal, below, Flatten(held), level);
      raised := Unwind(held, pending, world);
    }

    /** An optional database starts on a stack of its own, which is handed over only on success: a failure
        leaves the application's stack as it was. */
    method TryDatabase(resources: ExitStack, world: World) returns (raised: Option<Failure>)
      requires Orderly(journal, Flatten(resources.held), Rank(Disconnect))
      modifies this`journal, this`cancelled, resources
      ensures Orderly(journal, Flatten(resources.held), Rank(Disconnect) + 1)
      ensures cancelled == old(cancelled)
      ensures raised == AttemptFailure(world) || FirstFailure(DATABASE_STEPS, world).None?
      ensures raised.None? <==> FirstFailure(DATABASE_STEPS, world).None?
      ensures raised.None? ==> Flatten(resources.held) == old(Flatten(resources.held)) + [Disconnect]
      ensures raised.Some? ==> resources.held == old(resources.held)
      ensures var undone := if raised.Some? then Unwound(ConnectionHeld(world)) else [];
              journal == old(journal) + (CriticalJournal(world) + undone)
    {
      hide Orderly, Flatten;
      ghost var below := Flatten(resources.held);
      AttemptFacts(world);
      var attempt := new ExitStack();
      NothingAbove(below);
      raised := StartCriticalDatabase(attempt, world, below);
      NothingBelow(ConnectionHeld(world));
      if raised.None? {
        attempt.HandOver(resources);
      } else {
        Regroup(old(journal), CriticalJournal(world), Unwound(ConnectionHeld(world)));
        raised := UnwindAbove(attempt.held, raised, world, below, Rank(Disconnect) + 1);
      }
    }

    method RequireDatabase(resources: ExitStack, world: World) returns (raised: Option<Failure>)
      requires Orderly(journal, Flatten(resources.held), Rank(Disconnect))
      modifies this`journal, resources
      ensures Orderly(journal, Flatten(resources.held), Rank(Disconnect) + 1)
      ensures raised == FirstFailure(DATABASE_STEPS, world)
      ensures raised.None? ==> Flatten(resources.held) == old(Flatten(resources.held)) + [Disconnect]
      ensures journal == old(journal) + CriticalJournal(world)
    {
      hide Orderly, Flatten;
      AttemptFacts(world);
      NothingBelow(Flatten(resources.held));
      raised := StartCriticalDatabase(resources, world, []);
      NothingBelow(Flatten(resources.held));
    }

    /** A required database aborts startup on failure; an optional one only if its failure cannot be caught. */
    method StartDatabase(resources: ExitStack, required: bool, world: World)
      returns (available: bool, raised: Option<Failure>)
      requires Orderly(journal, Flatten(resources.held), Rank(Disconnect))
      modifies this`journal, this`cancelled, resources
      ensures Orderly(journal, Flatten(resources.held), Rank(Disconnect) + 1)
      ensures cancelled == old(cancelled)
      ensures available <==> FirstFailure(DATABASE_STEPS, world).None?
      ensures available ==> Flatten(resources.held) == old(Flatten(resources.held)) + [Disconnect]
      ensures !available && !required ==> resources.held == old(resources.held)
      ensures raised.None? <==> available || (!required && AttemptFailure(world) == Some(Ordinary))
      ensures var undone := if !available && !required then Unwound(ConnectionHeld(world)) else [];
              journal == old(journal) + (CriticalJournal(world) + undone)
      ensures !available ==> raised == if required then FirstFailure(DATABASE_STEPS, world)
                                 else if AttemptFailure(world) == Some(Ordinary) then None else AttemptFailure(world)
    {
      hide Orderly, Flatten, Surfacing, FirstFailure;
      if required {
        raised := RequireDatabase(resources, world);
        available := raised.None?;
      } else {
        raised := TryDatabase(resources, world);
        available := raised.None?;
        if raised == Some(Ordinary) {
          raised := None;
        }
      }
    }

    method StartTask(step: Step, worker: Worker, world: World, ghost held: seq<Release>)
      returns (raised: Option<Failure>)
      requires Orderly(journal, held, Rank(CancelWorkers) + 1) && !step.Connect? && !step.InitMcp?
      modifies this`journal, this`tasks
      ensures Orderly(journal, held, Rank(CancelWorkers) + 1)
      ensures raised == world.step(step)
      ensures tasks == old(tasks) + if raised.None? then [worker] else []
      ensures journal == old(journal) + [StepEntry(step, world)]
    {
      hide Orderly, Flatten;
      raised := PerformInOrder(step, world, held, Rank(CancelWorkers) + 1);
      if raised.None? {
        tasks := tasks + [worker];
      }
    }

    /** Starts the workers of the enabled subsystems; each one started is tracked. */
    method StartWorkers(settings: Settings, world: World, ghost held: seq<Release>) returns (raised: Option<Failure>)
      requires Orderly(journal, held, Rank(CancelWorkers) + 1)
      modifies this`journal, this`tasks
      ensures Orderly(journal, held, Rank(CancelWorkers) + 1)
      ensures raised.None? <==> WorkersStart(settings, world)
      ensures raised.None? ==> tasks == old(tasks) + SelectedWorkers(settings)
      ensures journal == old(journal) + WorkersJournal(settings, world)
      ensures raised == WorkersFailure(settings, world)
    {
      hide Orderly, WorkersJournal, StepsJournal, FirstFailure;
      WorkersInOrder(settings, world);
      raised := None;
      if settings.observability && settings.metricsEnabled {
        raised := StartTask(StartMetrics, SystemMetrics, world, held);
        Regroup(old(journal), [StepEntry(StartMetrics, world)], StepsJournal([StartListener, StartHeartbeat], world));
        assert journal + [] == journal;
        assert [StepEntry(StartMetrics, world)] + [] == [StepEntry(StartMetrics, world)];
      } else {
        assert journal + [] == journal;
      }
      if raised.None? && settings.redis {
        raised := StartListeners(world, held);
      }
    }

    method StartListeners(world: World, ghost held: seq<Release>) returns (raised: Option<Failure>)
      requires Orderly(journal, held, Rank(CancelWorkers) + 1)
      modifies this`journal, this`tasks
      ensures Orderly(journal, held, Rank(CancelWorkers) + 1)
      ensures raised == FirstFailure([StartListener, StartHeartbeat], world)
      ensures raised.None? ==> tasks == old(tasks) + [EventListener, Heartbeat]
      ensures journal == old(journal) + StepsJournal([StartListener, StartHeartbeat], world)
    {
      hide Orderly, StepsJournal, FirstFailure;
      TwoSteps(StartListener, StartHeartbeat, world);
      raised := StartTask(StartListener, EventListener, world, held);
      if raised.None? {
        raised := StartTask(StartHeartbeat, Heartbeat, world, held);
        Regroup(old(journal), [StepEntry(StartListener, world)], [StepEntry(StartHeartbeat, world)]);
      }
    }

    /** MCP: the closing is registered before the clients are set up. */
    method StartMcp(resources: ExitStack, world: World) returns (raised: Option<Failure>)
      requires Orderly(journal, Flatten(resources.held), Rank(CloseMcp))
      modifies this`journal, resources
      ensures Orderly(journal, Flatten(resources.held), Rank(CloseMcp) + 1)
      ensures raised == world.step(InitMcp)
      ensures Flatten(resources.held) == old(Flatten(resources.held)) + [CloseMcp]
      ensures journal == old(journal) + ([Registered(CloseMcp)] + [StepEntry(InitMcp, world)])
    {
      hide Orderly, Flatten;
      RegisterInOrder(resources, CloseMcp);
      Regroup(old(journal), [Registered(CloseMcp)], [StepEntry(InitMcp, world)]);
      raised := PerformInOrder(InitMcp, world, Flatten(resources.held), Rank(CloseMcp) + 1);
    }

    method RegisterIf(enabled: bool, stack: ExitStack, release: Release)
      requires Orderly(journal, Flatten(stack.held), Rank(release)) && release != Disconnect
      modifies this`journal, stack
      ensures Orderly(journal, Flatten(stack.held), Rank(release) + 1)
      ensures Flatten(stack.held) == old(Flatten(stack.held)) + if enabled then [release] else []
      ensures journal == old(journal) + if enabled then [Registered(release)] else []
    {
      hide Orderly, Flatten;
      if enabled {
        RegisterInOrder(stack, release);
      } else {
        WeakenLevel(journal, Flatten(stack.held), Rank(release), Rank(release) + 1);
      }
    }

    /** The pool, the response cache and Redis. */
    method StartStores(settings: Settings, resources: ExitStack, world: World) returns (raised: Option<Failure>)
      requires Orderly(journal, Flatten(resources.held), Rank(ClosePool)) && CancelWorkers !in Flatten(resources.held)
      modifies this`journal, resources
      ensures Orderly(journal, Flatten(resources.held), Rank(Disconnect))
      ensures raised == world.step(InitCache)
      ensures CancelWorkers !in Flatten(resources.held)
      ensures journal == old(journal) + StoresJournal(settings, world)
    {
      hide Orderly, Flatten;
      RegisterIf(settings.database, resources, ClosePool);
      raised := PerformInOrder(InitCache, world, Flatten(resources.held), Rank(CloseRedis));
      RegisterIf(raised.None? && settings.redis, resources, CloseRedis);
    }

    method StartDatabaseIfSelected(settings: Settings, resources: ExitStack, world: World)
      returns (raised: Option<Failure>)
      requires Orderly(journal, Flatten(resources.held), Rank(Disconnect))
      modifies this`journal, this`cancelled, this`databaseAvailable, resources
      ensures Orderly(journal, Flatten(resources.held), Rank(CloseMcp))
      ensures raised.None? <==> DatabaseTolerated(settings, world)
      ensures cancelled == old(cancelled)
      ensures databaseAvailable <==> settings.database && FirstFailure(DATABASE_STEPS, world).None?
      ensures databaseAvailable ==> Disconnect in Flatten(resources.held)
      ensures journal == old(journal) + DatabaseJournal(settings, world)
      ensures raised.Some? ==> raised == if settings.postgresRequired then FirstFailure(DATABASE_STEPS, world)
                                    else AttemptFailure(world)
    {
      hide Orderly, Flatten, Surfacing, FirstFailure;
      databaseAvailable := false;
      if settings.database {
        databaseAvailable, raised := StartDatabase(resources, settings.postgresRequired, world);
      } else {
        WeakenLevel(journal, Flatten(resources.held), Rank(Disconnect), Rank(CloseMcp));
        raised := None;
      }
    }

    /** MCP and the background workers. */
    method StartServices(settings: Settings, resources: ExitStack, world: World) returns (raised: Option<Failure>)
      requires Orderly(journal, Flatten(resources.held), Rank(CloseMcp)) && tasks == []
      modifies this`journal, this`tasks, resources
      ensures Orderly(journal, Flatten(resources.held), Rank(CancelWorkers) + 1)
      ensures raised.None? <==>
                (settings.mcp ==> world.step(InitMcp).None?) && WorkersStart(settings, world)
      ensures tasks != [] ==> CancelWorkers in Flatten(resources.held)
      ensures raised.None? ==> tasks == SelectedWorkers(settings)
      ensures forall r :: r in old(Flatten(resources.held)) ==> r in Flatten(resources.held)
      ensures journal == old(journal) + ServicesJournal(settings, world)
      ensures raised == if settings.mcp && world.step(InitMcp).Some? then world.step(InitMcp)
                        else WorkersFailure(settings, world)
    {
      hide Orderly, Flatten;
      if settings.mcp {
        raised := StartMcp(resources, world);
        if raised.Some? {
          WeakenLevel(journal, Flatten(resources.held), Rank(CancelWorkers), Rank(CancelWorkers) + 1);
          return;
        }
      } else {
        WeakenLevel(journal, Flatten(resources.held), Rank(CloseMcp), Rank(CancelWorkers));
      }
      tasks := [];
      RegisterInOrder(resources, CancelWorkers);
      raised := StartWorkers(settings, world, Flatten(resources.held));
    }

    /** The feature flags, and the services if they succeed. */
    method StartFlagged(settings: Settings, resources: ExitStack, world: World) returns (raised: Option<Failure>)
      requires Orderly(journal, Flatten(resources.held), Rank(CloseMcp)) && tasks == []
      modifies this`journal, this`tasks, resources
      ensures Orderly(journal, Flatten(resources.held), Rank(CancelWorkers) + 1)
      ensures raised == if world.step(InitFlags).Some? then world.step(InitFlags)
                        else if settings.mcp && world.step(InitMcp).Some? then world.step(InitMcp)
                        else WorkersFailure(settings, world)
      ensures raised.None? <==> world.step(InitFlags).None? && (settings.mcp ==> world.step(InitMcp).None?) &&
                                WorkersStart(settings, world)
      ensures tasks != [] ==> CancelWorkers in Flatten(resources.held)
      ensures raised.None? ==> tasks == SelectedWorkers(settings)
      ensures forall r :: r in old(Flatten(resources.held)) ==> r in Flatten(resources.held)
      ensures journal == old(journal) + FlagsJournal(settings, world)
    {
      hide Orderly, Flatten, WorkersFailure, WorkersStart, SelectedWorkers, ServicesJournal;
      raised := PerformInOrder(InitFlags, world, Flatten(resources.held), Rank(CloseMcp));
      if raised.Some? {
        assert [StepEntry(InitFlags, world)] + [] == [StepEntry(InitFlags, world)];
        WeakenLevel(journal, Flatten(resources.held), Rank(CloseMcp), Rank(CancelWorkers) + 1);
        return;
      }
      Regroup(old(journal), [StepEntry(InitFlags, world)], ServicesJournal(settings, world));
      raised := StartServices(settings, resources, world);
    }

    /** The database, and the rest if startup goes on past it. */
    method StartPastStores(settings: Settings, resources: ExitStack, world: World) returns (raised: Option<Failure>)
      requires Orderly(journal, Flatten(resources.held), Rank(Disconnect)) && tasks == []
      modifies this`journal, this`cancelled, this`databaseAvailable, this`tasks, resources
      ensures Orderly(journal, Flatten(resources.held), Rank(CancelWorkers) + 1)
      ensures raised.None? <==> DatabaseTolerated(settings, world) && world.step(InitFlags).None? &&
                                (settings.mcp ==> world.step(InitMcp).None?) && WorkersStart(settings, world)
      ensures world.step(InitCache).None? ==> raised == StartupFailure(settings, world)
      ensures cancelled == old(cancelled) && (tasks != [] ==> CancelWorkers in Flatten(resources.held))
      ensures raised.None? ==> tasks == SelectedWorkers(settings)
      ensures databaseAvailable <==> settings.database && FirstFailure(DATABASE_STEPS, world).None?
      ensures databaseAvailable ==> Disconnect in Flatten(resources.held)
      ensures var flagged := if DatabaseTolerated(settings, world) then FlagsJournal(settings, world) else [];
              journal == old(journal) + (DatabaseJournal(settings, world) + flagged)
    {
      hide Orderly, Flatten, FirstFailure, AttemptFailure, DatabaseTolerated, WorkersStart, WorkersFailure,
           SelectedWorkers, FlagsJournal, DatabaseJournal;
      raised := StartDatabaseIfSelected(settings, resources, world);
      if raised.Some? {
        assert DatabaseJournal(settings, world) + [] == DatabaseJournal(settings, world);
        WeakenLevel(journal, Flatten(resources.held), Rank(CloseMcp), Rank(CancelWorkers) + 1);
        return;
      }
      Regroup(old(journal), DatabaseJournal(settings, world), FlagsJournal(settings, world));
      raised := StartFlagged(settings, resources, world);
    }

    /** All of the startup: on failure it stops where it is, and `resources` holds what has to go. */
    method Startup(settings: Settings, resources: ExitStack, world: World) returns (raised: Option<Failure>)
      requires journal == [] && tasks == [] && cancelled == [] && resources.held == [] && !databaseAvailable
      modifies this, resources
      ensures Orderly(journal, Flatten(resources.held), Rank(CancelWorkers) + 1)
      ensures raised.None? <==> Starts(settings, world)
      ensures cancelled == [] && (tasks != [] ==> CancelWorkers in Flatten(resources.held))
      ensures raised.None? ==> tasks == SelectedWorkers(settings)
      ensures raised.None? ==> (databaseAvailable <==> settings.database && FirstFailure(DATABASE_STEPS, world).None?)
      ensures databaseAvailable ==> Disconnect in Flatten(resources.held)
      ensures journal == StartupJournal(settings, world) && raised == StartupFailure(settings, world)
    {
      hide Orderly, Flatten, FirstFailure, DatabaseTolerated, WorkersStart, WorkersFailure, SelectedWorkers,
           FlagsJournal, DatabaseJournal, StoresJournal;
      NothingYet();
      raised := StartStores(settings, resources, world);
      assert [] + StoresJournal(settings, world) == StoresJournal(settings, world);
      if raised.Some? {
        assert journal + [] == journal;
        WeakenLevel(journal, Flatten(resources.held), Rank(Disconnect), Rank(CancelWorkers) + 1);
        return;
      }
      raised := StartPastStores(settings, resources, world);
    }

    /** Starts up and, if that succeeds, serves until stopped or interrupted. */
    method StartAndServe(settings: Settings, resources: ExitStack, world: World)
      returns (served: bool, raised: Option<Failure>)
      requires journal == [] && tasks == [] && cancelled == [] && resources.held == [] && !databaseAvailable
      modifies this, resources
      ensures Orderly(journal, Flatten(resources.held), Rank(CancelWorkers) + 1)
      ensures served <==> Starts(settings, world)
      ensures cancelled == [] && (tasks != [] ==> CancelWorkers in Flatten(resources.held))
      ensures served ==> tasks == SelectedWorkers(settings)
      ensures served ==> (databaseAvailable <==> settings.database && FirstFailure(DATABASE_STEPS, world).None?)
      ensures !served ==> raised.Some?
      ensures journal == LifeJournal(settings, world) && raised == LifeFailure(settings, world)
    {
      hide Orderly, Flatten, Surfacing, FirstFailure;
      raised := Startup(settings, resources, world);
      served := raised.None?;
      if served {
        raised := PerformInOrder(Serve, world, Flatten(resources.held), Rank(CancelWorkers) + 1);
      }
    }

    /** Leaves the application's stack: nothing stays held. */
    method Shutdown(resources: ExitStack, pending: Option<Failure>, world: World) returns (raised: Option<Failure>)
      requires Orderly(journal, Flatten(resources.held), Rank(CancelWorkers) + 1)
      modifies this`journal, this`cancelled
      ensures Orderly(journal, [], Rank(CancelWorkers) + 1)
      ensures cancelled == if CancelWorkers in Flatten(resources.held) then tasks else old(cancelled)
      ensures pending.Some? ==> raised.Some?
      ensures journal == old(journal) + Unwound(Flatten(resources.held))
      ensures raised == Surfacing(pending, Flatten(resources.held), world)
    {
      hide Orderly, Flatten;
      NothingBelow(Flatten(resources.held));
      SurfacingStays(pending, Flatten(resources.held), world);
      raised := UnwindAbove(resources.held, pending, world, [], Rank(CancelWorkers) + 1);
    }

    /** The whole life of the application: it serves exactly when startup succeeds, and however it ends,
        nothing stays held, every worker that was started is cancelled, and the journal is orderly. */
    method Run(settings: Settings, world: World) returns (served: bool, raised: Option<Failure>)
      requires journal == [] && tasks == [] && cancelled == [] && !databaseAvailable
      modifies this
      ensures Orderly(journal, [], Rank(CancelWorkers) + 1)
      ensures cancelled == tasks
      ensures served <==> Starts(settings, world)
      ensures served ==> tasks == SelectedWorkers(settings)
      ensures served ==> (databaseAvailable <==> settings.database && FirstFailure(DATABASE_STEPS, world).None?)
      ensures !served ==> raised.Some?
      ensures var life := LifeJournal(settings, world);
              && Replay(life).Some? && journal == life + Unwound(Replay(life).value)
              && raised == Surfacing(LifeFailure(settings, world), Replay(life).value, world)
    {
      hide Orderly, Flatten, Surfacing, FirstFailure;
      var resources := new ExitStack();
      served, raised := StartAndServe(settings, resources, world);
      OrderlyReplays(journal, Flatten(resources.held), Rank(CancelWorkers) + 1);
      raised := Shutdown(resources, raised, world);
    }
  }

  /** A pending failure never gets lost in the releases. */
  lemma {:induction false} SurfacingStays(pending: Option<Failure>, releases: seq<Release>, world: World)
    ensures pending.Some? ==> Surfacing(pending, releases, world).Some?
    decreases |releases|
  {
    if releases != [] {
      var n := |releases| - 1;
      SurfacingStays(if world.release(releases[n]).Some? then world.release(releases[n]) else pending, releases[..n],
                     world);
    }
  }

  lemma OrderlyReplays(journal: seq<Entry>, held: seq<Release>, level: nat)
    requires Orderly(journal, held, level)
    ensures Replay(journal) == Some(held)
  {
  }

  lemma NothingYet()
    ensures Orderly([], Flatten([]), Rank(ClosePool)) && Flatten([]) == []
  {
  }

  lemma AttemptFacts(world: World)
    ensures FirstFailure(DATABASE_STEPS, world).Some? ==> AttemptFailure(world).Some?
    ensures FirstFailure(DATABASE_STEPS, world).None? ==> ConnectionHeld(world) == [Disconnect]
    ensures CancelWorkers !in ConnectionHeld(world)
  {
    SurfacingStays(FirstFailure(DATABASE_STEPS, world), ConnectionHeld(world), world);
  }

  lemma NothingAbove(below: seq<Release>)
    ensures below + Flatten([]) == below
  {
  }

  lemma NothingBelow(above: seq<Release>)
    ensures [] + above == above && Flatten([]) + above == above
  {
  }

  lemma UnwindSplits(held: seq<Held>, pending: Option<Failure>, world: World)
    requires held != []
    ensures var init, last := Flatten(held[..|held| - 1]), FlattenOne(held[|held| - 1]);
            && Unwound(Flatten(held)) == Unwound(last) + Unwound(init)
            && Surfacing(pending, Flatten(held), world) == Surfacing(Surfacing(pending, last, world), init, world)
            && (CancelWorkers in Flatten(held) <==> CancelWorkers in last || CancelWorkers in init)
  {
    var init, last := Flatten(held[..|held| - 1]), FlattenOne(held[|held| - 1]);
    UnwoundJoins(init, last);
    SurfacingJoins(pending, init, last, world);
  }

  lemma UnwoundOne(release: Release)
    ensures Unwound([release]) == [Released(release)]
  {
    assert [release][..0] == [];
  }

  lemma SurfacingOne(pending: Option<Failure>, release: Release, world: World)
    ensures Surfacing(pending, [release], world) ==
            if world.release(release).Some? then world.release(release) else pending
  {
    assert [release][..0] == [];
  }
}
