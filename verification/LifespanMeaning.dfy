/** What the life of the application does and releases, from its settings and from which steps fail alone
    (nabla/lifespan.py). */
module LifespanMeaning {
  import opened ExitStacks
  import opened Lifespan
  import opened Wrappers

  /** The step was reached, whether or not it succeeded. */
  predicate Tries(journal: seq<Entry>, step: Step) {
    Did(step) in journal || Failed(step) in journal
  }

  predicate Works(world: World, step: Step) {
    world.step(step).None?
  }

  /** The database is set up by connecting, then by four kinds of tables in turn. */
  predicate DatabaseWorks(world: World) {
    && Works(world, Connect) && Works(world, InitSchema) && Works(world, InitNotes) && Works(world, InitUsers)
    && Works(world, InitSensors)
  }

  /** What surfaces of an optional database that fails: the failure of the disconnect if there is one, else that of
      the first step that fails. */
  function OptionalFailure(world: World): Option<Failure> {
    if !Works(world, Connect) then world.step(Connect)
    else if world.release(Disconnect).Some? then world.release(Disconnect)
    else if !Works(world, InitSchema) then world.step(InitSchema)
    else if !Works(world, InitNotes) then world.step(InitNotes)
    else if !Works(world, InitUsers) then world.step(InitUsers)
    else world.step(InitSensors)
  }

  /** Startup gets past the database if it is not selected or works, or if it is optional and what surfaces is an
      ordinary exception. */
  predicate PastDatabase(settings: Settings, world: World) {
    || !settings.database || DatabaseWorks(world)
    || (!settings.postgresRequired && OptionalFailure(world) == Some(Ordinary))
  }

  predicate ReachesServices(settings: Settings, world: World) {
    Works(world, InitCache) && PastDatabase(settings, world) && Works(world, InitFlags)
  }

  predicate ReachesWorkers(settings: Settings, world: World) {
    ReachesServices(settings, world) && (settings.mcp ==> Works(world, InitMcp))
  }

  /** What the settings and the steps say must be released. */
  predicate MustRelease(settings: Settings, world: World, release: Release) {
    match release
    case ClosePool => settings.database
    case CloseRedis => settings.redis && Works(world, InitCache)
    case Disconnect => settings.database && Works(world, InitCache) && Works(world, Connect)
    case CloseMcp => settings.mcp && ReachesServices(settings, world)
    case CancelWorkers => ReachesWorkers(settings, world)
  }

  predicate Connected(settings: Settings, world: World) {
    settings.database && Works(world, InitCache) && Works(world, Connect)
  }

  predicate PastMetrics(settings: Settings, world: World) {
    && ReachesWorkers(settings, world)
    && (settings.observability && settings.metricsEnabled ==> Works(world, StartMetrics))
  }

  /** Which steps are reached: each follows, within its subsystem, the success of the one before. */
  predicate MustTry(settings: Settings, world: World, step: Step) {
    match step
    case InitCache => true
    case Connect => settings.database && Works(world, InitCache)
    case InitSchema => Connected(settings, world)
    case InitNotes => Connected(settings, world) && Works(world, InitSchema)
    case InitUsers => Connected(settings, world) && Works(world, InitSchema) && Works(world, InitNotes)
    case InitSensors =>
      Connected(settings, world) && Works(world, InitSchema) && Works(world, InitNotes) && Works(world, InitUsers)
    case InitFlags => Works(world, InitCache) && PastDatabase(settings, world)
    case InitMcp => settings.mcp && ReachesServices(settings, world)
    case StartMetrics => ReachesWorkers(settings, world) && settings.observability && settings.metricsEnabled
    case StartListener => PastMetrics(settings, world) && settings.redis
    case StartHeartbeat => PastMetrics(settings, world) && settings.redis && Works(world, StartListener)
    case Serve =>
      && PastMetrics(settings, world)
      && (settings.redis ==> Works(world, StartListener) && Works(world, StartHeartbeat))
  }

  lemma DatabaseSteps(world: World)
    ensures FirstFailure(DATABASE_STEPS, world).None? <==> DatabaseWorks(world)
    ensures !DatabaseWorks(world) ==> AttemptFailure(world) == OptionalFailure(world)
  {
    var steps := TABLE_STEPS;
    assert DATABASE_STEPS[0..] == DATABASE_STEPS && DATABASE_STEPS[1..] == steps && steps[0..] == steps;
    NextStep(DATABASE_STEPS, 0, world);
    NextStep(steps, 0, world);
    NextStep(steps, 1, world);
    NextStep(steps, 2, world);
    NextStep(steps, 3, world);
    NoStep(world);
    SurfacingOne(FirstFailure(DATABASE_STEPS, world), Disconnect, world);
    hide FirstFailure, StepsJournal, Surfacing;
  }

  lemma TableSteps(world: World)
    ensures forall step :: Tries(StepsJournal(TABLE_STEPS, world), step) <==>
              || step == InitSchema
              || (step == InitNotes && Works(world, InitSchema))
              || (step == InitUsers && Works(world, InitSchema) && Works(world, InitNotes))
              || (step == InitSensors && Works(world, InitSchema) && Works(world, InitNotes) && Works(world, InitUsers))
    ensures forall r :: !Registers(StepsJournal(TABLE_STEPS, world), r)
  {
    hide StepsJournal, FirstFailure, Tries, Registers, Truthful;
    var steps := TABLE_STEPS;
    assert steps[0..] == steps;
    StepTries(steps, 0, world);
    StepTries(steps, 1, world);
    StepTries(steps, 2, world);
    StepTries(steps, 3, world);
    NextStep(steps, 3, world);
    NoStep(world);
    Single(Disconnect, Connect, world);
  }

  /** What is tried from one place of a list of steps on. */
  lemma StepTries(steps: seq<Step>, i: nat, world: World)
    requires i < |steps|
    ensures forall step :: Tries(StepsJournal(steps[i..], world), step) <==>
              step == steps[i] || (Works(world, steps[i]) && Tries(StepsJournal(steps[i + 1..], world), step))
    ensures forall r :: Registers(StepsJournal(steps[i..], world), r) ==>
                        Registers(StepsJournal(steps[i + 1..], world), r)
  {
    hide StepsJournal, Tries, Registers, Truthful;
    NextStep(steps, i, world);
    Single(Disconnect, steps[i], world);
    Join([StepEntry(steps[i], world)], StepsJournal(steps[i + 1..], world), world);
  }

  lemma {:induction false} StepsSucceed(steps: seq<Step>, world: World)
    ensures forall step :: Did(step) in StepsJournal(steps, world) ==> Works(world, step)
    ensures forall step :: Failed(step) in StepsJournal(steps, world) ==> !Works(world, step)
    ensures forall e :: e in StepsJournal(steps, world) ==> e.Did? || e.Failed?
  {
    if steps != [] {
      StepsSucceed(steps[1..], world);
    }
  }

  lemma WorkersTried(settings: Settings, world: World)
    requires ReachesWorkers(settings, world)
    ensures forall step :: Tries(WorkersJournal(settings, world), step) <==>
              step in {StartMetrics, StartListener, StartHeartbeat} && MustTry(settings, world, step)
  {
    WorkersInOrder(settings, world);
    TwoSteps(StartListener, StartHeartbeat, world);
  }

  lemma WorkersRegisterNothing(settings: Settings, world: World)
    ensures forall r :: !Registers(WorkersJournal(settings, world), r)
    ensures forall step :: Did(step) in WorkersJournal(settings, world) ==> Works(world, step)
    ensures forall step :: Failed(step) in WorkersJournal(settings, world) ==> !Works(world, step)
  {
    var metrics := if settings.observability && settings.metricsEnabled then [StartMetrics] else [];
    var listeners := if settings.redis then [StartListener, StartHeartbeat] else [];
    StepsSucceed(metrics + listeners, world);
  }

  /** What it did worked, and what it failed at did not. */
  ghost predicate Truthful(journal: seq<Entry>, world: World) {
    && (forall step :: Did(step) in journal ==> Works(world, step))
    && (forall step :: Failed(step) in journal ==> !Works(world, step))
  }

  predicate OfDatabase(step: Step) {
    step.Connect? || step.InitSchema? || step.InitNotes? || step.InitUsers? || step.InitSensors?
  }

  predicate OfServices(step: Step) {
    step.InitMcp? || step.StartMetrics? || step.StartListener? || step.StartHeartbeat?
  }

  ghost predicate Registers(journal: seq<Entry>, release: Release) {
    Registered(release) in journal
  }

  lemma Join(a: seq<Entry>, b: seq<Entry>, world: World)
    ensures forall step :: Tries(a + b, step) <==> Tries(a, step) || Tries(b, step)
    ensures forall r :: Registers(a + b, r) <==> Registers(a, r) || Registers(b, r)
    ensures Truthful(a + b, world) <==> Truthful(a, world) && Truthful(b, world)
  {
    forall step ensures Did(step) in a + b <==> Did(step) in a || Did(step) in b {}
    forall step ensures Failed(step) in a + b <==> Failed(step) in a || Failed(step) in b {}
    if Truthful(a + b, world) {
      forall step | Did(step) in a || Did(step) in b ensures Works(world, step) {
        assert Did(step) in a + b;
      }
      forall step | Failed(step) in a || Failed(step) in b ensures !Works(world, step) {
        assert Failed(step) in a + b;
      }
    }
  }

  lemma Single(release: Release, step: Step, world: World)
    ensures Truthful([], world) && forall s :: !Tries([], s)
    ensures forall r :: !Registers([], r)
    ensures Truthful([Registered(release)], world) && forall s :: !Tries([Registered(release)], s)
    ensures forall r :: Registers([Registered(release)], r) <==> r == release
    ensures Truthful([StepEntry(step, world)], world)
    ensures forall s :: Tries([StepEntry(step, world)], s) <==> s == step
    ensures forall r :: !Registers([StepEntry(step, world)], r)
  {
    var e := StepEntry(step, world);
    assert Tries([e], step) by {
      assert e in [e];
    }
    forall r ensures Registers([Registered(release)], r) <==> r == release {
      assert Registered(r) in [Registered(release)] <==> r == release;
    }
  }

  lemma StoresDo(settings: Settings, world: World)
    ensures var journal := StoresJournal(settings, world);
            && Truthful(journal, world) && (forall step :: Tries(journal, step) <==> step == InitCache)
            && forall r :: Registers(journal, r) <==>
                           (r.ClosePool? || r.CloseRedis?) && MustRelease(settings, world, r)
  {
    var pool := if settings.database then [Registered(ClosePool)] else [];
    var client := if Works(world, InitCache) && settings.redis then [Registered(CloseRedis)] else [];
    Single(ClosePool, InitCache, world);
    Single(CloseRedis, InitCache, world);
    hide Tries, Registers, Truthful;
    Join(pool, [StepEntry(InitCache, world)], world);
    Join(pool + [StepEntry(InitCache, world)], client, world);
  }

  lemma DatabaseDoes(settings: Settings, world: World)
    requires Works(world, InitCache)
    ensures var journal := DatabaseJournal(settings, world);
            && Truthful(journal, world)
            && (forall step :: Tries(journal, step) <==> OfDatabase(step) && MustTry(settings, world, step))
            && forall r :: Registers(journal, r) <==> r.Disconnect? && MustRelease(settings, world, r)
  {
    CriticalDoes(world);
    TableSteps(world);
    DatabaseSteps(world);
    if settings.database {
      var undone := if !settings.postgresRequired && FirstFailure(DATABASE_STEPS, world).Some?
                    then Unwound(ConnectionHeld(world)) else [];
      ReleasesDoNothing(undone, ConnectionHeld(world), world);
      Join(CriticalJournal(world), undone, world);
    } else {
      Single(Disconnect, Connect, world);
    }
    hide Tries, Registers, Truthful, CriticalJournal, Unwound;
  }

  lemma ReleasesDoNothing(journal: seq<Entry>, held: seq<Release>, world: World)
    requires journal == [] || journal == Unwound(held)
    ensures Truthful(journal, world) && (forall step :: !Tries(journal, step)) && forall r :: !Registers(journal, r)
  {
    UnwoundOnlyReleases(held);
  }

  lemma CriticalDoes(world: World)
    ensures var journal := CriticalJournal(world);
            && Truthful(journal, world)
            && (forall step :: Tries(journal, step) <==>
                               step == Connect ||
                               (Works(world, Connect) && Tries(StepsJournal(TABLE_STEPS, world), step)))
            && forall r :: Registers(journal, r) <==> r.Disconnect? && Works(world, Connect)
  {
    TableSteps(world);
    StepsSucceed(TABLE_STEPS, world);
    Single(Disconnect, Connect, world);
    hide Tries, Registers;
    Join([Did(Connect)], [Registered(Disconnect)], world);
    Join([Did(Connect)] + [Registered(Disconnect)], StepsJournal(TABLE_STEPS, world), world);
  }

  lemma ServicesDo(settings: Settings, world: World)
    requires ReachesServices(settings, world)
    ensures var journal := ServicesJournal(settings, world);
            && Truthful(journal, world)
            && (forall step :: Tries(journal, step) <==> OfServices(step) && MustTry(settings, world, step))
            && forall r :: Registers(journal, r) <==>
                           (r.CloseMcp? || r.CancelWorkers?) && MustRelease(settings, world, r)
  {
    var mcp := if settings.mcp then [Registered(CloseMcp)] + [StepEntry(InitMcp, world)] else [];
    var workers := if settings.mcp && !Works(world, InitMcp) then []
                   else [Registered(CancelWorkers)] + WorkersJournal(settings, world);
    WorkersRegisterNothing(settings, world);
    if ReachesWorkers(settings, world) {
      WorkersTried(settings, world);
    }
    Single(CloseMcp, InitMcp, world);
    Single(CancelWorkers, InitMcp, world);
    Join([Registered(CloseMcp)], [StepEntry(InitMcp, world)], world);
    Join([Registered(CancelWorkers)], WorkersJournal(settings, world), world);
    Join(mcp, workers, world);
    hide WorkersJournal, Tries, Registers;
  }

  lemma FlagsDo(settings: Settings, world: World)
    requires Works(world, InitCache) && PastDatabase(settings, world)
    ensures var journal := FlagsJournal(settings, world);
            && Truthful(journal, world)
            && (forall step :: Tries(journal, step) <==>
                               (step.InitFlags? || OfServices(step)) && MustTry(settings, world, step))
            && forall r :: Registers(journal, r) <==>
                           (r.CloseMcp? || r.CancelWorkers?) && MustRelease(settings, world, r)
  {
    var services := if Works(world, InitFlags) then ServicesJournal(settings, world) else [];
    if Works(world, InitFlags) {
      ServicesDo(settings, world);
    }
    Single(CloseMcp, InitFlags, world);
    Join([StepEntry(InitFlags, world)], services, world);
    hide ServicesJournal, Tries, Registers, Truthful;
  }

  lemma Tolerated(settings: Settings, world: World)
    ensures DatabaseTolerated(settings, world) <==> PastDatabase(settings, world)
    ensures Starts(settings, world) <==> MustTry(settings, world, Serve)
  {
    DatabaseSteps(world);
  }

  lemma StartupDoes(settings: Settings, world: World)
    ensures var journal := StartupJournal(settings, world);
            && Truthful(journal, world)
            && (forall step :: Tries(journal, step) <==> !step.Serve? && MustTry(settings, world, step))
            && forall r :: Registers(journal, r) <==> MustRelease(settings, world, r)
  {
    hide StoresJournal, DatabaseJournal, FlagsJournal, DatabaseTolerated, Starts, Tries, Registers, Truthful;
    Tolerated(settings, world);
    StoresDo(settings, world);
    Single(ClosePool, InitCache, world);
    var past, flagged := [], [];
    if Works(world, InitCache) {
      DatabaseDoes(settings, world);
      if PastDatabase(settings, world) {
        FlagsDo(settings, world);
        flagged := FlagsJournal(settings, world);
      }
      past := DatabaseJournal(settings, world) + flagged;
      Join(DatabaseJournal(settings, world), flagged, world);
    }
    Join(StoresJournal(settings, world), past, world);
    assert StartupJournal(settings, world) == StoresJournal(settings, world) + past;
  }

  /** Everything that is registered and tried. */
  lemma LifeDoes(settings: Settings, world: World)
    ensures var journal := LifeJournal(settings, world);
            && Truthful(journal, world)
            && (forall step :: Tries(journal, step) <==> MustTry(settings, world, step))
            && forall r :: Registers(journal, r) <==> MustRelease(settings, world, r)
  {
    hide StartupJournal, Starts, Tries, Registers, Truthful;
    Tolerated(settings, world);
    StartupDoes(settings, world);
    Single(ClosePool, Serve, world);
    Join(StartupJournal(settings, world), if Starts(settings, world) then [StepEntry(Serve, world)] else [], world);
  }

  /** Over the whole life, whatever fails: a release runs, and exactly once, exactly if the settings and the steps
      call for it, and a step is tried exactly if it is reached. */
  lemma WhatHappens(journal: seq<Entry>, settings: Settings, world: World, level: nat)
    requires Orderly(journal, [], level) && Replay(LifeJournal(settings, world)).Some?
    requires journal == LifeJournal(settings, world) + Unwound(Replay(LifeJournal(settings, world)).value)
    ensures forall r :: multiset(journal)[Released(r)] == if MustRelease(settings, world, r) then 1 else 0
    ensures forall step :: Tries(journal, step) <==> MustTry(settings, world, step)
    ensures Truthful(journal, world)
  {
    var held := Replay(LifeJournal(settings, world)).value;
    hide LifeJournal, Orderly, Truthful, Tries;
    LifeDoes(settings, world);
    ReleasesDoNothing(Unwound(held), held, world);
    Join(LifeJournal(settings, world), Unwound(held), world);
    forall r ensures multiset(journal)[Released(r)] == if MustRelease(settings, world, r) then 1 else 0 {
      EachReleasedOnce(journal, level, r);
      assert Registers(journal, r) <==> Registered(r) in multiset(journal);
    }
  }

  /** The failure that ends the application: that of the earliest registered release that fails, if any does, else
      the failure of startup or of serving itself. */
  lemma {:induction false} SurfacingMeaning(pending: Option<Failure>, releases: seq<Release>, world: World)
    ensures (forall r :: r in releases ==> world.release(r).None?) ==> Surfacing(pending, releases, world) == pending
    ensures forall i :: 0 <= i < |releases| && world.release(releases[i]).Some? &&
                        (forall j :: 0 <= j < i ==> world.release(releases[j]).None?) ==>
              Surfacing(pending, releases, world) == world.release(releases[i])
    decreases |releases|
  {
    if releases != [] {
      var n := |releases| - 1;
      SurfacingMeaning(if world.release(releases[n]).Some? then world.release(releases[n]) else pending,
                       releases[..n], world);
      assert releases == releases[..n] + [releases[n]];
    }
  }

  /** Startup ends with the failure of the first step that is reached and fails, unless that is an optional database's
      and can be caught. */
  lemma FailureMeaning(settings: Settings, world: World)
    ensures var failure := StartupFailure(settings, world);
            if !Works(world, InitCache) then failure == world.step(InitCache)
            else if !PastDatabase(settings, world) then
              if settings.postgresRequired then failure == FirstFailure(DATABASE_STEPS, world)
              else failure == OptionalFailure(world)
            else if !Works(world, InitFlags) then failure == world.step(InitFlags)
            else if !ReachesWorkers(settings, world) then failure == world.step(InitMcp)
            else if !PastMetrics(settings, world) then failure == world.step(StartMetrics)
            else if settings.redis && !Works(world, StartListener) then failure == world.step(StartListener)
            else if settings.redis then failure == world.step(StartHeartbeat)
            else failure == None
  {
    DatabaseSteps(world);
    Tolerated(settings, world);
    TwoSteps(StartListener, StartHeartbeat, world);
  }
}
