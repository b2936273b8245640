/** The stale-while-revalidate caches: the health board (nabla/api/health_board.py), the declared service
    catalog (nabla/api/homelab_declared.py) and the topology (nabla/api/homelab_topology.py). Requests are
    answered from the snapshot at once while at most one background task refreshes it. */
module StaleWhileRevalidate {
  import opened Wrappers

  type TaskId = nat

  /** A refresh task: fetching; past its fetch, with the outcome applied; or over. */
  datatype Task = Fetching | Ending | Over

  datatype State<V> = State(now: real, snapshot: Option<V>, cachedAt: real, error: Option<string>,
                            tasks: seq<Task>, current: Option<TaskId>)

  /** `Get` is a request with the time to live in force; `Commit` and `Fail` are the two ends of a fetch;
      `End` ends a task, also one that is cancelled. */
  datatype Event<V> =
    | Tick(elapsed: real)
    | Get(ttl: real, force: bool)
    | Commit(task: TaskId, value: V)
    | Fail(task: TaskId, message: string)
    | End(task: TaskId)

  datatype Freshness = Pending | Fresh | Stale

  datatype Answer<V> = Answer(freshness: Freshness, snapshot: Option<V>, refreshing: bool, error: Option<string>)

  predicate Running<V>(s: State<V>, task: TaskId) {
    task < |s.tasks| && !s.tasks[task].Over?
  }

  predicate TaskIsRunning<V>(s: State<V>) {
    s.current.Some? && Running(s, s.current.value)
  }

  predicate IsFresh<V>(s: State<V>, ttl: real) {
    s.snapshot.Some? && s.now - s.cachedAt < ttl
  }

  predicate Starts<V>(s: State<V>, ttl: real, force: bool) {
    (force || !IsFresh(s, ttl)) && !TaskIsRunning(s)
  }

  predicate Enabled<V>(s: State<V>, e: Event<V>) {
    match e
    case Tick(elapsed) => elapsed >= 0.0
    case Get(_, _) => true
    case Commit(task, _) => task < |s.tasks| && s.tasks[task].Fetching?
    case Fail(task, _) => task < |s.tasks| && s.tasks[task].Fetching?
    case End(task) => Running(s, task)
  }

  /** The end of a fetch, with a value or without. */
  function EndOf<V>(task: TaskId, fetched: Result<V, string>): Event<V> {
    match fetched
    case Success(value) => Commit(task, value)
    case Failure(message) => Fail(task, message)
  }

  function Perform<V>(s: State<V>, e: Event<V>): State<V>
    requires Enabled(s, e)
  {
    match e
    case Tick(elapsed) => s.(now := s.now + elapsed)
    case Get(ttl, force) =>
      if Starts(s, ttl, force) then s.(tasks := s.tasks + [Fetching], current := Some(|s.tasks|)) else s
    case Commit(task, value) =>
      s.(snapshot := Some(value), cachedAt := s.now, error := None, tasks := s.tasks[task := Ending])
    case Fail(task, message) => s.(error := Some(message), tasks := s.tasks[task := Ending])
    case End(task) => s.(tasks := s.tasks[task := Over])
  }

  /** What a request is answered, in the state it leaves. */
  function AnswerOf<V>(s: State<V>, ttl: real, force: bool): Answer<V> {
    var after := Perform(s, Get(ttl, force));
    Answer(if s.snapshot.None? then Pending else if IsFresh(s, ttl) && !force then Fresh else Stale,
           s.snapshot, TaskIsRunning(after), s.error)
  }

  // ---------------------------------------------------------------- runs

  ghost predicate Init<V>(s: State<V>) {
    s.snapshot == None && s.tasks == [] && s.current == None && s.error == None
  }

  ghost predicate StepAt<V>(states: seq<State<V>>, events: seq<Event<V>>, i: nat)
    requires |states| == |events| + 1 && i < |events|
  {
    Enabled(states[i], events[i]) && states[i + 1] == Perform(states[i], events[i])
  }

  ghost predicate Run<V(!new)>(states: seq<State<V>>, events: seq<Event<V>>) {
    && |states| == |events| + 1 && Init(states[0])
    && forall i :: 0 <= i < |events| ==> StepAt(states, events, i)
  }

  /** Only the current task can be running. */
  ghost predicate Inv<V>(s: State<V>) {
    forall task: TaskId :: Running(s, task) ==> s.current == Some(task)
  }

  lemma StepKeepsInv<V>(s: State<V>, e: Event<V>)
    requires Inv(s) && Enabled(s, e)
    ensures Inv(Perform(s, e))
  {
    var s' := Perform(s, e);
    forall task: TaskId | Running(s', task) ensures s'.current == Some(task) {
      assert task < |s.tasks| ==> Running(s, task);
    }
  }

  lemma {:induction false} RunKeepsInv<V(!new)>(states: seq<State<V>>, events: seq<Event<V>>, n: nat)
    requires Run(states, events) && n <= |events|
    ensures Inv(states[n])
  {
    if n > 0 {
      RunKeepsInv(states, events, n - 1);
      assert StepAt(states, events, n - 1);
      StepKeepsInv(states[n - 1], events[n - 1]);
    }
  }

  /** At no time do two refresh tasks run. */
  lemma OneRefresh<V(!new)>(states: seq<State<V>>, events: seq<Event<V>>, n: nat, task: TaskId, other: TaskId)
    requires Run(states, events) && n <= |events| && Running(states[n], task) && Running(states[n], other)
    ensures task == other
  {
    RunKeepsInv(states, events, n);
  }

  /** Nothing committed between the steps `i` and `j`. */
  predicate NoCommit<V>(events: seq<Event<V>>, i: nat, j: nat)
    requires i <= j <= |events|
  {
    forall k :: i <= k < j ==> !events[k].Commit?
  }

  /** Whatever does not commit, a failed or cancelled refresh in particular, leaves the snapshot alone. */
  lemma {:induction false} OnlyCommitsChange<V(!new)>(states: seq<State<V>>, events: seq<Event<V>>, i: nat, j: nat)
    requires Run(states, events) && i <= j <= |events| && NoCommit(events, i, j)
    ensures states[j].snapshot == states[i].snapshot && states[j].cachedAt == states[i].cachedAt
    ensures states[i].now <= states[j].now
  {
    if i < j {
      OnlyCommitsChange(states, events, i, j - 1);
      assert StepAt(states, events, j - 1);
    }
  }

  /** The last commit before step `n`, if there was one. */
  lemma {:induction false} LastCommit<V(!new)>(states: seq<State<V>>, events: seq<Event<V>>, n: nat)
    returns (last: Option<nat>)
    requires Run(states, events) && n <= |events|
    ensures last.None? ==> NoCommit(events, 0, n)
    ensures last.Some? ==> last.value < n && events[last.value].Commit? && NoCommit(events, last.value + 1, n)
  {
    if n == 0 {
      last := None;
    } else if events[n - 1].Commit? {
      last := Some(n - 1);
    } else {
      last := LastCommit(states, events, n - 1);
    }
  }

  /** The snapshot is what the last successful refresh committed, as old as that; without one there is
      none. */
  lemma SnapshotIsLastCommit<V(!new)>(states: seq<State<V>>, events: seq<Event<V>>, n: nat) returns (last: Option<nat>)
    requires Run(states, events) && n <= |events|
    ensures last.None? ==> NoCommit(events, 0, n) && states[n].snapshot == None
    ensures last.Some? ==>
              && last.value < n && events[last.value].Commit? && NoCommit(events, last.value + 1, n)
              && states[n].snapshot == Some(events[last.value].value) && states[n].cachedAt == states[last.value].now
  {
    last := LastCommit(states, events, n);
    match last
    case None => OnlyCommitsChange(states, events, 0, n);
    case Some(k) =>
      assert StepAt(states, events, k);
      OnlyCommitsChange(states, events, k + 1, n);
  }

  /** A snapshot once obtained is never lost. */
  lemma {:induction false} NeverLost<V(!new)>(states: seq<State<V>>, events: seq<Event<V>>, i: nat, j: nat)
    requires Run(states, events) && i <= j <= |events| && states[i].snapshot.Some?
    ensures states[j].snapshot.Some?
  {
    if i < j {
      NeverLost(states, events, i, j - 1);
      assert StepAt(states, events, j - 1);
    }
  }

  /** The last refresh that ended, committed or failed, before step `n`. */
  ghost predicate LastEnd<V>(events: seq<Event<V>>, k: nat, n: nat)
    requires n <= |events|
  {
    && k < n && (events[k].Commit? || events[k].Fail?)
    && forall i :: k < i < n ==> !events[i].Commit? && !events[i].Fail?
  }

  /** The error on show is that of the refresh that ended last, if it failed; a success clears it. */
  lemma {:induction false} ErrorOfLastEnd<V(!new)>(states: seq<State<V>>, events: seq<Event<V>>, n: nat)
    requires Run(states, events) && n <= |events|
    ensures forall k: nat :: LastEnd(events, k, n) ==>
              states[n].error == if events[k].Fail? then Some(events[k].message) else None
    ensures states[n].error.Some? ==> exists k: nat :: LastEnd(events, k, n)
  {
    if n > 0 {
      ErrorOfLastEnd(states, events, n - 1);
      assert StepAt(states, events, n - 1);
      if events[n - 1].Commit? || events[n - 1].Fail? {
        assert LastEnd(events, n - 1, n);
      } else {
        forall k: nat | LastEnd(events, k, n) ensures LastEnd(events, k, n - 1) {
        }
        if states[n].error.Some? {
          var k: nat :| LastEnd(events, k, n - 1);
          assert LastEnd(events, k, n);
        }
      }
    }
  }

  /** Every task starts with its fetch, goes on past it, and is over once it has ended; no other event touches it. */
  lemma TaskLife<V>(s: State<V>, e: Event<V>, task: TaskId)
    requires Enabled(s, e) && task < |s.tasks|
    ensures var s' := Perform(s, e);
            && task < |s'.tasks|
            && s'.tasks[task] == if e == End(task) then Over
                                 else if (e.Commit? || e.Fail?) && e.task == task then Ending
                                 else s.tasks[task]
  {
  }

  predicate NoneRunning<V>(s: State<V>) {
    forall task :: 0 <= task < |s.tasks| ==> s.tasks[task].Over?
  }

  /** A request starts a task exactly if it is forced or nothing was committed less than the time to live ago, and
      no task is running; it never does anything else. */
  lemma RequestStartsTask<V(!new)>(states: seq<State<V>>, events: seq<Event<V>>, n: nat) returns (last: Option<nat>)
    requires Run(states, events) && n < |events| && events[n].Get?
    ensures last.None? ==> NoCommit(events, 0, n)
    ensures last.Some? ==> last.value < n && events[last.value].Commit? && NoCommit(events, last.value + 1, n)
    ensures var s, s' := states[n], states[n + 1];
            && s'.snapshot == s.snapshot && s'.cachedAt == s.cachedAt && s'.error == s.error && s'.now == s.now
            && var aged := last.None? || s.now - states[last.value].now >= events[n].ttl;
               if (events[n].force || aged) && NoneRunning(s)
               then s'.tasks == s.tasks + [Fetching] && s'.current == Some(|s.tasks|)
               else s'.tasks == s.tasks && s'.current == s.current
  {
    last := SnapshotIsLastCommit(states, events, n);
    RunKeepsInv(states, events, n);
    RunningIsCurrent(states[n]);
    assert StepAt(states, events, n);
  }

  lemma RunningIsCurrent<V>(s: State<V>)
    requires Inv(s)
    ensures TaskIsRunning(s) <==> !NoneRunning(s)
  {
    if task :| 0 <= task < |s.tasks| && !s.tasks[task].Over? {
      assert Running(s, task);
    }
  }

  /** An answer is called fresh exactly if it was not forced and is what a refresh committed less than the time to
      live ago, and nothing was committed since; one not called fresh comes with a refresh under way. In any case it
      is what was committed last. */
  lemma FreshAnswersAreYoung<V(!new)>(states: seq<State<V>>, events: seq<Event<V>>, n: nat) returns (last: Option<nat>)
    requires Run(states, events) && n < |events| && events[n].Get?
    ensures var answer := AnswerOf(states[n], events[n].ttl, events[n].force);
            && (last.None? ==> NoCommit(events, 0, n) && answer.snapshot == None)
            && (last.Some? ==>
                  && last.value < n && events[last.value].Commit? && NoCommit(events, last.value + 1, n)
                  && answer.snapshot == Some(events[last.value].value))
            && (answer.freshness == Fresh <==>
                  !events[n].force && last.Some? && states[n].now - states[last.value].now < events[n].ttl)
            && (answer.freshness != Fresh ==> answer.refreshing)
            && (answer.refreshing <==> !NoneRunning(states[n + 1]))
            && answer.error == states[n].error
            && (answer.freshness == Pending <==> NoCommit(events, 0, n))
  {
    last := SnapshotIsLastCommit(states, events, n);
    RequestsRefresh(states[n], events[n].ttl, events[n].force);
    RunKeepsInv(states, events, n + 1);
    RunningIsCurrent(states[n + 1]);
    assert StepAt(states, events, n);
    if last.Some? {
      assert events[last.value].Commit?;
    }
  }

  lemma RequestsRefresh<V>(s: State<V>, ttl: real, force: bool)
    ensures AnswerOf(s, ttl, force).freshness != Fresh ==> AnswerOf(s, ttl, force).refreshing
  {
  }

  // ---------------------------------------------------------------- awaiting the first refresh

  /** What a refresh task of the catalog or the topology returns to a caller that awaits it: the value it
      fetched; or, if that failed, the snapshot at that time, if any, and else a built-in stand-in. */
  function TaskResult<V>(s: State<V>, e: Event<V>, standIn: V): V
    requires e.Commit? || e.Fail?
  {
    if e.Commit? then e.value else if s.snapshot.Some? then s.snapshot.value else standIn
  }

  /** The stand-in is returned only by a refresh that fails before any has ever succeeded. */
  lemma StandInOnlyWhenCold<V(!new)>(states: seq<State<V>>, events: seq<Event<V>>, n: nat, standIn: V)
    returns (last: Option<nat>)
    requires Run(states, events) && n < |events| && (events[n].Commit? || events[n].Fail?)
    ensures last.None? <==> NoCommit(events, 0, n + 1)
    ensures last.Some? ==> last.value <= n && events[last.value].Commit? && NoCommit(events, last.value + 1, n + 1)
    ensures TaskResult(states[n], events[n], standIn) == if last.Some? then events[last.value].value else standIn
  {
    if events[n].Commit? {
      last := Some(n);
    } else {
      last := SnapshotIsLastCommit(states, events, n);
    }
  }

  // ---------------------------------------------------------------- the cache object

  class Cache<V(0)> {
    var snapshot: Option<V>
    var cachedAt: real
    var error: Option<string>
    var tasks: seq<Task>
    var current: Option<TaskId>

    constructor ()
      ensures forall now :: Init(AsOf(now))
    {
      snapshot, cachedAt, error, tasks, current := None, 0.0, None, [], None;
    }

    ghost function AsOf(now: real): State<V>
      reads this
    {
      State(now, snapshot, cachedAt, error, tasks, current)
    }

    method GetSnapshot(now: real, ttl: real, force: bool) returns (answer: Answer<V>)
      modifies this
      ensures AsOf(now) == Perform(old(AsOf(now)), Get(ttl, force))
      ensures answer == AnswerOf(old(AsOf(now)), ttl, force)
    {
      var isFresh := snapshot.Some? && now - cachedAt < ttl;
      var running := current.Some? && current.value < |tasks| && !tasks[current.value].Over?;
      if (force || !isFresh) && !running {
        current := Some(|tasks|);
        tasks := tasks + [Fetching];
        running := true;
      }
      if snapshot.None? {
        answer := Answer(Pending, None, running, error);
      } else {
        answer := Answer(if isFresh && !force then Fresh else Stale, snapshot, running, error);
      }
    }

    /** The fetch of a task ended, with a value or without; on failure the snapshot stays. */
    method EndFetch(task: TaskId, fetched: Result<V, string>, now: real)
      requires task < |tasks| && tasks[task].Fetching?
      modifies this
      ensures AsOf(now) == Perform(old(AsOf(now)), EndOf(task, fetched))
    {
      tasks := tasks[task := Ending];
      match fetched {
        case Success(v) =>
          snapshot, cachedAt, error := Some(v), now, None;
        case Failure(m) =>
          error := Some(m);
      }
    }
  }
}
