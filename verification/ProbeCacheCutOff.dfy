/** A run of the external probe cache in which the Redis lock is not released: a caller is interrupted while
    it gives the provider's slot back (nabla/api/external_probe_cache.py, the end of get_or_refresh_probe). */
module ProbeCacheCutOff {
  import opened ProbeCache
  import opened ProbeCacheProtocol
  import opened Wrappers

  const TOKEN := 7

  /** A process with one caller and nothing cached anywhere. */
  function Alone<V>(policy: Policy, caller: Caller<V>, turn: Option<CallerId>, lock: Option<RedisLock>): State<V> {
    State(policy, 0.0, None, turn, map[0 := caller], lock, None, {TOKEN}, None)
  }

  function Waiting<V>(at: At<V>): Caller<V> {
    Caller(at, true, TOKEN, NoEnvelope(), false, false, false, false, false, false, false, false)
  }

  /** The caller after taking the Redis lock. */
  function Holding<V>(at: At<V>, owns: bool, began: bool, cutOff: bool): Caller<V> {
    Caller(at, true, TOKEN, NoEnvelope(), true, true, owns, began, true, false, cutOff, false)
  }

  function Taken(policy: Policy): Option<RedisLock> {
    Some(RedisLock(TOKEN, 0.0 + LockTtl(policy.lockTtl)))
  }

  /** `s` is the last state of some run. */
  ghost predicate Reached<V(!new)>(s: State<V>) {
    exists states: seq<State<V>>, events :: RunTo(states, events, s)
  }

  ghost predicate RunTo<V(!new)>(states: seq<State<V>>, events: seq<Event<V>>, s: State<V>) {
    Run(states, events) && states[|events|] == s
  }

  lemma RunOn<V(!new)>(states: seq<State<V>>, events: seq<Event<V>>, e: Event<V>)
    requires Run(states, events) && Enabled(states[|events|], e)
    ensures RunTo(states + [Perform(states[|events|], e)], events + [e], Perform(states[|events|], e))
  {
    var more, longer := states + [Perform(states[|events|], e)], events + [e];
    forall i | 0 <= i < |longer| ensures StepAt(more, longer, i) {
      if i < |events| {
        assert StepAt(states, events, i);
      }
    }
  }

  lemma ReachOn<V(!new)>(s: State<V>, e: Event<V>)
    requires Reached(s) && Enabled(s, e)
    ensures Reached(Perform(s, e))
  {
    var states: seq<State<V>>, events :| RunTo(states, events, s);
    RunOn(states, events, e);
  }

  lemma ReachTurn<V(!new)>(policy: Policy)
    ensures Reached<V>(Alone(policy, Waiting(LookingUp), Some(0), None))
  {
    var start: State<V> := State(policy, 0.0, None, None, map[], None, None, {}, None);
    assert RunTo([start], [], start);
    var entering: State<V> := Alone(policy, Waiting(Entering), None, None);
    var waiting: State<V> := Alone(policy, Waiting(WaitingForTurn), None, None);
    ReachOn(start, Enter(0, true, TOKEN));
    assert Perform(start, Enter(0, true, TOKEN)) == entering;
    ReachOn(entering, CheckHot(0));
    assert DoCheckHot(entering, 0) == waiting;
    ReachOn(waiting, TakeTurn(0));
    assert Perform(waiting, TakeTurn(0)) == Alone(policy, Waiting(LookingUp), Some(0), None);
  }

  lemma ReachLock<V(!new)>(policy: Policy)
    ensures Reached<V>(Alone(policy, Holding(AskingCircuit, false, false, false), Some(0), Taken(policy)))
  {
    ReachTurn<V>(policy);
    var looking: State<V> := Alone(policy, Waiting(LookingUp), Some(0), None);
    var reading: State<V> := Alone(policy, Waiting(ReadingRemote).(redisUp := true), Some(0), None);
    var asking: State<V> := Alone(policy, Waiting(Acquiring).(redisUp := true), Some(0), None);
    ReachOn(looking, LookUp(0));
    assert DoLookUp(looking, 0) == reading;
    ReachOn(reading, ReadRemote(0, Answered));
    assert DoReadRemote(reading, 0, Answered) == asking;
    ReachOn(asking, TryLock(0, Answered));
    assert DoTryLock(asking, 0, Answered) ==
           Alone(policy, Holding(AskingCircuit, false, false, false), Some(0), Taken(policy));
  }

  /** Two interrupts, the second while the slot is given back, end the refresh with the lock still held. */
  lemma ReleaseCanBeSkipped<V(!new)>(policy: Policy)
    ensures Reached<V>(Alone(policy, Holding(Finished(Raised), true, true, true), None, Taken(policy)))
  {
    ReachLock<V>(policy);
    var deciding: State<V> := Alone(policy, Holding(AskingCircuit, false, false, false), Some(0), Taken(policy));
    var refreshing: State<V> := Alone(policy, Holding(AskingBudget, true, true, false), Some(0), Taken(policy));
    var returning: State<V> := Alone(policy, Holding(GivingBack(Raised), true, true, false), Some(0), Taken(policy));
    ReachOn(deciding, Decide(0, true, true));
    assert DoDecide(deciding, 0, true, true) == refreshing;
    ReachOn(refreshing, Interrupt(0, false));
    assert DoInterrupt(refreshing, 0, false) == returning;
    ReachOn(returning, Interrupt(0, false));
    assert DoInterrupt(returning, 0, false) ==
           Alone(policy, Holding(Finished(Raised), true, true, true), None, Taken(policy));
  }
}
