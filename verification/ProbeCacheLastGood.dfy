/** Retention of the last good value when no caller uses Redis: the process-local mode of the external
    probe cache (nabla/api/external_probe_cache.py). */
module ProbeCacheLastGood {
  import opened ProbeCache
  import opened ProbeCacheProtocol
  import opened Wrappers

  /** The age of the latest success, if there was one, is known and below the limit. */
  predicate SuccessWithin<V>(last: Option<Record<V>>, now: real, limit: real) {
    last.Some? && last.value.fetchedAt.Some? && now - last.value.fetchedAt.value < limit
  }

  /** The envelope's last good value is the latest success or nothing, and it is the latest success
      while that is younger than the stale window. */
  predicate Remembers<V(==)>(envelope: Envelope<V>, last: Option<Record<V>>, now: real, policy: Policy) {
    && (envelope.lastGood.Some? ==> envelope.lastGood == last)
    && (SuccessWithin(last, now, policy.staleTtl) ==> envelope.lastGood == last)
  }

  /** Past the lookup, with a view of the envelope that a later store will build on. */
  predicate KeepsView<V>(at: At<V>) {
    at.AskingCircuit? || at.AskingBudget? || at.Loading? || at.Loaded?
  }

  predicate UsesRedis<V>(at: At<V>) {
    at.ReadingRemote? || at.Acquiring? || at.AwaitingPeer? || at.PeerFound? || at.WritingRemote?
  }

  ghost predicate LocalCaller<V>(s: State<V>, caller: Caller<V>) {
    && !caller.client && !UsesRedis(caller.at)
    && (KeepsView(caller.at) ==> Remembers(caller.seen, s.lastSuccess, s.now, s.policy))
  }

  ghost predicate EntryOk<V>(s: State<V>) {
    match s.local
    case None => !SuccessWithin(s.lastSuccess, s.now, s.policy.staleTtl)
    case Some(entry) =>
      && entry.storedAt <= s.now
      && Remembers(entry.envelope, s.lastSuccess, s.now, s.policy)
      && (s.lastSuccess.Some? && s.lastSuccess.value.fetchedAt.Some? ==>
            s.lastSuccess.value.fetchedAt.value <= entry.storedAt)
  }

  ghost predicate LocalInv<V>(s: State<V>) {
    && s.policy.Valid()
    && (s.lastSuccess.Some? ==> s.lastSuccess.value.success && s.lastSuccess.value.fetchedAt.Some?)
    && EntryOk(s)
    && forall c :: c in s.callers ==> LocalCaller(s, s.callers[c])
  }

  /** A step of one caller that changes neither the clock nor the history keeps the others in order. */
  lemma LocalMove<V>(s: State<V>, s': State<V>, c: CallerId)
    requires LocalInv(s) && c in s.callers && c in s'.callers && s'.callers == s.callers[c := s'.callers[c]]
    requires s'.policy == s.policy && s'.now == s.now && s'.lastSuccess == s.lastSuccess
    requires EntryOk(s') && LocalCaller(s', s'.callers[c])
    ensures LocalInv(s')
  {
    forall d | d in s'.callers ensures LocalCaller(s', s'.callers[d]) {
      if d != c {
        assert LocalCaller(s, s.callers[d]);
      }
    }
  }

  /** A lookup may drop the entry, but only when no success is young enough to be remembered. */
  lemma LookupForgetsOnlyOld<V>(s: State<V>)
    requires LocalInv(s)
    ensures EntryOk(s.(local := AfterLookup(s.local, s.now, s.policy)))
    ensures var local := AfterLookup(s.local, s.now, s.policy);
            Remembers(if local.Some? then local.value.envelope else NoEnvelope(), s.lastSuccess, s.now, s.policy)
  {
  }

  lemma CheckHotKeepsLocal<V>(s: State<V>, c: CallerId)
    requires LocalInv(s) && Enabled(s, CheckHot(c))
    ensures LocalInv(DoCheckHot(s, c))
  {
    assert LocalCaller(s, s.callers[c]);
    LookedKeepsLocal(s);
    FinishOrWaitKeepsLocal(s.(local := AfterLookup(s.local, s.now, s.policy)), c, Hit(s));
  }

  lemma FinishOrWaitKeepsLocal<V>(looked: State<V>, c: CallerId, result: Option<Served<V>>)
    requires LocalInv(looked) && c in looked.callers && looked.callers[c].at.Entering?
    ensures LocalInv(FinishOrWait(looked, c, looked.callers[c], result))
  {
    var caller := looked.callers[c];
    assert LocalCaller(looked, caller);
    if result.Some? {
      StayKeepsLocal(looked, c, caller.(at := Finished(Returned(result.value))));
    } else {
      StayKeepsLocal(looked, c, caller.(at := WaitingForTurn));
    }
  }

  /** A caller in order may move on, in or out of its turn. */
  lemma PutKeepsLocal<V>(s: State<V>, c: CallerId, caller: Caller<V>, turn: Option<CallerId>)
    requires LocalInv(s) && c in s.callers && LocalCaller(s, caller)
    ensures LocalInv(Put(s, c, caller).(turn := turn))
  {
    LocalMove(s, Put(s, c, caller).(turn := turn), c);
  }

  lemma StayKeepsLocal<V>(s: State<V>, c: CallerId, caller: Caller<V>)
    requires LocalInv(s) && c in s.callers && LocalCaller(s, caller)
    ensures LocalInv(Put(s, c, caller))
  {
    LocalMove(s, Put(s, c, caller), c);
  }

  lemma LeaveKeepsLocal<V>(s: State<V>, c: CallerId, caller: Caller<V>, outcome: Outcome<V>)
    requires LocalInv(s) && c in s.callers && !caller.client
    ensures LocalInv(Leave(s, c, caller, outcome))
  {
    PutKeepsLocal(s, c, caller.(at := Finished(outcome)), None);
  }

  lemma LeaveOrKeepsLocal<V>(s: State<V>, c: CallerId, caller: Caller<V>, result: Option<Served<V>>)
    requires LocalInv(s) && c in s.callers && LocalCaller(s, caller)
    ensures LocalInv(LeaveOr(s, c, caller, result))
  {
    match result
    case Some(served) => LeaveKeepsLocal(s, c, caller, Returned(served));
    case None => StayKeepsLocal(s, c, caller);
  }

  lemma LookedKeepsLocal<V>(s: State<V>)
    requires LocalInv(s)
    ensures LocalInv(s.(local := AfterLookup(s.local, s.now, s.policy)))
  {
    LookupForgetsOnlyOld(s);
    forall d | d in s.callers ensures LocalCaller(s.(local := AfterLookup(s.local, s.now, s.policy)), s.callers[d]) {
      assert LocalCaller(s, s.callers[d]);
    }
  }

  lemma LookUpKeepsLocal<V>(s: State<V>, c: CallerId)
    requires LocalInv(s) && Enabled(s, LookUp(c))
    ensures LocalInv(DoLookUp(s, c))
  {
    assert LocalCaller(s, s.callers[c]);
    LookupForgetsOnlyOld(s);
    LookedKeepsLocal(s);
    var local := AfterLookup(s.local, s.now, s.policy);
    var seen := if local.Some? then local.value.envelope else NoEnvelope();
    LookedUpKeepsLocal(s.(local := local), c, s.callers[c].(seen := seen), Hit(s), CachedResult(seen, s.now, s.policy));
  }

  lemma LookedUpKeepsLocal<V>(looked: State<V>, c: CallerId, caller: Caller<V>, hit: Option<Served<V>>,
                              cached: Option<Served<V>>)
    requires LocalInv(looked) && c in looked.callers && !caller.client
    requires Remembers(caller.seen, looked.lastSuccess, looked.now, looked.policy)
    ensures LocalInv(LookedUp(looked, c, caller, hit, cached))
  {
    if hit.Some? {
      LeaveKeepsLocal(looked, c, caller, Returned(hit.value));
    } else {
      LeaveOrKeepsLocal(looked, c, caller.(at := AskingCircuit, redisUp := false), cached);
    }
  }

  lemma SuppressingKeepsLocal<V>(s: State<V>, c: CallerId, caller: Caller<V>, result: Option<Served<V>>)
    requires LocalInv(s) && c in s.callers && LocalCaller(s, caller)
    ensures LocalInv(ReleaseOr(s, c, caller, result)) && LocalInv(GiveBackOr(s, c, caller, result))
  {
    StayKeepsLocal(s, c, caller);
    if result.Some? {
      StayKeepsLocal(s, c, caller.(at := Releasing(Returned(result.value)), began := false));
      StayKeepsLocal(s, c, caller.(at := GivingBack(Returned(result.value))));
    }
  }

  /** An interrupt without Redis. */
  function Interrupted<V>(s: State<V>, c: CallerId): State<V>
    requires c in s.callers
  {
    var caller := s.callers[c];
    if InRefresh(caller.at) then Put(s, c, caller.(at := GivingBack(Raised)))
    else if HasTurn(caller.at) then Leave(s, c, caller.(cutOff := caller.cutOff || caller.at.GivingBack?), Raised)
    else Put(s, c, caller.(at := Finished(Raised)))
  }

  lemma InterruptedLocally<V>(s: State<V>, c: CallerId, sent: bool)
    requires LocalInv(s) && Enabled(s, Interrupt(c, sent))
    ensures DoInterrupt(s, c, sent) == Interrupted(s, c)
  {
    assert LocalCaller(s, s.callers[c]);
  }

  lemma InterruptKeepsLocal<V>(s: State<V>, c: CallerId, sent: bool)
    requires LocalInv(s) && Enabled(s, Interrupt(c, sent))
    ensures LocalInv(DoInterrupt(s, c, sent))
  {
    InterruptedLocally(s, c, sent);
    InterruptedKeepsLocal(s, c);
  }

  lemma InterruptedKeepsLocal<V>(s: State<V>, c: CallerId)
    requires LocalInv(s) && c in s.callers
    ensures LocalInv(Interrupted(s, c))
  {
    var caller := s.callers[c];
    assert LocalCaller(s, caller);
    if InRefresh(caller.at) {
      QuietKeepsLocal(s, c, caller, GivingBack(Raised));
    } else if HasTurn(caller.at) {
      LeaveKeepsLocal(s, c, caller.(cutOff := caller.cutOff || caller.at.GivingBack?), Raised);
    } else {
      QuietKeepsLocal(s, c, caller, Finished(Raised));
    }
  }

  /** A caller that needs its view no longer may move on. */
  lemma QuietKeepsLocal<V>(s: State<V>, c: CallerId, caller: Caller<V>, at: At<V>)
    requires LocalInv(s) && c in s.callers && !caller.client && (at.GivingBack? || at.Releasing? || at.Finished?)
    ensures LocalInv(Put(s, c, caller.(at := at)))
  {
    StayKeepsLocal(s, c, caller.(at := at));
  }

  /** Without a client nothing is sent to Redis. */
  lemma NoRedisSteps<V>(s: State<V>, e: Event<V>)
    requires LocalInv(s) && Enabled(s, e)
    ensures !e.ReadRemote? && !e.TryLock? && !e.FindPeer? && !e.GiveUpOnPeer? && !e.LosePeer?
    ensures !e.AcceptPeer? && !e.WriteRemote?
  {
  }

  /** Only the holder of the turn stores, so no other caller keeps a view that the store outdates. */
  lemma StoreKeepsLocal<V>(s: State<V>, c: CallerId)
    requires Inv(s) && LocalInv(s) && Enabled(s, Store(c))
    ensures LocalInv(DoStore(s, c))
  {
    var s' := DoStore(s, c);
    var caller := s.callers[c];
    assert CallerOk(s, c, caller) && LocalCaller(s, caller);
    RefreshedRemembers(caller.seen, caller.at.value, caller.at.success, s.lastSuccess, s.now, s.policy);
    assert EntryOk(s');
    forall d | d in s'.callers ensures LocalCaller(s', s'.callers[d]) {
      if d != c {
        assert CallerOk(s, d, s.callers[d]) && LocalCaller(s, s.callers[d]);
      }
    }
  }

  /** A success becomes what is remembered; a failure never replaces it. */
  lemma RefreshedRemembers<V>(seen: Envelope<V>, value: V, success: bool, last: Option<Record<V>>, now: real,
                              policy: Policy)
    requires Remembers(seen, last, now, policy) && (last.Some? ==> last.value.fetchedAt.Some?)
    ensures var envelope := Refreshed(seen, value, success, now, policy);
            && (!success ==> Remembers(envelope, last, now, policy))
            && (success ==> envelope.lastGood == envelope.current == Some(Record(value, true, Some(now)))
                            && Remembers(envelope, envelope.current, now, policy))
  {
  }

  lemma SurroundingsKeepLocal<V>(s: State<V>, e: Event<V>)
    requires LocalInv(s) && Enabled(s, e)
    requires || e.Tick? || e.ForeignLock? || e.ForeignRelease? || e.LockLost? || e.ForeignRemote?
             || (e.Enter? && !e.client)
    ensures LocalInv(Perform(s, e))
  {
    var s' := Perform(s, e);
    forall d | d in s'.callers ensures LocalCaller(s', s'.callers[d]) {
      if d in s.callers {
        assert LocalCaller(s, s.callers[d]);
      }
    }
  }

  lemma TurnStepKeepsLocal<V>(s: State<V>, e: Event<V>)
    requires LocalInv(s) && Enabled(s, e) && (e.TakeTurn? || e.Load? || e.GiveBack? || e.Release?)
    ensures LocalInv(Perform(s, e))
  {
    assert LocalCaller(s, s.callers[e.c]);
    match e
    case TakeTurn(c) => PutKeepsLocal(s, c, s.callers[c].(at := LookingUp), Some(c));
    case Load(c, value, success) => StayKeepsLocal(s, c, s.callers[c].(at := Loaded(value, success)));
    case GiveBack(c) => StayKeepsLocal(s, c, s.callers[c].(at := Releasing(s.callers[c].at.result)));
    case Release(c, reply) => LeaveKeepsLocal(s, c, s.callers[c].(released := false), s.callers[c].at.outcome);
  }

  /** Every step of a process without Redis keeps the invariant. */
  lemma StepKeepsLocal<V>(s: State<V>, e: Event<V>)
    requires Inv(s) && LocalInv(s) && Enabled(s, e) && (e.Enter? ==> !e.client)
    ensures LocalInv(Perform(s, e))
  {
    hide DoCheckHot, DoLookUp, DoStore, DoRelease, DoInterrupt, EntryOk, Remembers, Inv;
    NoRedisSteps(s, e);
    match e
    case CheckHot(c) => CheckHotKeepsLocal(s, c);
    case LookUp(c) => LookUpKeepsLocal(s, c);
    case Decide(c, allowed, owns) =>
      assert LocalCaller(s, s.callers[c]);
      SuppressingKeepsLocal(s, c, s.callers[c].(at := AskingBudget, began := true, owns := owns),
                            if allowed then None else SuppressedByCircuit(s.callers[c].seen, s.now, s.policy));
    case Admit(c, allowed) =>
      assert LocalCaller(s, s.callers[c]);
      SuppressingKeepsLocal(s, c, s.callers[c].(at := Loading, startedHot := HotAndFresh(s.local, s.now, s.policy)),
                            if allowed then None else SuppressedByBudget(s.callers[c].seen, s.now, s.policy));
    case Store(c) => StoreKeepsLocal(s, c);
    case TakeTurn(_) => TurnStepKeepsLocal(s, e);
    case Load(_, _, _) => TurnStepKeepsLocal(s, e);
    case GiveBack(_) => TurnStepKeepsLocal(s, e);
    case Release(_, _) => TurnStepKeepsLocal(s, e);
    case Interrupt(c, sent) => InterruptKeepsLocal(s, c, sent);
    case Tick(_) => SurroundingsKeepLocal(s, e);
    case ForeignLock(_, _) => SurroundingsKeepLocal(s, e);
    case ForeignRelease(_) => SurroundingsKeepLocal(s, e);
    case LockLost => SurroundingsKeepLocal(s, e);
    case ForeignRemote(_) => SurroundingsKeepLocal(s, e);
    case Enter(_, _, _) => SurroundingsKeepLocal(s, e);
    case _ =>
  }

  ghost predicate LocalRun<V(!new)>(states: seq<State<V>>, events: seq<Event<V>>) {
    && Run(states, events) && states[0].policy.Valid()
    && forall i :: 0 <= i < |events| ==> (events[i].Enter? ==> !events[i].client)
  }

  lemma {:induction false} RunKeepsLocal<V(!new)>(states: seq<State<V>>, events: seq<Event<V>>, n: nat)
    requires LocalRun(states, events) && n <= |events|
    ensures LocalInv(states[n])
  {
    if n > 0 {
      RunKeepsLocal(states, events, n - 1);
      RunKeepsInv(states, events, n - 1);
      assert StepAt(states, events, n - 1);
      StepKeepsLocal(states[n - 1], events[n - 1]);
    }
  }

  /** After any interleaving of successful, failed and interrupted refreshes: while the latest success is
      younger than the stale window it is held as the last good value, and whatever is held as the last
      good value is the latest success. */
  lemma LastGoodIsLatestSuccess<V(!new)>(states: seq<State<V>>, events: seq<Event<V>>, n: nat)
    requires LocalRun(states, events) && n <= |events|
    ensures var s := states[n];
            && (SuccessWithin(s.lastSuccess, s.now, s.policy.staleTtl) ==>
                  s.local.Some? && s.local.value.envelope.lastGood == s.lastSuccess)
            && (s.local.Some? && s.local.value.envelope.lastGood.Some? ==>
                  s.local.value.envelope.lastGood == s.lastSuccess)
  {
    RunKeepsLocal(states, events, n);
  }

  /** The last good value handed out is that of the latest success, at most the stale window old. */
  predicate GoodIsRecent<V(==)>(served: Served<V>, last: Option<Record<V>>, now: real, policy: Policy) {
    served.lastGood.Some? ==>
      && last.Some? && last.value.success && served.lastGood == Some(last.value.value)
      && last.value.fetchedAt.Some? && now - last.value.fetchedAt.value <= policy.staleTtl
  }

  predicate AllRecent<V(==)>(result: Option<Served<V>>, last: Option<Record<V>>, now: real, policy: Policy) {
    result.Some? ==> GoodIsRecent(result.value, last, now, policy)
  }

  lemma ServedIsRecent<V>(envelope: Envelope<V>, last: Option<Record<V>>, now: real, policy: Policy, stale: bool)
    requires Remembers(envelope, last, now, policy) && (last.Some? ==> last.value.success)
    ensures AllRecent(CachedResult(envelope, now, policy), last, now, policy)
    ensures AllRecent(SuppressedByCircuit(envelope, now, policy), last, now, policy)
    ensures AllRecent(SuppressedByBudget(envelope, now, policy), last, now, policy)
    ensures AllRecent(ResultFrom(envelope, now, policy, false, stale, false, false), last, now, policy)
  {
  }

  /** The result a caller is about to give or has given. */
  function Given<V>(at: At<V>): Option<Served<V>> {
    match at
    case GivingBack(Returned(served)) => Some(served)
    case Releasing(Returned(served)) => Some(served)
    case Finished(Returned(served)) => Some(served)
    case _ => None
  }

  /** The result that the step just gave to caller `c`, if it gave one. */
  function NewlyGiven<V>(s: State<V>, s': State<V>, c: CallerId): Option<Served<V>> {
    if c !in s'.callers || (c in s.callers && Given(s.callers[c].at).Some?) then None else Given(s'.callers[c].at)
  }

  lemma LookupGivesRecent<V>(s: State<V>, e: Event<V>)
    requires LocalInv(s) && Enabled(s, e) && (e.CheckHot? || e.LookUp?)
    ensures AllRecent(NewlyGiven(s, Perform(s, e), e.c), s.lastSuccess, s.now, s.policy)
  {
    var c := e.c;
    assert LocalCaller(s, s.callers[c]);
    LookupForgetsOnlyOld(s);
    var looked := AfterLookup(s.local, s.now, s.policy);
    ServedIsRecent(if looked.Some? then looked.value.envelope else NoEnvelope(), s.lastSuccess, s.now, s.policy, false);
    HitGivesRecent(s);
  }

  lemma HitGivesRecent<V>(s: State<V>)
    requires LocalInv(s)
    ensures AllRecent(Hit(s), s.lastSuccess, s.now, s.policy)
  {
    if s.local.Some? {
      ServedIsRecent(s.local.value.envelope, s.lastSuccess, s.now, s.policy, false);
    }
  }

  lemma SuppressionGivesRecent<V>(s: State<V>, e: Event<V>)
    requires LocalInv(s) && Enabled(s, e) && (e.Decide? || e.Admit?)
    ensures AllRecent(NewlyGiven(s, Perform(s, e), e.c), s.lastSuccess, s.now, s.policy)
  {
    hide Remembers, GoodIsRecent;
    assert LocalCaller(s, s.callers[e.c]);
    ServedIsRecent(s.callers[e.c].seen, s.lastSuccess, s.now, s.policy, false);
  }

  lemma StoreGivesRecent<V>(s: State<V>, c: CallerId)
    requires LocalInv(s) && Enabled(s, Store(c))
    ensures var s' := DoStore(s, c); AllRecent(NewlyGiven(s, s', c), s'.lastSuccess, s.now, s.policy)
  {
    var caller := s.callers[c];
    assert LocalCaller(s, caller);
    RefreshedRemembers(caller.seen, caller.at.value, caller.at.success, s.lastSuccess, s.now, s.policy);
    var envelope := Refreshed(caller.seen, caller.at.value, caller.at.success, s.now, s.policy);
    var last := if caller.at.success then envelope.current else s.lastSuccess;
    ServedIsRecent(envelope, last, s.now, s.policy,
                   !caller.at.success && ValidLastGood(caller.seen, s.now, s.policy).Some?);
  }

  predicate MayGive<V>(e: Event<V>) {
    e.CheckHot? || e.LookUp? || e.Decide? || e.Admit? || e.Store?
  }

  lemma QuietStepsGiveNothing<V>(s: State<V>, e: Event<V>, c: CallerId)
    requires LocalInv(s) && Enabled(s, e) && !MayGive(e)
    ensures NewlyGiven(s, Perform(s, e), c) == None
  {
    NoRedisSteps(s, e);
    if e.TakeTurn? || e.Load? || e.GiveBack? || e.Release? || e.Interrupt? {
      TurnStepsGiveNothing(s, e, c);
    }
  }

  lemma TurnStepsGiveNothing<V>(s: State<V>, e: Event<V>, c: CallerId)
    requires LocalInv(s) && Enabled(s, e) && (e.TakeTurn? || e.Load? || e.GiveBack? || e.Release? || e.Interrupt?)
    ensures NewlyGiven(s, Perform(s, e), c) == None
  {
    match e
    case TakeTurn(d) => MoveGivesNothing(s, d, s.callers[d].(at := LookingUp), c);
    case Load(d, value, success) => MoveGivesNothing(s, d, s.callers[d].(at := Loaded(value, success)), c);
    case GiveBack(d) => MoveGivesNothing(s, d, s.callers[d].(at := Releasing(s.callers[d].at.result)), c);
    case Release(d, reply) => ReleaseGivesNothing(s, d, reply, c);
    case Interrupt(d, sent) => InterruptGivesNothing(s, d, sent, c);
  }

  lemma ReleaseGivesNothing<V>(s: State<V>, d: CallerId, reply: Reply, c: CallerId)
    requires d in s.callers && s.callers[d].at.Releasing?
    ensures NewlyGiven(s, DoRelease(s, d, reply), c) == None
  {
    MoveGivesNothing(s, d, DoRelease(s, d, reply).callers[d], c);
  }

  lemma InterruptGivesNothing<V>(s: State<V>, d: CallerId, sent: bool, c: CallerId)
    requires LocalInv(s) && Enabled(s, Interrupt(d, sent))
    ensures NewlyGiven(s, DoInterrupt(s, d, sent), c) == None
  {
    InterruptedLocally(s, d, sent);
    InterruptedGivesNothing(s, d, c);
  }

  lemma InterruptedGivesNothing<V>(s: State<V>, d: CallerId, c: CallerId)
    requires d in s.callers
    ensures NewlyGiven(s, Interrupted(s, d), c) == None
  {
    var caller := s.callers[d];
    if InRefresh(caller.at) {
      MoveGivesNothing(s, d, caller.(at := GivingBack(Raised)), c);
    } else if HasTurn(caller.at) {
      LeaveGivesNothing(s, d, caller.(cutOff := caller.cutOff || caller.at.GivingBack?), c);
    } else {
      MoveGivesNothing(s, d, caller.(at := Finished(Raised)), c);
    }
  }

  lemma LeaveGivesNothing<V>(s: State<V>, d: CallerId, caller: Caller<V>, c: CallerId)
    requires d in s.callers
    ensures NewlyGiven(s, Leave(s, d, caller, Raised), c) == None
  {
  }

  lemma MoveGivesNothing<V>(s: State<V>, d: CallerId, caller: Caller<V>, c: CallerId)
    requires d in s.callers && (Given(caller.at).Some? ==> Given(s.callers[d].at).Some?)
    ensures NewlyGiven(s, Put(s, d, caller), c) == None
  {
  }

  lemma OnlyTheStepperIsGiven<V>(s: State<V>, e: Event<V>, c: CallerId)
    requires Enabled(s, e) && MayGive(e) && c != e.c
    ensures NewlyGiven(s, Perform(s, e), c) == None
  {
    assert c in Perform(s, e).callers <==> c in s.callers;
  }

  lemma StepGivesRecent<V>(s: State<V>, e: Event<V>, c: CallerId)
    requires LocalInv(s) && Enabled(s, e)
    ensures var s' := Perform(s, e); AllRecent(NewlyGiven(s, s', c), s'.lastSuccess, s'.now, s'.policy)
  {
    if !MayGive(e) {
      QuietStepsGiveNothing(s, e, c);
    } else if c != e.c {
      OnlyTheStepperIsGiven(s, e, c);
    } else if e.CheckHot? || e.LookUp? {
      LookupGivesRecent(s, e);
    } else if e.Store? {
      StoreGivesRecent(s, e.c);
    } else {
      SuppressionGivesRecent(s, e);
    }
  }

  /** In every run without Redis, whatever result a step gives to a caller: the last good value in it is
      the latest success, at most the stale window old at that time. */
  lemma GivenGoodIsRecent<V(!new)>(states: seq<State<V>>, events: seq<Event<V>>, n: nat, c: CallerId)
    requires LocalRun(states, events) && n < |events|
    ensures var s, s' := states[n], states[n + 1];
            AllRecent(NewlyGiven(s, s', c), s'.lastSuccess, s'.now, s'.policy)
  {
    RunKeepsLocal(states, events, n);
    assert StepAt(states, events, n);
    StepGivesRecent(states[n], events[n], c);
  }
}
