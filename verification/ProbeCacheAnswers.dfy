/** Where each step takes a caller of the external probe cache, and what it is answered, in terms of the records and
    the policy's windows (nabla/api/external_probe_cache.py). */
module ProbeCacheAnswers {
  import opened ProbeCache
  import opened ProbeCacheProtocol
  import opened Wrappers

  // ---------------------------------------------------------------- what a state holds

  /** The local entry is inside one of the three windows. */
  ghost predicate StillKept<V>(s: State<V>) {
    s.local.Some? &&
    var age := s.now - s.local.value.storedAt;
    age < s.policy.successTtl || age < s.policy.failureTtl || age < s.policy.staleTtl
  }

  /** The local entry was stored less than five seconds ago, less than the window of its outcome ago, and what it
      observed is young. */
  ghost predicate HotNow<V>(s: State<V>) {
    && s.local.Some? && CurrentYoung(s.local.value.envelope, s.now, s.policy)
    && s.now - s.local.value.storedAt < 5.0
    && s.now - s.local.value.storedAt < if s.local.value.envelope.current.value.success then s.policy.successTtl
                                        else s.policy.failureTtl
  }

  /** What a lookup finds, if anything. */
  ghost predicate Finds<V>(s: State<V>, e: Envelope<V>) {
    if StillKept(s) then e == s.local.value.envelope else e == Envelope(None, None)
  }

  /** No other caller moves, and the caller stays who it is. */
  ghost predicate Alone<V>(s: State<V>, s': State<V>, c: CallerId) {
    && c in s.callers && c in s'.callers && s'.callers == s.callers[c := s'.callers[c]]
    && s'.callers[c].client == s.callers[c].client && s'.callers[c].token == s.callers[c].token
    && s'.policy == s.policy && s'.now == s.now && s'.tokens == s.tokens
  }

  ghost predicate KeepsRedis<V>(s: State<V>, s': State<V>) {
    s'.lock == s.lock && s'.remote == s.remote
  }

  ghost predicate KeepsLocal<V>(s: State<V>, s': State<V>) {
    s'.local == s.local && s'.lastSuccess == s.lastSuccess
  }

  /** What the caller has claimed and done stays as it is. */
  ghost predicate KeepsMarks<V>(a: Caller<V>, b: Caller<V>) {
    && b.locked == a.locked && b.owns == a.owns && b.attempted == a.attempted && b.released == a.released
    && b.cutOff == a.cutOff
  }

  // ---------------------------------------------------------------- answers

  /** The answer is the young current observation of the envelope, flagged if it failed beside a last good value. */
  ghost predicate AnswersYoung<V(!new)>(served: Served<V>, e: Envelope<V>, s: State<V>) {
    exists good :: HoldsGood(e, s.now, s.policy, good) && CurrentYoung(e, s.now, s.policy) &&
                   served == Served(e.current.value.value, good, true, !e.current.value.success && good.Some?, false)
  }

  /** The caller's turn is over with a young answer. */
  ghost predicate EndsYoung<V(!new)>(s: State<V>, s': State<V>, c: CallerId, e: Envelope<V>)
    requires c in s'.callers
  {
    && s'.turn == None && s'.callers[c].at.Finished? && s'.callers[c].at.end.Returned?
    && AnswersYoung(s'.callers[c].at.end.result, e, s)
  }

  /** What stands in while a peer refreshes, or while the budget is used up: the last good value, else whatever
      was observed, in any case flagged. */
  ghost predicate StandsIn<V(!new)>(served: Served<V>, e: Envelope<V>, s: State<V>, refreshing: bool) {
    exists good :: HoldsGood(e, s.now, s.policy, good) && served.lastGood == good &&
                   served.cached && served.stale && served.refreshing == refreshing &&
                   (if good.Some? then served.value == good.value
                    else e.current.Some? && served.value == e.current.value.value)
  }

  ghost predicate HasStandIn<V(!new)>(e: Envelope<V>, s: State<V>) {
    e.current.Some? || exists v :: HoldsGood(e, s.now, s.policy, Some(v))
  }

  /** What is served while the provider's circuit is open: the last good value in place of a failure, else whatever
      was observed, without a flag. */
  ghost predicate StandsInForCircuit<V(!new)>(served: Served<V>, e: Envelope<V>, s: State<V>) {
    && e.current.Some?
    && exists good :: HoldsGood(e, s.now, s.policy, good) && served.lastGood == good &&
                      served.cached && !served.refreshing &&
                      (if !e.current.value.success && good.Some? then served.stale && served.value == good.value
                       else !served.stale && served.value == e.current.value.value)
  }

  // ---------------------------------------------------------------- before the refresh

  /** A hot entry answers at once; everybody else waits for the turn. An entry outside its windows is dropped. */
  lemma CheckHotMoves<V(!new)>(s: State<V>, c: CallerId)
    requires s.policy.Valid() && Enabled(s, CheckHot(c))
    ensures var s' := Perform(s, CheckHot(c));
            && Alone(s, s', c) && KeepsRedis(s, s') && s'.turn == s.turn && s'.lastSuccess == s.lastSuccess
            && s'.local == (if StillKept(s) then s.local else None)
            && if HotNow(s) then
                 && s'.callers[c].at.Finished? && s'.callers[c].at.end.Returned?
                 && AnswersYoung(s'.callers[c].at.end.result, s.local.value.envelope, s)
               else s'.callers[c].at == WaitingForTurn
  {
    HitIsHot(s);
  }

  lemma HitIsHot<V(!new)>(s: State<V>)
    requires s.policy.Valid()
    ensures HotNow(s) <==> Hit(s).Some?
    ensures HotNow(s) ==> AnswersYoung(Hit(s).value, s.local.value.envelope, s)
    ensures AfterLookup(s.local, s.now, s.policy) == if StillKept(s) then s.local else None
  {
    if s.local.Some? {
      var e := s.local.value.envelope;
      StoredIsFound(e, s.local.value.storedAt, s.now, s.policy);
      CachedIsYoung(e, s);
    }
  }

  lemma CachedIsYoung<V(!new)>(e: Envelope<V>, s: State<V>)
    ensures CachedResult(e, s.now, s.policy).Some? <==> CurrentYoung(e, s.now, s.policy)
    ensures CachedResult(e, s.now, s.policy).Some? ==> AnswersYoung(CachedResult(e, s.now, s.policy).value, e, s)
  {
    var good := AnswersMeaning(e, s.now, s.policy);
  }

  /** Under the turn a hot entry answers; else Redis is asked, and without a client a young entry still answers. */
  ghost predicate LookUpGoes<V(!new)>(s: State<V>, s': State<V>, c: CallerId)
    requires c in s.callers && c in s'.callers
  {
    var caller, e := s'.callers[c], s'.callers[c].seen;
    if HotNow(s) then EndsYoung(s, s', c, e)
    else if caller.client then caller.at == ReadingRemote && caller.redisUp && s'.turn == s.turn
    else if CurrentYoung(e, s.now, s.policy) then EndsYoung(s, s', c, e)
    else caller.at == AskingCircuit && !caller.redisUp && s'.turn == s.turn
  }

  lemma LookUpMoves<V(!new)>(s: State<V>, c: CallerId)
    requires s.policy.Valid() && Enabled(s, LookUp(c))
    ensures var s' := Perform(s, LookUp(c));
            && Alone(s, s', c) && KeepsRedis(s, s') && s'.lastSuccess == s.lastSuccess
            && s'.local == (if StillKept(s) then s.local else None)
            && Finds(s, s'.callers[c].seen) && KeepsMarks(s.callers[c], s'.callers[c])
            && LookUpGoes(s, s', c)
  {
    LookUpIs(s, c);
    HitIsHot(s);
    HotIsKept(s);
    LookUpEnds(s, Perform(s, LookUp(c)), c);
  }

  lemma LookUpIs<V>(s: State<V>, c: CallerId)
    requires Enabled(s, LookUp(c))
    ensures c in s.callers
    ensures var local := AfterLookup(s.local, s.now, s.policy);
            var e := if local.Some? then local.value.envelope else NoEnvelope();
            Perform(s, LookUp(c)) ==
            LookedUp(s.(local := local), c, s.callers[c].(seen := e), Hit(s), CachedResult(e, s.now, s.policy))
  {
  }

  lemma LookUpEnds<V(!new)>(s: State<V>, s': State<V>, c: CallerId)
    requires c in s.callers && (HotNow(s) ==> StillKept(s))
    requires HotNow(s) <==> Hit(s).Some?
    requires HotNow(s) ==> AnswersYoung(Hit(s).value, s.local.value.envelope, s)
    requires AfterLookup(s.local, s.now, s.policy) == if StillKept(s) then s.local else None
    requires var local := AfterLookup(s.local, s.now, s.policy);
             var e := if local.Some? then local.value.envelope else NoEnvelope();
             s' == LookedUp(s.(local := local), c, s.callers[c].(seen := e), Hit(s), CachedResult(e, s.now, s.policy))
    ensures Alone(s, s', c) && KeepsRedis(s, s') && s'.lastSuccess == s.lastSuccess
    ensures s'.local == (if StillKept(s) then s.local else None)
    ensures Finds(s, s'.callers[c].seen) && KeepsMarks(s.callers[c], s'.callers[c])
    ensures LookUpGoes(s, s', c)
  {
    hide HotNow, AnswersYoung, Hit, CurrentYoung, AfterLookup, CachedResult, LookedUp, Alone, Moved, LookUpGoes;
    var local := AfterLookup(s.local, s.now, s.policy);
    var e := if local.Some? then local.value.envelope else NoEnvelope();
    var cached := CachedResult(e, s.now, s.policy);
    CachedIsYoung(e, s);
    var caller, turn := LookedUpMoves(s, local, c, s.callers[c].(seen := e), Hit(s), cached);
    MovedAlone(s, local, turn, c, caller);
    LookUpBranches(s, s', c, e, Hit(s), cached);
  }

  lemma LookUpBranches<V(!new)>(s: State<V>, s': State<V>, c: CallerId, e: Envelope<V>, hit: Option<Served<V>>,
                                cached: Option<Served<V>>)
    requires c in s.callers && c in s'.callers && s'.callers[c].seen == e
    requires HotNow(s) <==> hit.Some?
    requires hit.Some? ==> AnswersYoung(hit.value, e, s)
    requires CurrentYoung(e, s.now, s.policy) <==> cached.Some?
    requires cached.Some? ==> AnswersYoung(cached.value, e, s)
    requires var caller := s'.callers[c];
             if hit.Some? then s'.turn == None && caller.at == Finished(Returned(hit.value))
             else if caller.client then caller.at == ReadingRemote && caller.redisUp && s'.turn == s.turn
             else if cached.Some? then s'.turn == None && caller.at == Finished(Returned(cached.value))
             else caller.at == AskingCircuit && !caller.redisUp && s'.turn == s.turn
    ensures LookUpGoes(s, s', c)
  {
    hide HotNow, AnswersYoung, CurrentYoung;
  }

  /** The state after one caller has moved. */
  function Moved<V>(s: State<V>, local: Option<LocalEntry<V>>, turn: Option<CallerId>, c: CallerId,
                    caller: Caller<V>): State<V>
  {
    s.(local := local, turn := turn, callers := s.callers[c := caller])
  }

  lemma MovedAlone<V>(s: State<V>, local: Option<LocalEntry<V>>, turn: Option<CallerId>, c: CallerId,
                      caller: Caller<V>)
    requires c in s.callers && caller.client == s.callers[c].client && caller.token == s.callers[c].token
    ensures var s' := Moved(s, local, turn, c, caller);
            && Alone(s, s', c) && KeepsRedis(s, s') && s'.lastSuccess == s.lastSuccess && s'.local == local
            && s'.turn == turn && s'.callers[c] == caller
  {
  }

  /** Neither who the caller is nor what it has seen, claimed or done changes. */
  ghost predicate SameCaller<V>(a: Caller<V>, b: Caller<V>) {
    b.client == a.client && b.token == a.token && b.seen == a.seen && KeepsMarks(a, b)
  }

  lemma LookedUpMoves<V>(s: State<V>, local: Option<LocalEntry<V>>, c: CallerId, was: Caller<V>,
                         hit: Option<Served<V>>, cached: Option<Served<V>>)
    returns (caller: Caller<V>, turn: Option<CallerId>)
    ensures LookedUp(s.(local := local), c, was, hit, cached) == Moved(s, local, turn, c, caller)
    ensures SameCaller(was, caller)
    ensures if hit.Some? then turn == None && caller.at == Finished(Returned(hit.value))
            else if caller.client then caller.at == ReadingRemote && caller.redisUp && turn == s.turn
            else if cached.Some? then turn == None && caller.at == Finished(Returned(cached.value))
            else caller.at == AskingCircuit && !caller.redisUp && turn == s.turn
  {
    if hit.Some? || !was.client {
      var asking := if hit.Some? then was else was.(at := AskingCircuit, redisUp := false);
      caller, turn := LeftOrGoesOn(s, local, c, asking, if hit.Some? then hit else cached);
    } else {
      caller, turn := was.(at := ReadingRemote, redisUp := true), s.turn;
    }
  }

  lemma LeftOrGoesOn<V>(s: State<V>, local: Option<LocalEntry<V>>, c: CallerId, was: Caller<V>,
                        result: Option<Served<V>>)
    returns (caller: Caller<V>, turn: Option<CallerId>)
    ensures LeaveOr(s.(local := local), c, was, result) == Moved(s, local, turn, c, caller)
    ensures if result.Some? then turn == None && caller == was.(at := Finished(Returned(result.value)))
            else turn == s.turn && caller == was
  {
    caller, turn := was, s.turn;
    if result.Some? {
      caller, turn := was.(at := Finished(Returned(result.value))), None;
    }
  }

  lemma HotIsKept<V>(s: State<V>)
    ensures HotNow(s) ==> StillKept(s)
  {
  }

  /** A young envelope in Redis answers; any envelope there is kept locally and seen. Without one, or with one that
      is no longer young, the lock is next. When Redis does not answer, what was seen answers while it is young. */
  lemma ReadRemoteMoves<V(!new)>(s: State<V>, c: CallerId, reply: Reply)
    requires Enabled(s, ReadRemote(c, reply))
    ensures var s' := Perform(s, ReadRemote(c, reply));
            var seen, caller := s.callers[c].seen, s'.callers[c];
            && Alone(s, s', c) && KeepsRedis(s, s') && s'.lastSuccess == s.lastSuccess
            && KeepsMarks(s.callers[c], caller)
            && if reply.Answered? && s.remote.Some? then
                 && s'.local == Some(LocalEntry(s.remote.value, s.now)) && caller.seen == s.remote.value
                 && if CurrentYoung(s.remote.value, s.now, s.policy) then EndsYoung(s, s', c, s.remote.value)
                    else caller.at == Acquiring && s'.turn == s.turn && caller.redisUp == s.callers[c].redisUp
               else
                 && s'.local == s.local && caller.seen == seen
                 && if reply.Answered? then
                      caller.at == Acquiring && s'.turn == s.turn && caller.redisUp == s.callers[c].redisUp
                    else if CurrentYoung(seen, s.now, s.policy) then EndsYoung(s, s', c, seen)
                    else caller.at == AskingCircuit && !caller.redisUp && s'.turn == s.turn
  {
    hide AnswersYoung, CurrentYoung, CachedResult, ValidLastGood;
    CachedIsYoung(s.callers[c].seen, s);
    if s.remote.Some? {
      CachedIsYoung(s.remote.value, s);
    }
  }

  /** The lock is taken if it is absent or out of time and the command goes through, and the caller knows that it has
      it if Redis answers. Whoever does not get it waits for the peer that has it; when Redis does not answer the
      caller goes on alone. */
  lemma TryLockMoves<V>(s: State<V>, c: CallerId, reply: Reply)
    requires Enabled(s, TryLock(c, reply))
    ensures var s' := Perform(s, TryLock(c, reply));
            var caller, was := s'.callers[c], s.callers[c];
            var free := s.lock.None? || s.now >= s.lock.value.expiresAt;
            && Alone(s, s', c) && KeepsLocal(s, s') && s'.remote == s.remote && s'.turn == s.turn
            && caller.seen == was.seen && caller.attempted
            && s'.lock == (if free && !reply.LostBefore?
                           then Some(RedisLock(was.token, s.now + (if s.policy.lockTtl <= 1 then 1.0
                                                                   else s.policy.lockTtl as real)))
                           else s.lock)
            && (caller.locked <==> was.locked || (free && reply.Answered?))
            && caller.redisUp == (was.redisUp && reply.Answered?)
            && caller.at == if reply.Answered? && !free then AwaitingPeer else AskingCircuit
  {
  }

  /** A peer is only found once it has left a young envelope, which then answers if it still is young; else, and
      when waiting is over, what was seen stands in, and with nothing seen the caller goes on. */
  lemma PeerMoves<V(!new)>(s: State<V>, e: Event<V>)
    requires Enabled(s, e) && (e.FindPeer? || e.GiveUpOnPeer? || e.LosePeer? || e.AcceptPeer?)
    ensures var s', c := Perform(s, e), e.c;
            var seen, caller := s.callers[c].seen, s'.callers[c];
            && Alone(s, s', c) && KeepsRedis(s, s') && s'.lastSuccess == s.lastSuccess
            && caller.seen == seen && KeepsMarks(s.callers[c], caller)
            && (!e.AcceptPeer? ==> s'.local == s.local)
            && (e.FindPeer? ==> s'.turn == s.turn && s.remote.Some? && CurrentYoung(s.remote.value, s.now, s.policy) &&
                                caller.at == PeerFound(s.remote.value) && caller.redisUp == s.callers[c].redisUp)
            && (e.LosePeer? ==> s'.turn == s.turn && caller.at == AskingCircuit && !caller.redisUp)
            && (e.AcceptPeer? ==> s'.local == Some(LocalEntry(s.callers[c].at.peer, s.now)))
            && (e.AcceptPeer? && CurrentYoung(s.callers[c].at.peer, s.now, s.policy) ==>
                  EndsYoung(s, s', c, s.callers[c].at.peer))
            && (e.GiveUpOnPeer? || (e.AcceptPeer? && !CurrentYoung(s.callers[c].at.peer, s.now, s.policy)) ==>
                  WaitIsOver(s, s', c, seen))
  {
    hide AnswersYoung, CurrentYoung, StandsIn, HasStandIn;
    PeerStandIn(s.callers[e.c].seen, s);
    if e.AcceptPeer? {
      CachedIsYoung(s.callers[e.c].at.peer, s);
    }
    if e.FindPeer? {
      FreshIsYoung(s.remote.value, s.now, s.policy);
    }
  }

  ghost predicate WaitIsOver<V(!new)>(s: State<V>, s': State<V>, c: CallerId, seen: Envelope<V>)
    requires c in s.callers && c in s'.callers
  {
    if HasStandIn(seen, s) then
      && s'.turn == None && s'.callers[c].at.Finished? && s'.callers[c].at.end.Returned?
      && StandsIn(s'.callers[c].at.end.result, seen, s, true)
    else s'.turn == s.turn && s'.callers[c].at == AskingCircuit && s'.callers[c].redisUp == s.callers[c].redisUp
  }

  lemma PeerStandIn<V(!new)>(e: Envelope<V>, s: State<V>)
    ensures StaleWhilePeerRefreshes(e, s.now, s.policy).Some? <==> HasStandIn(e, s)
    ensures HasStandIn(e, s) ==> StandsIn(StaleWhilePeerRefreshes(e, s.now, s.policy).value, e, s, true)
    ensures SuppressedByBudget(e, s.now, s.policy).Some? <==> HasStandIn(e, s)
    ensures HasStandIn(e, s) ==> StandsIn(SuppressedByBudget(e, s.now, s.policy).value, e, s, false)
  {
    var good := AnswersMeaning(e, s.now, s.policy);
    if good.Some? {
      assert HoldsGood(e, s.now, s.policy, Some(good.value));
    } else {
      forall v ensures !HoldsGood(e, s.now, s.policy, Some(v)) {
        assert HoldsGood(e, s.now, s.policy, Some(v)) ==> (good == Some(v) <==> Some(v) == Some(v));
      }
    }
  }

  // ---------------------------------------------------------------- the refresh

  /** An open circuit answers with what was seen, without a refresh; a closed one, or nothing seen, starts it. */
  lemma DecideMoves<V(!new)>(s: State<V>, c: CallerId, allowed: bool, owns: bool)
    requires Enabled(s, Decide(c, allowed, owns))
    ensures var s' := Perform(s, Decide(c, allowed, owns));
            var seen, caller := s.callers[c].seen, s'.callers[c];
            && Alone(s, s', c) && KeepsRedis(s, s') && KeepsLocal(s, s') && s'.turn == s.turn && caller.seen == seen
            && caller.owns == owns && caller.locked == s.callers[c].locked && caller.redisUp == s.callers[c].redisUp
            && if allowed || seen.current.None? then caller.at == AskingBudget && caller.began
               else
                 && !caller.began && caller.at.Releasing? && caller.at.outcome.Returned?
                 && StandsInForCircuit(caller.at.outcome.result, seen, s)
  {
    var good := AnswersMeaning(s.callers[c].seen, s.now, s.policy);
  }

  /** A used-up budget ends the refresh with what stands in, if anything; else the load starts. */
  lemma AdmitMoves<V(!new)>(s: State<V>, c: CallerId, allowed: bool)
    requires Enabled(s, Admit(c, allowed))
    ensures var s' := Perform(s, Admit(c, allowed));
            var seen, caller := s.callers[c].seen, s'.callers[c];
            && Alone(s, s', c) && KeepsRedis(s, s') && KeepsLocal(s, s') && s'.turn == s.turn && caller.seen == seen
            && KeepsMarks(s.callers[c], caller) && caller.redisUp == s.callers[c].redisUp
            && if allowed || !HasStandIn(seen, s) then caller.at == Loading
               else
                 && caller.at.GivingBack? && caller.at.result.Returned?
                 && StandsIn(caller.at.result.result, seen, s, false)
  {
    hide StandsIn, HasStandIn;
    PeerStandIn(s.callers[c].seen, s);
  }

  /** The envelope of a finished load: observed now, a success being the last good value, and a failure leaving the
      previous one if that is inside the stale window. */
  ghost predicate LoadedEnvelope<V(!new)>(e: Envelope<V>, seen: Envelope<V>, value: V, success: bool, s: State<V>) {
    && e.current == Some(Record(value, success, Some(s.now)))
    && (success ==> e.lastGood == e.current)
    && (!success ==> if exists v :: HoldsGood(seen, s.now, s.policy, Some(v)) then e.lastGood == seen.lastGood
                     else e.lastGood == None)
  }

  /** The answer of a finished load: the value loaded, never from a cache, flagged if it failed and a last good value
      stands beside it. */
  ghost predicate AnswersLoaded<V(!new)>(outcome: Outcome<V>, e: Envelope<V>, s: State<V>) {
    exists good :: HoldsGood(e, s.now, s.policy, good) && e.current.Some? && outcome.Returned? &&
                   outcome.result.value == e.current.value.value && outcome.result.lastGood == good &&
                   !outcome.result.cached && !outcome.result.refreshing
  }

  /** What was loaded is kept locally, and goes to Redis if that has been up; else the refresh ends. */
  lemma StoreMoves<V(!new)>(s: State<V>, c: CallerId)
    requires s.policy.Valid() && Enabled(s, Store(c))
    ensures var s' := Perform(s, Store(c));
            var was, caller := s.callers[c], s'.callers[c];
            && Alone(s, s', c) && KeepsRedis(s, s') && s'.turn == s.turn && KeepsMarks(was, caller)
            && s'.local.Some? && s'.local.value.storedAt == s.now
            && LoadedEnvelope(s'.local.value.envelope, was.seen, was.at.value, was.at.success, s)
            && s'.lastSuccess == (if was.at.success then s'.local.value.envelope.current else s.lastSuccess)
            && var stale := !was.at.success && exists v :: HoldsGood(was.seen, s.now, s.policy, Some(v));
               if was.client && was.redisUp then caller.at == WritingRemote(s'.local.value.envelope, stale)
               else
                 && caller.at.GivingBack? && AnswersLoaded(caller.at.result, s'.local.value.envelope, s)
                 && caller.at.result.result.stale == stale
  {
    hide Refreshed, FromOrigin, ValidLastGood, LoadedEnvelope, AnswersLoaded, HoldsGood;
    var was := s.callers[c];
    var e := Refreshed(was.seen, was.at.value, was.at.success, s.now, s.policy);
    GoodSeen(was.seen, s);
    RefreshedIsLoaded(was.seen, was.at.value, was.at.success, s);
    OriginAnswers(e, s, !was.at.success && ValidLastGood(was.seen, s.now, s.policy).Some?);
  }

  lemma RefreshedIsLoaded<V(!new)>(seen: Envelope<V>, value: V, success: bool, s: State<V>)
    ensures var e := Refreshed(seen, value, success, s.now, s.policy);
            LoadedEnvelope(e, seen, value, success, s) && e.current.Some? && (success ==> e.lastGood == e.current)
  {
    GoodSeen(seen, s);
  }

  lemma OriginAnswers<V(!new)>(e: Envelope<V>, s: State<V>, stale: bool)
    requires e.current.Some?
    ensures var outcome := FromOrigin(e, s.now, s.policy, stale);
            AnswersLoaded(outcome, e, s) && outcome.Returned? && outcome.result.stale == stale
  {
    GoodHeld(e, s.now, s.policy);
  }

  lemma GoodSeen<V(!new)>(seen: Envelope<V>, s: State<V>)
    ensures ValidLastGood(seen, s.now, s.policy).Some? <==> exists v :: HoldsGood(seen, s.now, s.policy, Some(v))
    ensures ValidLastGood(seen, s.now, s.policy).Some? ==> ValidLastGood(seen, s.now, s.policy) == seen.lastGood
  {
    GoodHeld(seen, s.now, s.policy);
    var record := ValidLastGood(seen, s.now, s.policy);
    if record.Some? {
      assert HoldsGood(seen, s.now, s.policy, Some(record.value.value));
    } else {
      forall v ensures !HoldsGood(seen, s.now, s.policy, Some(v)) {
        NothingGood(seen, s, v);
      }
    }
  }

  lemma NothingGood<V(!new)>(seen: Envelope<V>, s: State<V>, v: V)
    requires ValidLastGood(seen, s.now, s.policy) == None
    ensures !HoldsGood(seen, s.now, s.policy, Some(v))
  {
    assert forall r, at :: seen.lastGood == Some(r) && r.fetchedAt == Some(at) ==> s.now - at > s.policy.staleTtl;
  }

  /** What is written reaches Redis unless the command is lost, and then the refresh ends with the loaded value. */
  lemma WriteRemoteMoves<V(!new)>(s: State<V>, c: CallerId, reply: Reply)
    requires Enabled(s, WriteRemote(c, reply)) && s.callers[c].at.written.current.Some?
    ensures var s' := Perform(s, WriteRemote(c, reply));
            var was, caller := s.callers[c], s'.callers[c];
            && Alone(s, s', c) && KeepsLocal(s, s') && s'.lock == s.lock && s'.turn == s.turn && KeepsMarks(was, caller)
            && s'.remote == (if reply.LostBefore? then s.remote else Some(was.at.written))
            && caller.at.GivingBack? && AnswersLoaded(caller.at.result, was.at.written, s)
            && caller.at.result.result.stale == was.at.stale && caller.redisUp == reply.Answered?
  {
    OriginAnswers(s.callers[c].at.written, s, s.callers[c].at.stale);
  }

  /** The ends of a refresh change neither its outcome nor anything else but the lock, which goes if it is the
      caller's own and the command goes through. */
  lemma EndMoves<V>(s: State<V>, e: Event<V>)
    requires Enabled(s, e) && (e.GiveBack? || e.Release?)
    ensures var s', c := Perform(s, e), e.c;
            var was, caller := s.callers[c], s'.callers[c];
            && Alone(s, s', c) && KeepsLocal(s, s') && s'.remote == s.remote
            && (e.GiveBack? ==> s'.lock == s.lock && s'.turn == s.turn && caller.at == Releasing(was.at.result))
            && (e.Release? ==>
                  && s'.turn == None && caller.at == Finished(was.at.outcome)
                  && (caller.released <==> was.client && was.locked)
                  && s'.lock == if was.client && was.locked && !e.reply.LostBefore? && s.lock.Some?
                                   && s.now < s.lock.value.expiresAt && s.lock.value.token == was.token
                                then None else s.lock)
  {
  }

  /** Waiting, arriving and taking the turn. */
  lemma OtherMoves<V>(s: State<V>, e: Event<V>)
    requires Enabled(s, e) && (e.TakeTurn? || e.Load? || e.Enter? || e.Tick?)
    ensures var s' := Perform(s, e);
            && KeepsRedis(s, s') && KeepsLocal(s, s')
            && (e.TakeTurn? ==> Alone(s, s', e.c) && s.turn == None && s'.turn == Some(e.c) &&
                                s'.callers[e.c].at == LookingUp)
            && (e.Load? ==> Alone(s, s', e.c) && s'.turn == s.turn && s'.callers[e.c].at == Loaded(e.value, e.success))
            && (e.Enter? ==>
                  && e.c !in s.callers && e.c in s'.callers && s'.turn == s.turn
                  && s'.callers[e.c].at == Entering && s'.callers[e.c].client == e.client
                  && s'.callers[e.c].token == e.token && e.token !in s.tokens && e.token in s'.tokens
                  && !s'.callers[e.c].locked && !s'.callers[e.c].began)
            && (e.Tick? ==> s'.callers == s.callers && s'.turn == s.turn && s'.now == s.now + e.elapsed >= s.now)
  {
  }

  /** An interrupt takes a caller out of its refresh by way of giving the slot back, and out of everything else at
      once; a command that it hits may have gone through. */
  lemma InterruptMoves<V>(s: State<V>, c: CallerId, sent: bool)
    requires Enabled(s, Interrupt(c, sent))
    ensures var s' := Perform(s, Interrupt(c, sent));
            var was, caller := s.callers[c], s'.callers[c];
            && Alone(s, s', c) && KeepsLocal(s, s')
            && (if was.at.AskingBudget? || was.at.Loading? || was.at.Loaded? || was.at.WritingRemote?
                then caller.at == GivingBack(Raised) && s'.turn == s.turn
                else caller.at == Finished(Raised) && (s.turn == Some(c) ==> HasTurn(was.at) ==> s'.turn == None))
            && s'.remote == (if was.at.WritingRemote? && sent then Some(was.at.written) else s.remote)
            && (s'.lock != s.lock ==> sent && (was.at.Acquiring? || was.at.Releasing?))
  {
  }

  // ---------------------------------------------------------------- over whole runs

  /** An observation that the caller could find: locally, in Redis, seen before, or left by the peer. */
  ghost predicate Findable<V>(s: State<V>, c: CallerId, e: Envelope<V>) {
    || (s.local.Some? && s.local.value.envelope == e)
    || s.remote == Some(e)
    || (c in s.callers && (s.callers[c].seen == e || s.callers[c].at == PeerFound(e)))
  }

  ghost predicate FoundYoung<V(!new)>(s: State<V>, c: CallerId, served: Served<V>) {
    exists e :: Findable(s, c, e) && AnswersYoung(served, e, s)
  }

  /** In every run, whoever is answered by a lookup, of the local entry, of Redis or of a peer's envelope, and not
      told that a peer is refreshing, is given an observation that is younger than the policy's window for its
      outcome. */
  lemma LookupsGiveYoung<V(!new)>(states: seq<State<V>>, events: seq<Event<V>>, n: nat, c: CallerId)
    requires Run(states, events) && n < |events| && states[n].policy.Valid()
    requires events[n] in {CheckHot(c), LookUp(c), AcceptPeer(c)} || (events[n].ReadRemote? && events[n].c == c)
    requires c in states[n + 1].callers
    requires var at := states[n + 1].callers[c].at; at.Finished? && at.end.Returned? && !at.end.result.refreshing
    ensures FoundYoung(states[n], c, states[n + 1].callers[c].at.end.result)
  {
    assert StepAt(states, events, n);
    var s, e := states[n], events[n];
    var served := states[n + 1].callers[c].at.end.result;
    match e
    case CheckHot(_) => CheckHotMoves(s, c);
    case LookUp(_) =>
      LookUpMoves(s, c);
      HotIsKept(s);
      LookedUpYoung(s, c);
    case ReadRemote(_, reply) => ReadRemoteMoves(s, c, reply);
    case AcceptPeer(_) => PeerMoves(s, e);
  }

  lemma LookedUpYoung<V(!new)>(s: State<V>, c: CallerId)
    requires s.policy.Valid() && Enabled(s, LookUp(c))
    requires var at := Perform(s, LookUp(c)).callers[c].at; at.Finished? && at.end.Returned?
    ensures FoundYoung(s, c, Perform(s, LookUp(c)).callers[c].at.end.result)
  {
    LookUpMoves(s, c);
    HotIsKept(s);
    assert StillKept(s);
    assert Findable(s, c, s.local.value.envelope);
  }
}
