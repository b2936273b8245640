/** The mutable records behind the steps of the refresh protocol: what each step of a caller does to the local
    entry and the Redis lock of its probe key (nabla/api/external_probe_cache.py). */
module ProbeCacheSteps {
  import opened ProbeCache
  import opened ProbeCacheProtocol
  import opened Wrappers

  ghost predicate Holds<V(0)>(records: ProbeKeyRecords<V>, s: State<V>)
    reads records
  {
    records.local == s.local && records.lock == s.lock
  }

  /** What a lookup leaves behind. */
  lemma LookUpLeaves<V>(s: State<V>, c: CallerId)
    requires Enabled(s, LookUp(c))
    ensures var s', local := DoLookUp(s, c), AfterLookup(s.local, s.now, s.policy);
            && s'.local == local && s'.lock == s.lock
            && s'.callers[c].seen == if local.Some? then local.value.envelope else NoEnvelope()
  {
    var local := AfterLookup(s.local, s.now, s.policy);
    var seen := if local.Some? then local.value.envelope else NoEnvelope();
    LookedUpLeaves(s.(local := local), c, s.callers[c].(seen := seen), Hit(s), CachedResult(seen, s.now, s.policy));
  }

  lemma LookedUpLeaves<V>(looked: State<V>, c: CallerId, caller: Caller<V>, hit: Option<Served<V>>,
                          cached: Option<Served<V>>)
    ensures var s' := LookedUp(looked, c, caller, hit, cached);
            s'.local == looked.local && s'.lock == looked.lock && c in s'.callers && s'.callers[c].seen == caller.seen
  {
    if hit.None? {
      LeaveOrLeaves(looked, c, caller.(at := AskingCircuit, redisUp := false), cached);
    } else {
      LeaveOrLeaves(looked, c, caller, hit);
    }
  }

  lemma LeaveOrLeaves<V>(looked: State<V>, c: CallerId, caller: Caller<V>, result: Option<Served<V>>)
    ensures var s' := LeaveOr(looked, c, caller, result);
            s'.local == looked.local && s'.lock == looked.lock && c in s'.callers && s'.callers[c].seen == caller.seen
  {
  }

  /** The lookup under the turn; a hot and fresh entry is the answer. */
  method LookUpRecords<V(0)>(records: ProbeKeyRecords<V>, policy: Policy, now: real, ghost s: State<V>,
                         ghost c: CallerId)
    returns (envelope: Option<Envelope<V>>, hit: Option<Served<V>>)
    requires Holds(records, s) && Enabled(s, LookUp(c)) && s.policy == policy && s.now == now
    modifies records
    ensures Holds(records, DoLookUp(s, c)) && hit == Hit(s)
    ensures DoLookUp(s, c).callers[c].seen == if envelope.Some? then envelope.value else NoEnvelope()
  {
    hide DoLookUp, CachedResult, CurrentFresh;
    LookUpLeaves(s, c);
    var hot: bool;
    envelope, hot := records.Get(policy, now);
    hit := if hot then CachedResult(envelope.value, now, policy) else None;
  }

  /** Asking Redis for the lock. */
  method TryLockRecords<V(0)>(records: ProbeKeyRecords<V>, token: Token, ttl: int, now: real, ghost s: State<V>,
                              ghost c: CallerId)
    returns (acquired: bool)
    requires Holds(records, s) && Enabled(s, TryLock(c, Answered))
    requires s.policy.lockTtl == ttl && s.now == now && s.callers[c].token == token
    modifies records
    ensures Holds(records, DoTryLock(s, c, Answered))
    ensures DoTryLock(s, c, Answered).callers[c].locked <==> s.callers[c].locked || acquired
  {
    hide Enabled, AfterAcquire, LockFree;
    acquired := records.AcquireLock(token, ttl, now);
  }

  /** Storing what the origin returned. */
  method StoreRecords<V(0)>(records: ProbeKeyRecords<V>, seen: Envelope<V>, value: V, success: bool, now: real,
                            policy: Policy, ghost s: State<V>, ghost c: CallerId)
    requires Holds(records, s) && Enabled(s, Store(c)) && s.policy == policy && s.now == now
    requires s.callers[c].seen == seen && s.callers[c].at == Loaded(value, success)
    modifies records
    ensures Holds(records, DoStore(s, c))
  {
    records.Put(Refreshed(seen, value, success, now, policy), now);
  }

  /** Releasing the Redis lock, if the caller believes to hold it. */
  method ReleaseRecords<V(0)>(records: ProbeKeyRecords<V>, token: Token, holds: bool, now: real, ghost s: State<V>,
                              ghost c: CallerId)
    requires Holds(records, s) && Enabled(s, Release(c, Answered))
    requires s.now == now && s.callers[c].token == token && holds == Sends(s.callers[c])
    modifies records
    ensures Holds(records, DoRelease(s, c, Answered))
  {
    if holds {
      records.ReleaseLock(token, now);
    }
  }
}
