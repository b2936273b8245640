/** The records of the external probe cache for one probe key: the local entry with its hot window,
    the envelope with its last good value, and the token lock in Redis
    (nabla/api/external_probe_cache.py and nabla/api/external_probe_cache_redis.py). */
module ProbeCache {
  import opened Reals
  import opened Wrappers

  const L1_HOT_TTL_SEC := 5.0

  datatype Policy = Policy(successTtl: real, failureTtl: real, staleTtl: real, lockTtl: int)
  {
    /** No window is negative. The policy's own validator accepts no others, and asks for more. */
    predicate Valid() {
      successTtl >= 0.0 && failureTtl >= 0.0 && staleTtl >= 0.0
    }

    function TtlFor(success: bool): real {
      if success then successTtl else failureTtl
    }

    /** How long an entry is kept at all: the longest of the evidence windows. */
    function Retention(): real {
      Max(successTtl, Max(failureTtl, staleTtl))
    }
  }

  /** One observation; a remote record may lack its time. */
  datatype Record<V> = Record(value: V, success: bool, fetchedAt: Option<real>)

  datatype Envelope<V> = Envelope(current: Option<Record<V>>, lastGood: Option<Record<V>>)

  datatype LocalEntry<V> = LocalEntry(envelope: Envelope<V>, storedAt: real)

  datatype Served<V> = Served(value: V, lastGood: Option<V>, cached: bool, stale: bool, refreshing: bool)

  function ValidLastGood<V>(envelope: Envelope<V>, now: real, policy: Policy): Option<Record<V>> {
    match envelope.lastGood
    case None => None
    case Some(record) =>
      if record.fetchedAt.Some? && now - record.fetchedAt.value <= policy.staleTtl then Some(record) else None
  }

  predicate CurrentFresh<V>(envelope: Envelope<V>, now: real, policy: Policy) {
    && envelope.current.Some?
    && envelope.current.value.fetchedAt.Some?
    && now - envelope.current.value.fetchedAt.value < policy.TtlFor(envelope.current.value.success)
  }

  predicate FailedWithLastGood<V>(envelope: Envelope<V>, now: real, policy: Policy) {
    && envelope.current.Some? && !envelope.current.value.success
    && ValidLastGood(envelope, now, policy).Some?
  }

  /** The result an envelope can serve: the last good value if that is asked for and valid, else the
      current value, else nothing. */
  function ResultFrom<V>(envelope: Envelope<V>, now: real, policy: Policy, cached: bool, stale: bool,
                         serveLastGood: bool, refreshing: bool): Option<Served<V>>
  {
    var good := match ValidLastGood(envelope, now, policy)
      case Some(record) => Some(record.value)
      case None => None;
    if serveLastGood && good.Some? then Some(Served(good.value, good, cached, stale, refreshing))
    else
      match envelope.current
      case Some(record) => Some(Served(record.value, good, cached, stale, refreshing))
      case None => None
  }

  /** A cached result is served only while the current observation is fresh. */
  function CachedResult<V>(envelope: Envelope<V>, now: real, policy: Policy): Option<Served<V>> {
    if !CurrentFresh(envelope, now, policy) then None
    else ResultFrom(envelope, now, policy, true, FailedWithLastGood(envelope, now, policy), false, false)
  }

  function SuppressedByCircuit<V>(envelope: Envelope<V>, now: real, policy: Policy): Option<Served<V>> {
    var failed := FailedWithLastGood(envelope, now, policy);
    ResultFrom(envelope, now, policy, true, failed, failed, false)
  }

  function SuppressedByBudget<V>(envelope: Envelope<V>, now: real, policy: Policy): Option<Served<V>> {
    ResultFrom(envelope, now, policy, true, true, ValidLastGood(envelope, now, policy).Some?, false)
  }

  function StaleWhilePeerRefreshes<V>(envelope: Envelope<V>, now: real, policy: Policy): Option<Served<V>> {
    ResultFrom(envelope, now, policy, true, true, true, true)
  }

  /** The envelope a finished load leaves: a success becomes the last good value, a failure keeps the
      previous one while it is valid. */
  function Refreshed<V>(previous: Envelope<V>, value: V, success: bool, now: real, policy: Policy): Envelope<V> {
    var current := Record(value, success, Some(now));
    Envelope(Some(current), if success then Some(current) else ValidLastGood(previous, now, policy))
  }

  function NoEnvelope<V>(): Envelope<V> {
    Envelope(None, None)
  }

  /** An answer that is served from what is cached, whatever the reason. */
  predicate ServedFrom<V(==)>(result: Option<Served<V>>, envelope: Envelope<V>, now: real, policy: Policy) {
    || result == CachedResult(envelope, now, policy)
    || result == SuppressedByCircuit(envelope, now, policy)
    || result == SuppressedByBudget(envelope, now, policy)
    || result == StaleWhilePeerRefreshes(envelope, now, policy)
  }

  // ---------------------------------------------------------------- what is served, in the policy's own terms

  /** A success is young for the time of successes, a failure for that of failures. */
  ghost predicate Young<V>(record: Record<V>, now: real, policy: Policy) {
    && record.fetchedAt.Some?
    && (record.success ==> now - record.fetchedAt.value < policy.successTtl)
    && (!record.success ==> now - record.fetchedAt.value < policy.failureTtl)
  }

  ghost predicate CurrentYoung<V>(envelope: Envelope<V>, now: real, policy: Policy) {
    envelope.current.Some? && Young(envelope.current.value, now, policy)
  }

  /** The last good value, if its time is known and at most the stale window past. */
  ghost predicate HoldsGood<V(!new)>(envelope: Envelope<V>, now: real, policy: Policy, good: Option<V>) {
    forall v :: good == Some(v) <==>
      exists record, at :: envelope.lastGood == Some(record) && record.value == v && record.fetchedAt == Some(at) &&
                           now - at <= policy.staleTtl
  }

  lemma GoodHeld<V(!new)>(envelope: Envelope<V>, now: real, policy: Policy)
    ensures var record := ValidLastGood(envelope, now, policy);
            HoldsGood(envelope, now, policy, if record.Some? then Some(record.value.value) else None)
    ensures ValidLastGood(envelope, now, policy).Some? ==> ValidLastGood(envelope, now, policy) == envelope.lastGood
  {
  }

  lemma FreshIsYoung<V>(envelope: Envelope<V>, now: real, policy: Policy)
    ensures CurrentFresh(envelope, now, policy) <==> CurrentYoung(envelope, now, policy)
  {
  }

  /** Served as it is, flagged as stale or not. */
  ghost predicate ServesCurrent<V>(result: Option<Served<V>>, envelope: Envelope<V>, good: Option<V>, stale: bool,
                                   refreshing: bool)
  {
    && envelope.current.Some?
    && result == Some(Served(envelope.current.value.value, good, true, stale, refreshing))
  }

  /** Replaced by the last good value. */
  ghost predicate ServesGood<V>(result: Option<Served<V>>, good: Option<V>, refreshing: bool) {
    good.Some? && result == Some(Served(good.value, good, true, true, refreshing))
  }

  /** What each kind of cached answer is, in terms of the records and the policy's windows: a lookup serves a young
      current observation only, flagged if it failed beside a last good value; an open circuit puts the last good
      value in place of a failure and otherwise serves whatever was observed; an exhausted budget and a refreshing
      peer prefer the last good value. */
  lemma AnswersMeaning<V(!new)>(e: Envelope<V>, now: real, policy: Policy) returns (good: Option<V>)
    ensures HoldsGood(e, now, policy, good)
    ensures if CurrentYoung(e, now, policy)
            then ServesCurrent(CachedResult(e, now, policy), e, good, !e.current.value.success && good.Some?, false)
            else CachedResult(e, now, policy) == None
    ensures var result := SuppressedByCircuit(e, now, policy);
            if e.current.None? then result == None
            else if !e.current.value.success && good.Some? then ServesGood(result, good, false)
            else ServesCurrent(result, e, good, false, false)
    ensures var result := SuppressedByBudget(e, now, policy);
            if good.Some? then ServesGood(result, good, false)
            else if e.current.Some? then ServesCurrent(result, e, None, true, false)
            else result == None
    ensures var result := StaleWhilePeerRefreshes(e, now, policy);
            if good.Some? then ServesGood(result, good, true)
            else if e.current.Some? then ServesCurrent(result, e, None, true, true)
            else result == None
  {
    GoodHeld(e, now, policy);
    FreshIsYoung(e, now, policy);
    var record := ValidLastGood(e, now, policy);
    good := if record.Some? then Some(record.value.value) else None;
  }

  /** What is not flagged as stale is the current observation; what is served instead of it is the valid
      last good value; and a cached answer is given exactly while the current observation is fresh. */
  lemma ServedMeaning<V>(result: Option<Served<V>>, envelope: Envelope<V>, now: real, policy: Policy)
    requires ServedFrom(result, envelope, now, policy) && result.Some?
    ensures result.value.cached
    ensures result.value.lastGood.Some? <==> ValidLastGood(envelope, now, policy).Some?
    ensures !result.value.stale ==> envelope.current.Some? && result.value.value == envelope.current.value.value
    ensures || (envelope.current.Some? && result.value.value == envelope.current.value.value)
            || Some(result.value.value) == result.value.lastGood
    ensures result.value.refreshing ==> result.value.stale
    ensures CachedResult(envelope, now, policy).Some? <==> CurrentYoung(envelope, now, policy)
  {
    FreshIsYoung(envelope, now, policy);
  }

  // ---------------------------------------------------------------- the local entry

  function HotTtl<V>(envelope: Envelope<V>, policy: Policy): real {
    Min(L1_HOT_TTL_SEC, Max(0.0, policy.TtlFor(envelope.current.Some? && envelope.current.value.success)))
  }

  predicate Expired<V>(entry: LocalEntry<V>, now: real, policy: Policy) {
    now - entry.storedAt >= policy.Retention()
  }

  /** The local entry after a lookup: an expired one is dropped. */
  function AfterLookup<V>(local: Option<LocalEntry<V>>, now: real, policy: Policy): Option<LocalEntry<V>> {
    if local.Some? && Expired(local.value, now, policy) then None else local
  }

  predicate Hot<V>(local: Option<LocalEntry<V>>, now: real, policy: Policy) {
    && local.Some? && !Expired(local.value, now, policy)
    && now - local.value.storedAt < HotTtl(local.value.envelope, policy)
  }

  /** The local entry may be served without asking anyone else. */
  predicate HotAndFresh<V>(local: Option<LocalEntry<V>>, now: real, policy: Policy) {
    Hot(local, now, policy) && CurrentFresh(local.value.envelope, now, policy)
  }

  /** With time alone an entry can only stop being hot and fresh. */
  lemma HotAndFreshFades<V>(local: Option<LocalEntry<V>>, now: real, later: real, policy: Policy)
    requires now <= later && HotAndFresh(local, later, policy)
    ensures HotAndFresh(local, now, policy)
  {
  }

  /** The local entry after storing an envelope. */
  function Stored<V>(envelope: Envelope<V>, now: real): Option<LocalEntry<V>> {
    Some(LocalEntry(envelope, now))
  }

  /** What was stored is found again, unchanged, exactly while it is inside one of the three windows, and it may
      be served without asking Redis exactly for five seconds and inside the window of its outcome. */
  lemma StoredIsFound<V>(envelope: Envelope<V>, storedAt: real, now: real, policy: Policy)
    requires policy.Valid()
    ensures AfterLookup(Stored(envelope, storedAt), now, policy) ==
            var age := now - storedAt;
            if age < policy.successTtl || age < policy.failureTtl || age < policy.staleTtl
            then Some(LocalEntry(envelope, storedAt)) else None
    ensures Hot(Stored(envelope, storedAt), now, policy) <==>
            var age := now - storedAt;
            && age < 5.0
            && age < if envelope.current.Some? && envelope.current.value.success then policy.successTtl
                     else policy.failureTtl
  {
  }

  // ---------------------------------------------------------------- the lock in Redis

  type Token = nat

  datatype RedisLock = RedisLock(token: Token, expiresAt: real)

  predicate LockFree(lock: Option<RedisLock>, now: real) {
    lock.None? || now >= lock.value.expiresAt
  }

  function LockTtl(ttl: int): real {
    (if ttl < 1 then 1 else ttl) as real
  }

  /** Set-if-absent with expiry. */
  function AfterAcquire(lock: Option<RedisLock>, token: Token, ttl: int, now: real): Option<RedisLock> {
    if LockFree(lock, now) then Some(RedisLock(token, now + LockTtl(ttl))) else lock
  }

  /** Compare-and-delete. */
  function AfterRelease(lock: Option<RedisLock>, token: Token, now: real): Option<RedisLock> {
    if !LockFree(lock, now) && lock.value.token == token then None else lock
  }

  /** Mutual exclusion until expiry: while the lock of one token stands, another token gets nothing and
      releases nothing; its own release frees it, and so does time. */
  lemma LockExcludes(lock: Option<RedisLock>, token: Token, other: Token, ttl: int, now: real, later: real)
    requires LockFree(lock, now) && now <= later && other != token
    ensures var held := AfterAcquire(lock, token, ttl, now);
            && held == Some(RedisLock(token, now + (if ttl <= 1 then 1.0 else ttl as real)))
            && (LockFree(held, later) <==> later >= held.value.expiresAt)
            && (!LockFree(held, later) ==>
                  && AfterAcquire(held, other, ttl, later) == held && AfterRelease(held, other, later) == held
                  && AfterRelease(held, token, later) == None)
  {
  }

  // ---------------------------------------------------------------- the mutable records

  class ProbeKeyRecords<V(0)> {
    var local: Option<LocalEntry<V>>
    var lock: Option<RedisLock>

    constructor ()
      ensures local == None && lock == None
    {
      local, lock := None, None;
    }

    method Get(policy: Policy, now: real) returns (envelope: Option<Envelope<V>>, hot: bool)
      modifies this`local
      ensures local == AfterLookup(old(local), now, policy)
      ensures hot == Hot(old(local), now, policy)
      ensures envelope == if local.Some? then Some(local.value.envelope) else None
    {
      match local {
        case None =>
          return None, false;
        case Some(entry) =>
          var age := now - entry.storedAt;
          if age >= policy.Retention() {
            local := None;
            return None, false;
          }
          return Some(entry.envelope), age < HotTtl(entry.envelope, policy);
      }
    }

    method Put(envelope: Envelope<V>, now: real)
      modifies this`local
      ensures local == Stored(envelope, now)
    {
      local := Some(LocalEntry(envelope, now));
    }

    /** A lock whose time is up counts as absent. */
    method AcquireLock(token: Token, ttl: int, now: real) returns (acquired: bool)
      modifies this`lock
      ensures lock == AfterAcquire(old(lock), token, ttl, now)
      ensures acquired <==> LockFree(old(lock), now)
    {
      acquired := LockFree(lock, now);
      if acquired {
        lock := Some(RedisLock(token, now + LockTtl(ttl)));
      }
    }

    /** Deletes the lock only if it still carries the caller's token. */
    method ReleaseLock(token: Token, now: real)
      modifies this`lock
      ensures lock == AfterRelease(old(lock), token, now)
      ensures old(lock).Some? && old(lock).value.token != token ==> lock == old(lock)
    {
      if lock.Some? && now < lock.value.expiresAt && lock.value.token == token {
        lock := None;
      }
    }
  }
}
