/** The refresh protocol of the external probe cache for one probe key
    (nabla/api/external_probe_cache.py, get_or_refresh_probe): any number of callers in one process,
    interleaved at every await with each other, with the clock and with other processes' use of Redis,
    and interrupted at any await that can suspend. A step between two awaits is atomic and reads the clock
    once. */
module ProbeCacheProtocol {
  import opened ProbeCache
  import opened Wrappers

  type CallerId = nat

  datatype Outcome<V> = Returned(result: Served<V>) | Raised

  /** Where a caller stands: each value is an await at which it may be suspended. `GivingBack` is the return of
      the provider's slot, with which every origin refresh ends before the Redis lock is released. */
  datatype At<V> =
    | Entering
    | WaitingForTurn
    | LookingUp
    | ReadingRemote
    | Acquiring
    | AwaitingPeer
    | PeerFound(peer: Envelope<V>)
    | AskingCircuit
    | AskingBudget
    | Loading
    | Loaded(value: V, success: bool)
    | WritingRemote(written: Envelope<V>, stale: bool)
    | GivingBack(result: Outcome<V>)
    | Releasing(outcome: Outcome<V>)
    | Finished(end: Outcome<V>)

  /** `seen` is the envelope the caller last looked up. `locked`: it believes to hold the Redis lock.
      `owns`: it holds the provider's only slot while the circuit is half open. `began`: it entered the
      origin refresh. `attempted` and `released`: it has called the acquiring and the releasing command of
      Redis. `cutOff`: it was interrupted while giving the slot back. `startedHot`: its load started while
      the local entry was hot and fresh. */
  datatype Caller<V> = Caller(at: At<V>, client: bool, token: Token, seen: Envelope<V>, redisUp: bool, locked: bool,
                              owns: bool, began: bool, attempted: bool, released: bool, cutOff: bool,
                              startedHot: bool)

  /** `turn` is the holder of the process-local refresh lock; `lastSuccess` is the latest success stored. */
  datatype State<V> = State(policy: Policy, now: real, local: Option<LocalEntry<V>>, turn: Option<CallerId>,
                            callers: map<CallerId, Caller<V>>, lock: Option<RedisLock>,
                            remote: Option<Envelope<V>>, tokens: set<Token>, lastSuccess: Option<Record<V>>)

  /** What Redis answers: nothing at all (the command may or may not have run) or a reply. */
  datatype Reply = Answered | LostBefore | LostAfter

  /** `sent` tells whether a command to Redis that an interrupt hits has gone through. */
  datatype Event<V> =
    | Tick(elapsed: real)
    | ForeignLock(token: Token, ttl: int)
    | ForeignRelease(token: Token)
    | LockLost
    | ForeignRemote(envelope: Option<Envelope<V>>)
    | Enter(c: CallerId, client: bool, token: Token)
    | CheckHot(c: CallerId)
    | TakeTurn(c: CallerId)
    | LookUp(c: CallerId)
    | ReadRemote(c: CallerId, reply: Reply)
    | TryLock(c: CallerId, reply: Reply)
    | FindPeer(c: CallerId)
    | GiveUpOnPeer(c: CallerId)
    | LosePeer(c: CallerId)
    | AcceptPeer(c: CallerId)
    | Decide(c: CallerId, allowed: bool, owns: bool)
    | Admit(c: CallerId, allowed: bool)
    | Load(c: CallerId, value: V, success: bool)
    | Store(c: CallerId)
    | WriteRemote(c: CallerId, reply: Reply)
    | GiveBack(c: CallerId)
    | Release(c: CallerId, reply: Reply)
    | Interrupt(c: CallerId, sent: bool)

  /** Between taking its turn and leaving it. */
  predicate HasTurn<V>(at: At<V>) {
    !at.Entering? && !at.WaitingForTurn? && !at.Finished?
  }

  /** Past its lookup under the turn, and not yet loading. */
  predicate PastLookup<V>(at: At<V>) {
    at.ReadingRemote? || at.Acquiring? || at.AwaitingPeer? || at.PeerFound? || at.AskingCircuit? || at.AskingBudget?
  }

  predicate InRefresh<V>(at: At<V>) {
    at.AskingBudget? || at.Loading? || at.Loaded? || at.WritingRemote?
  }

  /** The caller can be interrupted where it stands. A slot that it does not hold is given back without
      suspending, and so is a Redis lock that it does not hold. */
  predicate Suspends<V>(caller: Caller<V>) {
    && !caller.at.Finished?
    && (caller.at.GivingBack? ==> caller.owns)
    && (caller.at.Releasing? ==> caller.client && caller.locked)
  }

  predicate Enabled<V>(s: State<V>, e: Event<V>) {
    match e
    case Tick(elapsed) => elapsed >= 0.0
    case ForeignLock(token, _) => LockFree(s.lock, s.now) && token !in s.tokens
    case ForeignRelease(token) => forall c :: c in s.callers ==> s.callers[c].token != token
    case LockLost => true
    case ForeignRemote(_) => true
    case Enter(c, _, token) => c !in s.callers && token !in s.tokens
    case CheckHot(c) => c in s.callers && s.callers[c].at.Entering?
    case TakeTurn(c) => c in s.callers && s.callers[c].at.WaitingForTurn? && s.turn == None
    case LookUp(c) => c in s.callers && s.callers[c].at.LookingUp?
    case ReadRemote(c, _) => c in s.callers && s.callers[c].at.ReadingRemote?
    case TryLock(c, _) => c in s.callers && s.callers[c].at.Acquiring?
    case FindPeer(c) =>
      c in s.callers && s.callers[c].at.AwaitingPeer? && s.remote.Some? && CurrentFresh(s.remote.value, s.now, s.policy)
    case GiveUpOnPeer(c) => c in s.callers && s.callers[c].at.AwaitingPeer?
    case LosePeer(c) => c in s.callers && s.callers[c].at.AwaitingPeer?
    case AcceptPeer(c) => c in s.callers && s.callers[c].at.PeerFound?
    case Decide(c, _, _) => c in s.callers && s.callers[c].at.AskingCircuit?
    case Admit(c, _) => c in s.callers && s.callers[c].at.AskingBudget?
    case Load(c, _, _) => c in s.callers && s.callers[c].at.Loading?
    case Store(c) => c in s.callers && s.callers[c].at.Loaded?
    case WriteRemote(c, _) => c in s.callers && s.callers[c].at.WritingRemote?
    case Release(c, _) => c in s.callers && s.callers[c].at.Releasing?
    case GiveBack(c) => c in s.callers && s.callers[c].at.GivingBack?
    case Interrupt(c, _) => c in s.callers && Suspends(s.callers[c])
  }

  // ---------------------------------------------------------------- what the events do

  function Put<V>(s: State<V>, c: CallerId, caller: Caller<V>): State<V> {
    s.(callers := s.callers[c := caller])
  }

  /** The caller leaves its turn. */
  function Leave<V>(s: State<V>, c: CallerId, caller: Caller<V>, outcome: Outcome<V>): State<V> {
    Put(s, c, caller.(at := Finished(outcome))).(turn := None)
  }

  function LeaveOr<V>(s: State<V>, c: CallerId, caller: Caller<V>, result: Option<Served<V>>): State<V> {
    match result
    case Some(served) => Leave(s, c, caller, Returned(served))
    case None => Put(s, c, caller)
  }

  /** With a result the caller goes on to release what it holds, without an origin refresh. */
  function ReleaseOr<V>(s: State<V>, c: CallerId, caller: Caller<V>, result: Option<Served<V>>): State<V> {
    match result
    case Some(served) => Put(s, c, caller.(at := Releasing(Returned(served)), began := false))
    case None => Put(s, c, caller)
  }

  /** With a result the origin refresh is over. */
  function GiveBackOr<V>(s: State<V>, c: CallerId, caller: Caller<V>, result: Option<Served<V>>): State<V> {
    match result
    case Some(served) => Put(s, c, caller.(at := GivingBack(Returned(served))))
    case None => Put(s, c, caller)
  }

  function Hit<V>(s: State<V>): Option<Served<V>> {
    if Hot(s.local, s.now, s.policy) then CachedResult(s.local.value.envelope, s.now, s.policy) else None
  }

  function DoCheckHot<V>(s: State<V>, c: CallerId): State<V>
    requires c in s.callers
  {
    FinishOrWait(s.(local := AfterLookup(s.local, s.now, s.policy)), c, s.callers[c], Hit(s))
  }

  function FinishOrWait<V>(s: State<V>, c: CallerId, caller: Caller<V>, result: Option<Served<V>>): State<V> {
    match result
    case Some(served) => Put(s, c, caller.(at := Finished(Returned(served))))
    case None => Put(s, c, caller.(at := WaitingForTurn))
  }

  function DoLookUp<V>(s: State<V>, c: CallerId): State<V>
    requires c in s.callers
  {
    var local := AfterLookup(s.local, s.now, s.policy);
    var seen := if local.Some? then local.value.envelope else NoEnvelope();
    LookedUp(s.(local := local), c, s.callers[c].(seen := seen), Hit(s), CachedResult(seen, s.now, s.policy))
  }

  /** A hit ends the call; otherwise Redis is asked, or without a client what is cached is served while it is
      fresh. */
  function LookedUp<V>(looked: State<V>, c: CallerId, caller: Caller<V>, hit: Option<Served<V>>,
                       cached: Option<Served<V>>): State<V>
  {
    if hit.Some? then Leave(looked, c, caller, Returned(hit.value))
    else if caller.client then Put(looked, c, caller.(at := ReadingRemote, redisUp := true))
    else LeaveOr(looked, c, caller.(at := AskingCircuit, redisUp := false), cached)
  }

  function DoReadRemote<V>(s: State<V>, c: CallerId, reply: Reply): State<V>
    requires c in s.callers
  {
    var caller := s.callers[c];
    if !reply.Answered? then
      LeaveOr(s, c, caller.(at := AskingCircuit, redisUp := false), CachedResult(caller.seen, s.now, s.policy))
    else
      match s.remote
      case None => Put(s, c, caller.(at := Acquiring))
      case Some(envelope) =>
        LeaveOr(s.(local := Stored(envelope, s.now)), c, caller.(at := Acquiring, seen := envelope),
                CachedResult(envelope, s.now, s.policy))
  }

  function DoTryLock<V>(s: State<V>, c: CallerId, reply: Reply): State<V>
    requires c in s.callers
  {
    var caller := s.callers[c].(attempted := true);
    Put(AfterAsking(s, caller, !reply.LostBefore?), c, Tried(caller, reply, LockFree(s.lock, s.now)))
  }

  /** The caller after asking for the lock. */
  function Tried<V>(caller: Caller<V>, reply: Reply, free: bool): Caller<V> {
    if !reply.Answered? then caller.(at := AskingCircuit, redisUp := false)
    else if free then caller.(at := AskingCircuit, locked := true)
    else caller.(at := AwaitingPeer)
  }

  function DoGiveUpOnPeer<V>(s: State<V>, c: CallerId): State<V>
    requires c in s.callers
  {
    var caller := s.callers[c];
    LeaveOr(s, c, caller.(at := AskingCircuit), StaleWhilePeerRefreshes(caller.seen, s.now, s.policy))
  }

  function DoAcceptPeer<V>(s: State<V>, c: CallerId): State<V>
    requires c in s.callers && s.callers[c].at.PeerFound?
  {
    var caller := s.callers[c];
    var put := s.(local := Stored(caller.at.peer, s.now));
    match CachedResult(caller.at.peer, s.now, s.policy)
    case Some(served) => Leave(put, c, caller, Returned(served))
    case None => DoGiveUpOnPeer(put, c)
  }

  function DoDecide<V>(s: State<V>, c: CallerId, allowed: bool, owns: bool): State<V>
    requires c in s.callers
  {
    var caller := s.callers[c];
    ReleaseOr(s, c, caller.(at := AskingBudget, began := true, owns := owns),
              if allowed then None else SuppressedByCircuit(caller.seen, s.now, s.policy))
  }

  function DoAdmit<V>(s: State<V>, c: CallerId, allowed: bool): State<V>
    requires c in s.callers
  {
    var caller := s.callers[c];
    GiveBackOr(s, c, caller.(at := Loading, startedHot := HotAndFresh(s.local, s.now, s.policy)),
              if allowed then None else SuppressedByBudget(caller.seen, s.now, s.policy))
  }

  function DoStore<V>(s: State<V>, c: CallerId): State<V>
    requires c in s.callers && s.callers[c].at.Loaded?
  {
    var caller := s.callers[c];
    var value, success := caller.at.value, caller.at.success;
    var envelope := Refreshed(caller.seen, value, success, s.now, s.policy);
    var stale := !success && ValidLastGood(caller.seen, s.now, s.policy).Some?;
    PutEnvelope(s, c, caller, envelope, if success then envelope.current else s.lastSuccess, stale,
                FromOrigin(envelope, s.now, s.policy, stale))
  }

  /** Keeps the envelope locally, then either writes it to Redis or ends the refresh. */
  function PutEnvelope<V>(s: State<V>, c: CallerId, caller: Caller<V>, envelope: Envelope<V>,
                          lastSuccess: Option<Record<V>>, stale: bool, outcome: Outcome<V>): State<V>
  {
    var stored := s.(local := Stored(envelope, s.now), lastSuccess := lastSuccess);
    if caller.client && caller.redisUp then Put(stored, c, caller.(at := WritingRemote(envelope, stale)))
    else Put(stored, c, caller.(at := GivingBack(outcome)))
  }

  function FromOrigin<V>(envelope: Envelope<V>, now: real, policy: Policy, stale: bool): Outcome<V> {
    match ResultFrom(envelope, now, policy, false, stale, false, false)
    case Some(served) => Returned(served)
    case None => Raised
  }

  function DoWriteRemote<V>(s: State<V>, c: CallerId, reply: Reply): State<V>
    requires c in s.callers && s.callers[c].at.WritingRemote?
  {
    var caller := s.callers[c];
    var after := if reply.LostBefore? then s else s.(remote := Some(caller.at.written));
    var outcome := FromOrigin(caller.at.written, s.now, s.policy, caller.at.stale);
    Put(after, c, caller.(at := GivingBack(outcome), redisUp := reply.Answered?))
  }

  function DoGiveBack<V>(s: State<V>, c: CallerId): State<V>
    requires c in s.callers && s.callers[c].at.GivingBack?
  {
    Put(s, c, s.callers[c].(at := Releasing(s.callers[c].at.result)))
  }

  /** Whether the caller has a Redis lock to release. */
  predicate Sends<V>(caller: Caller<V>) {
    caller.client && caller.locked
  }

  function AfterSending<V>(s: State<V>, caller: Caller<V>, sent: bool): State<V> {
    if Sends(caller) && sent then s.(lock := AfterRelease(s.lock, caller.token, s.now)) else s
  }

  function DoRelease<V>(s: State<V>, c: CallerId, reply: Reply): State<V>
    requires c in s.callers && s.callers[c].at.Releasing?
  {
    var caller := s.callers[c];
    Leave(AfterSending(s, caller, !reply.LostBefore?), c, caller.(released := Sends(caller)), caller.at.outcome)
  }

  /** An exception or a cancellation at an await. Inside the origin refresh it leads to giving the slot back;
      there, it skips the release of the Redis lock; before, it only gives up the turn. */
  function DoInterrupt<V>(s: State<V>, c: CallerId, sent: bool): State<V>
    requires c in s.callers
  {
    var caller := s.callers[c];
    if InRefresh(caller.at) then
      Put(AfterWriting(s, caller.at, sent), c, caller.(at := GivingBack(Raised)))
    else if caller.at.GivingBack? then
      Leave(s, c, caller.(cutOff := true), Raised)
    else if caller.at.Releasing? then
      Leave(AfterSending(s, caller, sent), c, caller.(released := Sends(caller)), Raised)
    else if caller.at.Acquiring? then
      Leave(AfterAsking(s, caller, sent), c, caller.(attempted := true), Raised)
    else if HasTurn(caller.at) then Leave(s, c, caller, Raised)
    else Put(s, c, caller.(at := Finished(Raised)))
  }

  function AfterWriting<V>(s: State<V>, at: At<V>, sent: bool): State<V> {
    if at.WritingRemote? && sent then s.(remote := Some(at.written)) else s
  }

  function AfterAsking<V>(s: State<V>, caller: Caller<V>, sent: bool): State<V> {
    if sent then s.(lock := AfterAcquire(s.lock, caller.token, s.policy.lockTtl, s.now)) else s
  }

  function Perform<V>(s: State<V>, e: Event<V>): State<V>
    requires Enabled(s, e)
  {
    match e
    case Tick(elapsed) => s.(now := s.now + elapsed)
    case ForeignLock(token, ttl) =>
      s.(lock := AfterAcquire(s.lock, token, ttl, s.now), tokens := s.tokens + {token})
    case ForeignRelease(token) => s.(lock := AfterRelease(s.lock, token, s.now))
    case LockLost => s.(lock := None)
    case ForeignRemote(envelope) => s.(remote := envelope)
    case Enter(c, client, token) =>
      Put(s, c, Caller(Entering, client, token, NoEnvelope(), false, false, false, false, false, false, false, false))
        .(tokens := s.tokens + {token})
    case CheckHot(c) => DoCheckHot(s, c)
    case TakeTurn(c) => Put(s, c, s.callers[c].(at := LookingUp)).(turn := Some(c))
    case LookUp(c) => DoLookUp(s, c)
    case ReadRemote(c, reply) => DoReadRemote(s, c, reply)
    case TryLock(c, reply) => DoTryLock(s, c, reply)
    case FindPeer(c) => Put(s, c, s.callers[c].(at := PeerFound(s.remote.value)))
    case GiveUpOnPeer(c) => DoGiveUpOnPeer(s, c)
    case LosePeer(c) => Put(s, c, s.callers[c].(at := AskingCircuit, redisUp := false))
    case AcceptPeer(c) => DoAcceptPeer(s, c)
    case Decide(c, allowed, owns) => DoDecide(s, c, allowed, owns)
    case Admit(c, allowed) => DoAdmit(s, c, allowed)
    case Load(c, value, success) => Put(s, c, s.callers[c].(at := Loaded(value, success)))
    case Store(c) => DoStore(s, c)
    case WriteRemote(c, reply) => DoWriteRemote(s, c, reply)
    case Release(c, reply) => DoRelease(s, c, reply)
    case GiveBack(c) => DoGiveBack(s, c)
    case Interrupt(c, sent) => DoInterrupt(s, c, sent)
  }

  // ---------------------------------------------------------------- the invariant

  ghost predicate CallerOk<V>(s: State<V>, c: CallerId, caller: Caller<V>) {
    && (HasTurn(caller.at) <==> s.turn == Some(c))
    && (PastLookup(caller.at) ==> !HotAndFresh(s.local, s.now, s.policy))
    && caller.token in s.tokens
    && !caller.startedHot
    && (caller.locked ==> caller.attempted)
    && (!caller.attempted && s.lock.Some? ==> s.lock.value.token != caller.token)
    && (caller.began ==> InRefresh(caller.at) || caller.at.GivingBack? || caller.at.Releasing? || caller.at.Finished?)
    && (caller.at.Finished? && caller.began && Sends(caller) ==> caller.released || caller.cutOff)
    && (caller.released || caller.cutOff ==> caller.at.Finished?)
    && !(caller.released && caller.cutOff)
    && (caller.cutOff ==> caller.owns)
  }

  ghost predicate Inv<V>(s: State<V>) {
    && (forall c :: c in s.callers ==> CallerOk(s, c, s.callers[c]))
    && (s.turn.Some? ==> s.turn.value in s.callers)
    && (s.lock.Some? ==> s.lock.value.token in s.tokens)
    && (forall c, d :: c in s.callers && d in s.callers && c != d ==> s.callers[c].token != s.callers[d].token)
  }

  ghost predicate Init<V>(s: State<V>) {
    && s.callers == map[] && s.turn == None && s.local == None && s.lastSuccess == None
    && (s.lock.Some? ==> s.lock.value.token in s.tokens)
  }

  /** What a step of one caller may do to the rest of the state. */
  ghost predicate MovesOne<V>(s: State<V>, s': State<V>, c: CallerId) {
    && c in s.callers && c in s'.callers && s'.callers == s.callers[c := s'.callers[c]]
    && s'.callers[c].token == s.callers[c].token
    && s'.policy == s.policy && s'.now == s.now && s'.tokens == s.tokens
    && (s'.turn == s.turn || (s.turn == Some(c) && s'.turn == None) || (s.turn == None && s'.turn == Some(c)))
    && (s'.local == s.local || s'.local == None || s.turn == Some(c))
    && (s'.lock == s.lock || s'.lock == None || (s'.lock.Some? && s'.lock.value.token == s.callers[c].token))
  }

  lemma NothingIsCold<V>(s: State<V>)
    ensures s.local == None ==> !HotAndFresh(s.local, s.now, s.policy)
  {
  }

  /** A step that moves one caller keeps the invariant if it leaves that caller in order. */
  lemma MoveKeepsInv<V>(s: State<V>, s': State<V>, c: CallerId)
    requires Inv(s) && MovesOne(s, s', c) && CallerOk(s', c, s'.callers[c])
    requires s'.turn.Some? ==> s'.turn.value in s'.callers
    ensures Inv(s')
  {
    hide HotAndFresh;
    NothingIsCold(s');
    forall d | d in s'.callers ensures CallerOk(s', d, s'.callers[d]) {
      if d != c {
        assert CallerOk(s, d, s.callers[d]);
      }
    }
  }

  lemma HitIffHotAndFresh<V>(s: State<V>)
    ensures Hit(s).Some? <==> HotAndFresh(s.local, s.now, s.policy)
    ensures HotAndFresh(AfterLookup(s.local, s.now, s.policy), s.now, s.policy) ==>
              HotAndFresh(s.local, s.now, s.policy)
  {
  }

  lemma CachedIffFresh<V>(envelope: Envelope<V>, now: real, policy: Policy)
    ensures CachedResult(envelope, now, policy).Some? <==> CurrentFresh(envelope, now, policy)
  {
  }

  lemma CheckHotKeepsInv<V>(s: State<V>, c: CallerId)
    requires Inv(s) && Enabled(s, CheckHot(c))
    ensures Inv(DoCheckHot(s, c))
  {
    assert CallerOk(s, c, s.callers[c]);
    FinishOrWaitKeepsInv(s, c, AfterLookup(s.local, s.now, s.policy), Hit(s));
  }

  lemma FinishOrWaitKeepsInv<V>(s: State<V>, c: CallerId, local: Option<LocalEntry<V>>, result: Option<Served<V>>)
    requires Inv(s) && Enabled(s, CheckHot(c)) && (local == s.local || local == None)
    ensures Inv(FinishOrWait(s.(local := local), c, s.callers[c], result))
  {
    hide HotAndFresh;
    assert CallerOk(s, c, s.callers[c]);
    LocalGoneKeepsInv(s, local);
    if result.Some? {
      PutKeepsInv(s.(local := local), c, s.callers[c].(at := Finished(Returned(result.value))));
    } else {
      PutKeepsInv(s.(local := local), c, s.callers[c].(at := WaitingForTurn));
    }
  }

  lemma LookUpKeepsInv<V>(s: State<V>, c: CallerId)
    requires Inv(s) && Enabled(s, LookUp(c))
    ensures Inv(DoLookUp(s, c))
  {
    HitIffHotAndFresh(s);
    var local := AfterLookup(s.local, s.now, s.policy);
    var seen := if local.Some? then local.value.envelope else NoEnvelope();
    LookedUpKeepsInv(s, c, local, seen, Hit(s), CachedResult(seen, s.now, s.policy));
  }

  lemma LookedUpKeepsInv<V>(s: State<V>, c: CallerId, local: Option<LocalEntry<V>>, seen: Envelope<V>,
                            hit: Option<Served<V>>, cached: Option<Served<V>>)
    requires Inv(s) && Enabled(s, LookUp(c)) && (local == s.local || local == None)
    requires hit.None? ==> !HotAndFresh(local, s.now, s.policy)
    ensures Inv(LookedUp(s.(local := local), c, s.callers[c].(seen := seen), hit, cached))
  {
    hide HotAndFresh;
    var caller := s.callers[c].(seen := seen);
    assert CallerOk(s, c, s.callers[c]);
    LocalGoneKeepsInv(s, local);
    if hit.Some? {
      EndKeepsInv(s.(local := local), c, caller, Returned(hit.value));
    } else if caller.client {
      PutKeepsInv(s.(local := local), c, caller.(at := ReadingRemote, redisUp := true));
    } else {
      LeaveOrKeepsInv(s.(local := local), c, caller.(at := AskingCircuit, redisUp := false), cached);
    }
  }

  /** The entry may expire at any time. */
  lemma LocalGoneKeepsInv<V>(s: State<V>, local: Option<LocalEntry<V>>)
    requires Inv(s) && (local == s.local || local == None)
    ensures Inv(s.(local := local))
  {
    var s' := s.(local := local);
    forall d | d in s'.callers ensures CallerOk(s', d, s'.callers[d]) {
      assert CallerOk(s, d, s.callers[d]);
    }
  }

  /** The holder of the turn may move on within its turn as a caller in order. */
  lemma PutKeepsInv<V>(s: State<V>, c: CallerId, caller: Caller<V>)
    requires Inv(s) && c in s.callers && caller.token == s.callers[c].token && CallerOk(s, c, caller)
    ensures Inv(Put(s, c, caller))
  {
    hide HotAndFresh;
    MoveKeepsInv(s, Put(s, c, caller), c);
  }

  /** The holder of the turn may leave it. */
  lemma EndKeepsInv<V>(s: State<V>, c: CallerId, caller: Caller<V>, outcome: Outcome<V>)
    requires Inv(s) && c in s.callers && s.turn == Some(c) && caller.token == s.callers[c].token
    requires CallerOk(s.(turn := None), c, caller.(at := Finished(outcome)))
    ensures Inv(Leave(s, c, caller, outcome))
  {
    hide HotAndFresh;
    MoveKeepsInv(s, Leave(s, c, caller, outcome), c);
  }

  lemma TryLockKeepsInv<V>(s: State<V>, c: CallerId, reply: Reply)
    requires Inv(s) && Enabled(s, TryLock(c, reply))
    ensures Inv(DoTryLock(s, c, reply))
  {
    hide HotAndFresh;
    assert CallerOk(s, c, s.callers[c]);
    MoveKeepsInv(s, DoTryLock(s, c, reply), c);
  }

  lemma GiveUpKeepsInv<V>(s: State<V>, c: CallerId)
    requires Inv(s) && c in s.callers && (s.callers[c].at.AwaitingPeer? || s.callers[c].at.PeerFound?)
    ensures Inv(DoGiveUpOnPeer(s, c))
  {
    hide HotAndFresh;
    assert CallerOk(s, c, s.callers[c]);
    LeaveOrKeepsInv(s, c, s.callers[c].(at := AskingCircuit),
                    StaleWhilePeerRefreshes(s.callers[c].seen, s.now, s.policy));
  }

  /** Leaving with a result or going on as a caller in order keeps the invariant, whatever the result. */
  lemma LeaveOrKeepsInv<V>(s: State<V>, c: CallerId, caller: Caller<V>, result: Option<Served<V>>)
    requires Inv(s) && c in s.callers && s.turn == Some(c) && caller.token == s.callers[c].token
    requires CallerOk(s, c, caller) && !caller.began
    ensures Inv(LeaveOr(s, c, caller, result))
  {
    hide HotAndFresh;
    MoveKeepsInv(s, LeaveOr(s, c, caller, result), c);
  }

  lemma ReleaseOrKeepsInv<V>(s: State<V>, c: CallerId, caller: Caller<V>, result: Option<Served<V>>)
    requires Inv(s) && c in s.callers && s.turn == Some(c) && caller.token == s.callers[c].token
    requires CallerOk(s, c, caller) && HasTurn(caller.at)
    ensures Inv(ReleaseOr(s, c, caller, result))
  {
    hide HotAndFresh;
    MoveKeepsInv(s, ReleaseOr(s, c, caller, result), c);
  }

  lemma GiveBackOrKeepsInv<V>(s: State<V>, c: CallerId, caller: Caller<V>, result: Option<Served<V>>)
    requires Inv(s) && c in s.callers && s.turn == Some(c) && caller.token == s.callers[c].token
    requires CallerOk(s, c, caller) && HasTurn(caller.at)
    ensures Inv(GiveBackOr(s, c, caller, result))
  {
    hide HotAndFresh;
    MoveKeepsInv(s, GiveBackOr(s, c, caller, result), c);
  }

  /** The holder of the turn may replace the local entry by one that is not hot and fresh. */
  lemma PutLocalKeepsInv<V>(s: State<V>, c: CallerId, entry: LocalEntry<V>)
    requires Inv(s) && c in s.callers && s.turn == Some(c)
    requires PastLookup(s.callers[c].at) ==> !CurrentFresh(entry.envelope, s.now, s.policy)
    ensures Inv(s.(local := Some(entry)))
  {
    var s' := s.(local := Some(entry));
    assert CallerOk(s, c, s.callers[c]);
    assert s'.callers == s.callers[c := s'.callers[c]];
    MoveKeepsInv(s, s', c);
  }

  lemma AcceptPeerKeepsInv<V>(s: State<V>, c: CallerId)
    requires Inv(s) && Enabled(s, AcceptPeer(c))
    ensures Inv(DoAcceptPeer(s, c))
  {
    assert CallerOk(s, c, s.callers[c]);
    var entry := LocalEntry(s.callers[c].at.peer, s.now);
    CachedIffFresh(entry.envelope, s.now, s.policy);
    if CurrentFresh(entry.envelope, s.now, s.policy) {
      MoveKeepsInv(s, DoAcceptPeer(s, c), c);
    } else {
      PutLocalKeepsInv(s, c, entry);
      GiveUpKeepsInv(s.(local := Some(entry)), c);
    }
  }

  lemma ReadRemoteKeepsInv<V>(s: State<V>, c: CallerId, reply: Reply)
    requires Inv(s) && Enabled(s, ReadRemote(c, reply))
    ensures Inv(DoReadRemote(s, c, reply))
  {
    assert CallerOk(s, c, s.callers[c]);
    var caller := s.callers[c];
    if !reply.Answered? {
      LeaveOrKeepsInv(s, c, caller.(at := AskingCircuit, redisUp := false), CachedResult(caller.seen, s.now, s.policy));
    } else if s.remote.Some? {
      RemoteFoundKeepsInv(s, c, s.remote.value);
    } else {
      MoveKeepsInv(s, DoReadRemote(s, c, reply), c);
    }
  }

  lemma RemoteFoundKeepsInv<V>(s: State<V>, c: CallerId, envelope: Envelope<V>)
    requires Inv(s) && c in s.callers && s.callers[c].at.ReadingRemote?
    ensures Inv(LeaveOr(s.(local := Stored(envelope, s.now)), c,
                        s.callers[c].(at := Acquiring, seen := envelope), CachedResult(envelope, s.now, s.policy)))
  {
    assert CallerOk(s, c, s.callers[c]);
    var caller := s.callers[c].(at := Acquiring, seen := envelope);
    var put := s.(local := Stored(envelope, s.now));
    CachedIffFresh(envelope, s.now, s.policy);
    if CurrentFresh(envelope, s.now, s.policy) {
      MoveKeepsInv(s, Leave(put, c, caller, Returned(CachedResult(envelope, s.now, s.policy).value)), c);
    } else {
      PutLocalKeepsInv(s, c, LocalEntry(envelope, s.now));
      LeaveOrKeepsInv(put, c, caller, None);
    }
  }

  lemma DecideKeepsInv<V>(s: State<V>, c: CallerId, allowed: bool, owns: bool)
    requires Inv(s) && Enabled(s, Decide(c, allowed, owns))
    ensures Inv(DoDecide(s, c, allowed, owns))
  {
    hide HotAndFresh;
    assert CallerOk(s, c, s.callers[c]);
    ReleaseOrKeepsInv(s, c, s.callers[c].(at := AskingBudget, began := true, owns := owns),
                      if allowed then None else SuppressedByCircuit(s.callers[c].seen, s.now, s.policy));
  }

  lemma AdmitKeepsInv<V>(s: State<V>, c: CallerId, allowed: bool)
    requires Inv(s) && Enabled(s, Admit(c, allowed))
    ensures Inv(DoAdmit(s, c, allowed))
  {
    hide HotAndFresh;
    assert CallerOk(s, c, s.callers[c]);
    GiveBackOrKeepsInv(s, c, s.callers[c].(at := Loading, startedHot := HotAndFresh(s.local, s.now, s.policy)),
                      if allowed then None else SuppressedByBudget(s.callers[c].seen, s.now, s.policy));
  }

  lemma StoreKeepsInv<V>(s: State<V>, c: CallerId)
    requires Inv(s) && Enabled(s, Store(c))
    ensures Inv(DoStore(s, c))
  {
    hide HotAndFresh;
    assert CallerOk(s, c, s.callers[c]);
    var caller := s.callers[c];
    var envelope := Refreshed(caller.seen, caller.at.value, caller.at.success, s.now, s.policy);
    var stale := !caller.at.success && ValidLastGood(caller.seen, s.now, s.policy).Some?;
    PutEnvelopeKeepsInv(s, c, envelope, if caller.at.success then envelope.current else s.lastSuccess, stale,
                        FromOrigin(envelope, s.now, s.policy, stale));
  }

  lemma PutEnvelopeKeepsInv<V>(s: State<V>, c: CallerId, envelope: Envelope<V>, lastSuccess: Option<Record<V>>,
                               stale: bool, outcome: Outcome<V>)
    requires Inv(s) && Enabled(s, Store(c))
    ensures Inv(PutEnvelope(s, c, s.callers[c], envelope, lastSuccess, stale, outcome))
  {
    hide HotAndFresh;
    assert CallerOk(s, c, s.callers[c]);
    var caller := s.callers[c];
    if caller.client && caller.redisUp {
      KeepTurnKeepsInv(s, c, WritingRemote(envelope, stale), Stored(envelope, s.now), lastSuccess);
    } else {
      KeepTurnKeepsInv(s, c, GivingBack(outcome), Stored(envelope, s.now), lastSuccess);
    }
  }

  /** The holder of the turn, past its lookups, may change the local entry and go on within its turn. */
  lemma KeepTurnKeepsInv<V>(s: State<V>, c: CallerId, at: At<V>, local: Option<LocalEntry<V>>,
                            lastSuccess: Option<Record<V>>)
    requires Inv(s) && c in s.callers && s.turn == Some(c) && s.callers[c].at.Loaded?
    requires at.WritingRemote? || at.GivingBack?
    ensures Inv(Put(s.(local := local, lastSuccess := lastSuccess), c, s.callers[c].(at := at)))
  {
    hide HotAndFresh;
    var s' := Put(s.(local := local, lastSuccess := lastSuccess), c, s.callers[c].(at := at));
    assert CallerOk(s, c, s.callers[c]);
    assert !PastLookup(at) && HasTurn(at);
    MoveKeepsInv(s, s', c);
  }

  lemma WriteRemoteKeepsInv<V>(s: State<V>, c: CallerId, reply: Reply)
    requires Inv(s) && Enabled(s, WriteRemote(c, reply))
    ensures Inv(DoWriteRemote(s, c, reply))
  {
    hide HotAndFresh;
    assert CallerOk(s, c, s.callers[c]);
    MoveKeepsInv(s, DoWriteRemote(s, c, reply), c);
  }

  lemma ReleaseKeepsInv<V>(s: State<V>, c: CallerId, reply: Reply)
    requires Inv(s) && Enabled(s, Release(c, reply))
    ensures Inv(DoRelease(s, c, reply))
  {
    hide HotAndFresh;
    assert CallerOk(s, c, s.callers[c]);
    MoveKeepsInv(s, DoRelease(s, c, reply), c);
  }

  lemma GiveBackKeepsInv<V>(s: State<V>, c: CallerId)
    requires Inv(s) && Enabled(s, GiveBack(c))
    ensures Inv(DoGiveBack(s, c))
  {
    hide HotAndFresh;
    assert CallerOk(s, c, s.callers[c]);
    MoveKeepsInv(s, DoGiveBack(s, c), c);
  }

  lemma InterruptKeepsInv<V>(s: State<V>, c: CallerId, sent: bool)
    requires Inv(s) && Enabled(s, Interrupt(c, sent))
    ensures Inv(DoInterrupt(s, c, sent))
  {
    var at := s.callers[c].at;
    if at.Acquiring? {
      InterruptedAskingKeepsInv(s, c, sent);
    } else if at.Releasing? {
      InterruptedReleaseKeepsInv(s, c, sent);
    } else if InRefresh(at) {
      InterruptedRefreshKeepsInv(s, c, sent);
    } else {
      InterruptedElsewhereKeepsInv(s, c, sent);
    }
  }

  lemma InterruptedAskingKeepsInv<V>(s: State<V>, c: CallerId, sent: bool)
    requires Inv(s) && c in s.callers && s.callers[c].at.Acquiring?
    ensures Inv(DoInterrupt(s, c, sent))
  {
    hide HotAndFresh;
    assert CallerOk(s, c, s.callers[c]);
    MoveKeepsInv(s, Leave(AfterAsking(s, s.callers[c], sent), c, s.callers[c].(attempted := true), Raised), c);
  }

  lemma InterruptedReleaseKeepsInv<V>(s: State<V>, c: CallerId, sent: bool)
    requires Inv(s) && c in s.callers && s.callers[c].at.Releasing?
    ensures Inv(DoInterrupt(s, c, sent))
  {
    hide HotAndFresh;
    var caller := s.callers[c];
    assert CallerOk(s, c, caller);
    MoveKeepsInv(s, Leave(AfterSending(s, caller, sent), c, caller.(released := Sends(caller)), Raised), c);
  }

  lemma InterruptedRefreshKeepsInv<V>(s: State<V>, c: CallerId, sent: bool)
    requires Inv(s) && c in s.callers && InRefresh(s.callers[c].at)
    ensures Inv(DoInterrupt(s, c, sent))
  {
    hide HotAndFresh;
    var caller := s.callers[c];
    assert CallerOk(s, c, caller);
    MoveKeepsInv(s, Put(AfterWriting(s, caller.at, sent), c, caller.(at := GivingBack(Raised))), c);
  }

  lemma InterruptedElsewhereKeepsInv<V>(s: State<V>, c: CallerId, sent: bool)
    requires Inv(s) && Enabled(s, Interrupt(c, sent))
    requires var at := s.callers[c].at; !at.Acquiring? && !at.Releasing? && !InRefresh(at)
    ensures Inv(DoInterrupt(s, c, sent))
  {
    hide HotAndFresh;
    var caller := s.callers[c];
    assert CallerOk(s, c, caller);
    if HasTurn(caller.at) {
      InterruptedEndKeepsInv(s, c, caller.(cutOff := caller.at.GivingBack?));
      assert caller.at.GivingBack? || caller == caller.(cutOff := false);
    } else {
      PutKeepsInv(s, c, caller.(at := Finished(Raised)));
    }
  }

  lemma InterruptedEndKeepsInv<V>(s: State<V>, c: CallerId, caller: Caller<V>)
    requires Inv(s) && c in s.callers && HasTurn(s.callers[c].at) && !s.callers[c].at.Releasing?
    requires !InRefresh(s.callers[c].at) && (s.callers[c].at.GivingBack? ==> s.callers[c].owns)
    requires caller == s.callers[c].(cutOff := s.callers[c].at.GivingBack?)
    ensures Inv(Leave(s, c, caller, Raised))
  {
    hide HotAndFresh;
    assert CallerOk(s, c, s.callers[c]);
    EndKeepsInv(s, c, caller, Raised);
  }

  /** Events outside the callers: time passes, other processes use Redis, a caller arrives. */
  lemma SurroundingsKeepInv<V>(s: State<V>, e: Event<V>)
    requires Inv(s) && Enabled(s, e)
    requires e.Tick? || e.ForeignLock? || e.ForeignRelease? || e.LockLost? || e.ForeignRemote? || e.Enter?
    ensures Inv(Perform(s, e))
  {
    hide HotAndFresh;
    var s' := Perform(s, e);
    forall d | d in s'.callers ensures CallerOk(s', d, s'.callers[d]) {
      if d in s.callers {
        assert CallerOk(s, d, s.callers[d]);
        if e.Tick? && HotAndFresh(s.local, s'.now, s.policy) {
          HotAndFreshFades(s.local, s.now, s'.now, s.policy);
        }
      }
    }
  }

  lemma SimpleMovesKeepInv<V>(s: State<V>, e: Event<V>)
    requires Inv(s) && Enabled(s, e)
    requires e.FindPeer? || e.LosePeer? || e.Load?
    ensures Inv(Perform(s, e))
  {
    hide HotAndFresh;
    assert CallerOk(s, e.c, s.callers[e.c]);
    MoveKeepsInv(s, Perform(s, e), e.c);
  }

  lemma TakeTurnKeepsInv<V>(s: State<V>, c: CallerId)
    requires Inv(s) && Enabled(s, TakeTurn(c))
    ensures Inv(Perform(s, TakeTurn(c)))
  {
    hide HotAndFresh;
    assert CallerOk(s, c, s.callers[c]);
    MoveKeepsInv(s, Put(s, c, s.callers[c].(at := LookingUp)).(turn := Some(c)), c);
  }

  /** Every step keeps the invariant. */
  lemma StepKeepsInv<V>(s: State<V>, e: Event<V>)
    requires Inv(s) && Enabled(s, e)
    ensures Inv(Perform(s, e))
  {
    hide Inv, DoCheckHot, DoLookUp, DoReadRemote, DoTryLock, DoGiveUpOnPeer, DoAcceptPeer, DoDecide, DoAdmit, DoStore,
         DoWriteRemote, DoRelease, DoGiveBack, DoInterrupt;
    match e
    case CheckHot(c) => CheckHotKeepsInv(s, c);
    case LookUp(c) => LookUpKeepsInv(s, c);
    case ReadRemote(c, reply) => ReadRemoteKeepsInv(s, c, reply);
    case TryLock(c, reply) => TryLockKeepsInv(s, c, reply);
    case GiveUpOnPeer(c) => GiveUpKeepsInv(s, c);
    case AcceptPeer(c) => AcceptPeerKeepsInv(s, c);
    case Decide(c, allowed, owns) => DecideKeepsInv(s, c, allowed, owns);
    case Admit(c, allowed) => AdmitKeepsInv(s, c, allowed);
    case Store(c) => StoreKeepsInv(s, c);
    case WriteRemote(c, reply) => WriteRemoteKeepsInv(s, c, reply);
    case Release(c, reply) => ReleaseKeepsInv(s, c, reply);
    case GiveBack(c) => GiveBackKeepsInv(s, c);
    case Interrupt(c, sent) => InterruptKeepsInv(s, c, sent);
    case TakeTurn(c) => TakeTurnKeepsInv(s, c);
    case FindPeer(_) => SimpleMovesKeepInv(s, e);
    case LosePeer(_) => SimpleMovesKeepInv(s, e);
    case Load(_, _, _) => SimpleMovesKeepInv(s, e);
    case _ => SurroundingsKeepInv(s, e);
  }

  // ---------------------------------------------------------------- runs, and what holds in all of them

  /** A run from an initial state: `events[i]` leads from `states[i]` to `states[i + 1]`. */
  ghost predicate Run<V(!new)>(states: seq<State<V>>, events: seq<Event<V>>) {
    && |states| == |events| + 1 && Init(states[0])
    && forall i :: 0 <= i < |events| ==> StepAt(states, events, i)
  }

  ghost predicate StepAt<V>(states: seq<State<V>>, events: seq<Event<V>>, i: nat)
    requires |states| == |events| + 1 && i < |events|
  {
    Enabled(states[i], events[i]) && states[i + 1] == Perform(states[i], events[i])
  }

  lemma {:induction false} RunKeepsInv<V(!new)>(states: seq<State<V>>, events: seq<Event<V>>, n: nat)
    requires Run(states, events) && n <= |events|
    ensures Inv(states[n])
  {
    if n > 0 {
      RunKeepsInv(states, events, n - 1);
      assert StepAt(states, events, n - 1);
      StepKeepsInv(states[n - 1], events[n - 1]);
    }
  }

  /** Single flight: at no time do two callers load from the origin. */
  lemma OneLoader<V(!new)>(states: seq<State<V>>, events: seq<Event<V>>, n: nat, c: CallerId, d: CallerId)
    requires Run(states, events) && n <= |events|
    requires IsLoading(states[n], c) && IsLoading(states[n], d)
    ensures c == d
  {
    RunKeepsInv(states, events, n);
    assert CallerOk(states[n], c, states[n].callers[c]) && CallerOk(states[n], d, states[n].callers[d]);
  }

  predicate IsLoading<V>(s: State<V>, c: CallerId) {
    c in s.callers && s.callers[c].at.Loading?
  }

  /** No load ever starts while the local entry is both hot and fresh. */
  lemma LoadsStartCold<V(!new)>(states: seq<State<V>>, events: seq<Event<V>>, n: nat, c: CallerId)
    requires Run(states, events) && n <= |events| && c in states[n].callers
    ensures !states[n].callers[c].startedHot
  {
    RunKeepsInv(states, events, n);
    assert CallerOk(states[n], c, states[n].callers[c]);
  }

  // ---------------------------------------------------------------- releasing

  /** The event interrupts the caller while it gives the provider's slot back. */
  predicate CutsOff<V>(s: State<V>, e: Event<V>, c: CallerId) {
    e.Interrupt? && e.c == c && c in s.callers && s.callers[c].at.GivingBack?
  }

  /** Whoever entered the origin refresh with the Redis lock has called its release when it is done, unless it
      was interrupted while giving the provider's slot back; then it has not, and its lock is left to its time
      to live. */
  lemma ReleasesUnlessCutOff<V(!new)>(states: seq<State<V>>, events: seq<Event<V>>, n: nat, c: CallerId)
    requires Run(states, events) && n <= |events|
    requires c in states[n].callers && states[n].callers[c].at.Finished?
    requires states[n].callers[c].began && Sends(states[n].callers[c])
    ensures states[n].callers[c].released <==> !exists i :: 0 <= i < n && CutsOff(states[i], events[i], c)
  {
    RunKeepsInv(states, events, n);
    assert CallerOk(states[n], c, states[n].callers[c]);
    CutOffByEvent(states, events, n, c);
  }

  /** A caller that does not hold the provider's slot always calls the release, however its refresh ends and
      whenever it is interrupted. */
  lemma SlotlessAlwaysReleases<V(!new)>(states: seq<State<V>>, events: seq<Event<V>>, n: nat, c: CallerId)
    requires Run(states, events) && n <= |events|
    requires c in states[n].callers && states[n].callers[c].at.Finished?
    requires states[n].callers[c].began && Sends(states[n].callers[c]) && !states[n].callers[c].owns
    ensures states[n].callers[c].released
  {
    RunKeepsInv(states, events, n);
    assert CallerOk(states[n], c, states[n].callers[c]);
  }

  lemma {:induction false} CutOffByEvent<V(!new)>(states: seq<State<V>>, events: seq<Event<V>>, n: nat, c: CallerId)
    requires Run(states, events) && n <= |events|
    ensures c in states[n].callers && states[n].callers[c].cutOff <==>
              exists i :: 0 <= i < n && CutsOff(states[i], events[i], c)
  {
    if n > 0 {
      CutOffByEvent(states, events, n - 1, c);
      assert StepAt(states, events, n - 1);
      CutOffStep(states[n - 1], events[n - 1], c);
    }
  }

  lemma CutOffStep<V>(s: State<V>, e: Event<V>, c: CallerId)
    requires Enabled(s, e)
    ensures var s' := Perform(s, e);
            c in s'.callers && s'.callers[c].cutOff <==> (c in s.callers && s.callers[c].cutOff) || CutsOff(s, e, c)
  {
    hide DoCheckHot, DoLookUp, DoReadRemote, DoTryLock, DoGiveUpOnPeer, DoAcceptPeer, DoDecide, DoAdmit, DoStore,
         DoWriteRemote, DoRelease, DoGiveBack, DoInterrupt;
    match e
    case CheckHot(_) => FirstStepsKeepCutOff(s, e);
    case TakeTurn(_) => FirstStepsKeepCutOff(s, e);
    case LookUp(_) => FirstStepsKeepCutOff(s, e);
    case ReadRemote(_, _) => RedisStepsKeepCutOff(s, e);
    case TryLock(_, _) => RedisStepsKeepCutOff(s, e);
    case FindPeer(_) => PeerStepsKeepCutOff(s, e);
    case GiveUpOnPeer(_) => PeerStepsKeepCutOff(s, e);
    case LosePeer(_) => PeerStepsKeepCutOff(s, e);
    case AcceptPeer(_) => PeerStepsKeepCutOff(s, e);
    case Decide(_, _, _) => RefreshStepsKeepCutOff(s, e);
    case Admit(_, _) => RefreshStepsKeepCutOff(s, e);
    case Load(_, _, _) => RefreshStepsKeepCutOff(s, e);
    case Store(_) => RefreshStepsKeepCutOff(s, e);
    case WriteRemote(_, _) => LastStepsKeepCutOff(s, e);
    case GiveBack(_) => LastStepsKeepCutOff(s, e);
    case Release(_, _) => LastStepsKeepCutOff(s, e);
    case Interrupt(d, sent) => InterruptCutsOff(s, d, sent);
    case _ =>
  }

  /** The step moves caller `d` alone and leaves its mark as it was. */
  ghost predicate KeepsCutOff<V>(s: State<V>, s': State<V>, d: CallerId) {
    && d in s.callers && d in s'.callers && s'.callers[d].cutOff == s.callers[d].cutOff
    && s'.callers == s.callers[d := s'.callers[d]]
  }

  lemma MovesKeepCutOff<V>(s: State<V>, base: State<V>, d: CallerId, caller: Caller<V>, result: Option<Served<V>>,
                           outcome: Outcome<V>)
    requires d in s.callers && base.callers == s.callers && caller.cutOff == s.callers[d].cutOff
    ensures KeepsCutOff(s, Put(base, d, caller), d) && KeepsCutOff(s, Leave(base, d, caller, outcome), d)
    ensures KeepsCutOff(s, LeaveOr(base, d, caller, result), d)
    ensures KeepsCutOff(s, FinishOrWait(base, d, caller, result), d)
    ensures KeepsCutOff(s, ReleaseOr(base, d, caller, result), d)
    ensures KeepsCutOff(s, GiveBackOr(base, d, caller, result), d)
  {
  }

  lemma LeaveKeepsCutOff<V>(s: State<V>, d: CallerId, caller: Caller<V>, outcome: Outcome<V>)
    requires d in s.callers && caller.cutOff == s.callers[d].cutOff
    ensures KeepsCutOff(s, Leave(s, d, caller, outcome), d)
  {
  }

  lemma PutKeepsCutOff<V>(s: State<V>, base: State<V>, d: CallerId, caller: Caller<V>)
    requires d in s.callers && base.callers == s.callers && caller.cutOff == s.callers[d].cutOff
    ensures KeepsCutOff(s, Put(base, d, caller), d)
  {
  }

  lemma LookedUpKeepsCutOff<V>(s: State<V>, base: State<V>, d: CallerId, caller: Caller<V>, hit: Option<Served<V>>,
                               cached: Option<Served<V>>)
    requires d in s.callers && base.callers == s.callers && caller.cutOff == s.callers[d].cutOff
    ensures KeepsCutOff(s, LookedUp(base, d, caller, hit, cached), d)
  {
    if hit.Some? {
      MovesKeepCutOff(s, base, d, caller, hit, Returned(hit.value));
    } else {
      MovesKeepCutOff(s, base, d, caller.(at := ReadingRemote, redisUp := true), cached, Raised);
      MovesKeepCutOff(s, base, d, caller.(at := AskingCircuit, redisUp := false), cached, Raised);
    }
  }

  lemma FirstStepsKeepCutOff<V>(s: State<V>, e: Event<V>)
    requires Enabled(s, e) && (e.CheckHot? || e.TakeTurn? || e.LookUp?)
    ensures KeepsCutOff(s, Perform(s, e), e.c)
  {
    var local := AfterLookup(s.local, s.now, s.policy);
    var looked, caller := s.(local := local), s.callers[e.c];
    var seen := if local.Some? then local.value.envelope else NoEnvelope();
    match e
    case CheckHot(c) => MovesKeepCutOff(s, looked, c, caller, Hit(s), Raised);
    case TakeTurn(c) => MovesKeepCutOff(s, s, c, caller.(at := LookingUp), None, Raised);
    case LookUp(c) =>
      LookedUpKeepsCutOff(s, looked, c, caller.(seen := seen), Hit(s), CachedResult(seen, s.now, s.policy));
  }

  lemma RedisStepsKeepCutOff<V>(s: State<V>, e: Event<V>)
    requires Enabled(s, e) && (e.ReadRemote? || e.TryLock?)
    ensures KeepsCutOff(s, Perform(s, e), e.c)
  {
    match e
    case ReadRemote(c, reply) => ReadKeepsCutOff(s, c, reply);
    case TryLock(c, reply) => TryLockKeepsCutOff(s, c, reply);
  }

  lemma ReadKeepsCutOff<V>(s: State<V>, c: CallerId, reply: Reply)
    requires c in s.callers
    ensures KeepsCutOff(s, DoReadRemote(s, c, reply), c)
  {
    var caller := s.callers[c];
    if !reply.Answered? {
      MovesKeepCutOff(s, s, c, caller.(at := AskingCircuit, redisUp := false),
                      CachedResult(caller.seen, s.now, s.policy), Raised);
    } else if s.remote.None? {
      MovesKeepCutOff(s, s, c, caller.(at := Acquiring), None, Raised);
    } else {
      var found := s.remote.value;
      MovesKeepCutOff(s, s.(local := Stored(found, s.now)), c, caller.(at := Acquiring, seen := found),
                      CachedResult(found, s.now, s.policy), Raised);
    }
  }

  lemma TryLockKeepsCutOff<V>(s: State<V>, c: CallerId, reply: Reply)
    requires c in s.callers
    ensures KeepsCutOff(s, DoTryLock(s, c, reply), c)
  {
    hide AfterAcquire, LockFree;
    var caller := s.callers[c].(attempted := true);
    PutKeepsCutOff(s, AfterAsking(s, caller, !reply.LostBefore?), c, Tried(caller, reply, LockFree(s.lock, s.now)));
  }

  lemma PeerStepsKeepCutOff<V>(s: State<V>, e: Event<V>)
    requires Enabled(s, e) && (e.FindPeer? || e.GiveUpOnPeer? || e.LosePeer? || e.AcceptPeer?)
    ensures KeepsCutOff(s, Perform(s, e), e.c)
  {
    var caller := s.callers[e.c];
    var result := StaleWhilePeerRefreshes(caller.seen, s.now, s.policy);
    match e
    case FindPeer(c) => MovesKeepCutOff(s, s, c, caller.(at := PeerFound(s.remote.value)), None, Raised);
    case GiveUpOnPeer(c) => MovesKeepCutOff(s, s, c, caller.(at := AskingCircuit), result, Raised);
    case LosePeer(c) => MovesKeepCutOff(s, s, c, caller.(at := AskingCircuit, redisUp := false), None, Raised);
    case AcceptPeer(c) => AcceptKeepsCutOff(s, c, CachedResult(caller.at.peer, s.now, s.policy), result);
  }

  lemma AcceptKeepsCutOff<V>(s: State<V>, c: CallerId, cached: Option<Served<V>>, result: Option<Served<V>>)
    requires c in s.callers && s.callers[c].at.PeerFound?
    requires cached == CachedResult(s.callers[c].at.peer, s.now, s.policy)
    requires result == StaleWhilePeerRefreshes(s.callers[c].seen, s.now, s.policy)
    ensures KeepsCutOff(s, DoAcceptPeer(s, c), c)
  {
    var caller := s.callers[c];
    var put := s.(local := Stored(caller.at.peer, s.now));
    if cached.Some? {
      MovesKeepCutOff(s, put, c, caller, cached, Returned(cached.value));
    } else {
      MovesKeepCutOff(s, put, c, caller.(at := AskingCircuit), result, Raised);
    }
  }

  lemma RefreshStepsKeepCutOff<V>(s: State<V>, e: Event<V>)
    requires Enabled(s, e) && (e.Decide? || e.Admit? || e.Load? || e.Store?)
    ensures KeepsCutOff(s, Perform(s, e), e.c)
  {
    var caller := s.callers[e.c];
    match e
    case Decide(c, allowed, owns) =>
      MovesKeepCutOff(s, s, c, caller.(at := AskingBudget, began := true, owns := owns),
                      if allowed then None else SuppressedByCircuit(caller.seen, s.now, s.policy), Raised);
    case Admit(c, allowed) =>
      MovesKeepCutOff(s, s, c, caller.(at := Loading, startedHot := HotAndFresh(s.local, s.now, s.policy)),
                      if allowed then None else SuppressedByBudget(caller.seen, s.now, s.policy), Raised);
    case Load(c, value, success) => MovesKeepCutOff(s, s, c, caller.(at := Loaded(value, success)), None, Raised);
    case Store(c) =>
      var envelope := Refreshed(caller.seen, caller.at.value, caller.at.success, s.now, s.policy);
      var stale := !caller.at.success && ValidLastGood(caller.seen, s.now, s.policy).Some?;
      StoreKeepsCutOff(s, c, envelope, if caller.at.success then envelope.current else s.lastSuccess, stale,
                       FromOrigin(envelope, s.now, s.policy, stale));
  }

  lemma StoreKeepsCutOff<V>(s: State<V>, c: CallerId, envelope: Envelope<V>, lastSuccess: Option<Record<V>>,
                            stale: bool,
                            outcome: Outcome<V>)
    requires c in s.callers
    ensures KeepsCutOff(s, PutEnvelope(s, c, s.callers[c], envelope, lastSuccess, stale, outcome), c)
  {
  }

  lemma LastStepsKeepCutOff<V>(s: State<V>, e: Event<V>)
    requires Enabled(s, e) && (e.WriteRemote? || e.GiveBack? || e.Release?)
    ensures KeepsCutOff(s, Perform(s, e), e.c)
  {
  }

  lemma InterruptCutsOff<V>(s: State<V>, d: CallerId, sent: bool)
    requires d in s.callers
    ensures if s.callers[d].at.GivingBack? then
              DoInterrupt(s, d, sent) == Leave(s, d, s.callers[d].(cutOff := true), Raised)
            else KeepsCutOff(s, DoInterrupt(s, d, sent), d)
  {
    var at := s.callers[d].at;
    if at.Acquiring? || at.Releasing? {
      InterruptAtRedisKeepsCutOff(s, d, sent);
    } else if !at.GivingBack? {
      InterruptElsewhereKeepsCutOff(s, d, sent);
    }
  }

  lemma InterruptElsewhereKeepsCutOff<V>(s: State<V>, d: CallerId, sent: bool)
    requires d in s.callers
    requires var at := s.callers[d].at; !at.Acquiring? && !at.Releasing? && !at.GivingBack?
    ensures KeepsCutOff(s, DoInterrupt(s, d, sent), d)
  {
    hide KeepsCutOff, AfterWriting, AfterAsking;
    var caller := s.callers[d];
    if InRefresh(caller.at) {
      InterruptedRefreshKeepsCutOff(s, d, sent);
    } else if HasTurn(caller.at) {
      LeaveKeepsCutOff(s, d, caller, Raised);
    } else {
      PutKeepsCutOff(s, s, d, caller.(at := Finished(Raised)));
    }
  }

  lemma InterruptedRefreshKeepsCutOff<V>(s: State<V>, d: CallerId, sent: bool)
    requires d in s.callers && InRefresh(s.callers[d].at)
    ensures KeepsCutOff(s, DoInterrupt(s, d, sent), d)
  {
    PutKeepsCutOff(s, AfterWriting(s, s.callers[d].at, sent), d, s.callers[d].(at := GivingBack(Raised)));
  }

  lemma InterruptAtRedisKeepsCutOff<V>(s: State<V>, d: CallerId, sent: bool)
    requires d in s.callers && (s.callers[d].at.Acquiring? || s.callers[d].at.Releasing?)
    ensures KeepsCutOff(s, DoInterrupt(s, d, sent), d)
  {
    var caller := s.callers[d];
    if caller.at.Releasing? {
      MovesKeepCutOff(s, AfterSending(s, caller, sent), d, caller.(released := Sends(caller)), None, Raised);
    } else {
      MovesKeepCutOff(s, AfterAsking(s, caller, sent), d, caller.(attempted := true), None, Raised);
    }
  }

  /** A caller's release never deletes a lock under another token, even one taken after its own lock
      timed out; and no other caller has its token. */
  lemma ReleaseSparesOthers<V(!new)>(states: seq<State<V>>, events: seq<Event<V>>, n: nat)
    requires Run(states, events) && n < |events| && AtRelease(states[n], events[n])
    requires states[n + 1].lock != states[n].lock
    ensures states[n].lock.Some? && states[n].lock.value.token == states[n].callers[events[n].c].token
    ensures states[n].callers[events[n].c].attempted
    ensures forall d :: d in states[n].callers && d != events[n].c ==>
              states[n].callers[d].token != states[n].lock.value.token
  {
    RunKeepsInv(states, events, n);
    assert StepAt(states, events, n);
    assert CallerOk(states[n], events[n].c, states[n].callers[events[n].c]);
  }

  /** The event is a caller's release of the Redis lock, interrupted or not. */
  predicate AtRelease<V>(s: State<V>, e: Event<V>) {
    (e.Release? || e.Interrupt?) && e.c in s.callers && s.callers[e.c].at.Releasing?
  }
}
