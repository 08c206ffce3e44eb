/**
 * The claim-check cache: a nested map userId -> claimName -> cached decision,
 * a two-state enable/disable lifecycle with a periodic cleanup timer, and the
 * cleanup sweep that evicts entries older than the configured lifetime.
 *
 * Time is an integer number of milliseconds, passed in explicitly as `now`.
 * The cleanup timer is a field recording the interval it was scheduled with;
 * a timer tick is an explicit call of RemoveOutdatedEntries(now).
 */
module ClaimCache {

  datatype Option<T> = None | Some(value: T)

  /** One cached claim-check decision, recorded at `lastCheckedAt` (ms). */
  datatype CacheValue = CacheValue(userHasClaim: bool, lastCheckedAt: int)

  /** The claims cached for one user, keyed by claim name. */
  type Bucket = map<string, CacheValue>

  /** The whole store, keyed by user id. */
  type Store = map<string, Bucket>

  /** A missing numeric option is None; `enabled` missing reads as false. */
  datatype ClaimCacheConfig = ClaimCacheConfig(
    enabled: bool,
    cacheLifetimeInSeconds: Option<int>,
    cleanupIntervalInSeconds: Option<int>)

  /** Used when the constructor is given no configuration at all. */
  const DefaultConfig := ClaimCacheConfig(true, Some(300), Some(120))

  /** Lifetime used by the sweep when the configured one is 0 or missing. */
  const FallbackLifetimeSeconds := 300

  /** Timer interval used when the configured one is 0 or missing (2 minutes). */
  const FallbackIntervalMs := 120000

  /** The interval (ms) the cleanup timer is scheduled with by `enable`. */
  function CleanupIntervalMs(config: ClaimCacheConfig): (ms: int)
    ensures ms != 0
    ensures config.cleanupIntervalInSeconds in {None, Some(0)} ==> ms == FallbackIntervalMs
    ensures config.cleanupIntervalInSeconds.Some? && config.cleanupIntervalInSeconds.value != 0 ==>
              ms == config.cleanupIntervalInSeconds.value * 1000
  {
    match config.cleanupIntervalInSeconds
    case Some(s) => if s != 0 then s * 1000 else FallbackIntervalMs
    case None => FallbackIntervalMs
  }

  /** The lifetime (seconds) the sweep applies; a configured 0 does not mean "never expire". */
  function LifetimeSeconds(config: ClaimCacheConfig): (l: int)
    ensures l != 0
    ensures config.cacheLifetimeInSeconds in {None, Some(0)} ==> l == FallbackLifetimeSeconds
    ensures config.cacheLifetimeInSeconds.Some? && config.cacheLifetimeInSeconds.value != 0 ==>
              l == config.cacheLifetimeInSeconds.value
  {
    match config.cacheLifetimeInSeconds
    case Some(s) => if s != 0 then s else FallbackLifetimeSeconds
    case None => FallbackLifetimeSeconds
  }

  /** The entry stored for (userId, claimName), if any. */
  function Lookup(s: Store, userId: string, claimName: string): Option<CacheValue>
  {
    if userId in s && claimName in s[userId] then Some(s[userId][claimName]) else None
  }

  /** An entry is outdated once `now` is strictly after its expiration time. */
  predicate Outdated(v: CacheValue, now: int, lifetimeMs: int)
  {
    now > v.lastCheckedAt + lifetimeMs
  }

  /** The entry after its own timestamp has been advanced by the lifetime. */
  function Postponed(v: CacheValue, lifetimeMs: int): CacheValue
  {
    v.(lastCheckedAt := v.lastCheckedAt + lifetimeMs)
  }

  /** What one sweep does to the entry of one key: drop it if outdated, else postpone it. */
  function SweptEntry(o: Option<CacheValue>, now: int, lifetimeMs: int): Option<CacheValue>
  {
    if o.Some? && !Outdated(o.value, now, lifetimeMs) then Some(Postponed(o.value, lifetimeMs)) else None
  }

  /** Insert-or-overwrite of one entry, creating the user's bucket when missing. */
  function Put(s: Store, userId: string, claimName: string, v: CacheValue): (r: Store)
    ensures Lookup(r, userId, claimName) == Some(v)
    ensures forall u, c :: (u != userId || c != claimName) ==> Lookup(r, u, c) == Lookup(s, u, c)
    ensures r.Keys == s.Keys + {userId}
  {
    var bucket := if userId in s then s[userId] else map[];
    s[userId := bucket[claimName := v]]
  }

  /** A second add on the same key overwrites value and timestamp: one entry per key. */
  lemma PutOverwrites(s: Store, userId: string, claimName: string, v1: CacheValue, v2: CacheValue)
    ensures Put(Put(s, userId, claimName, v1), userId, claimName, v2) == Put(s, userId, claimName, v2)
  {
    var bucket := if userId in s then s[userId] else map[];
    assert bucket[claimName := v1][claimName := v2] == bucket[claimName := v2];
  }

  /** One user's bucket after a sweep. */
  function SweepBucket(b: Bucket, now: int, lifetimeMs: int): Bucket
  {
    map c | c in b && !Outdated(b[c], now, lifetimeMs) :: Postponed(b[c], lifetimeMs)
  }

  /**
   * The store after one sweep: every user key stays (possibly with an empty
   * bucket), outdated entries are gone, and every survivor's timestamp has
   * moved forward by the lifetime.
   */
  function Sweep(s: Store, now: int, lifetimeMs: int): (r: Store)
    ensures r.Keys == s.Keys
    ensures forall u, c :: Lookup(r, u, c) == SweptEntry(Lookup(s, u, c), now, lifetimeMs)
  {
    map u | u in s :: SweepBucket(s[u], now, lifetimeMs)
  }

  /** A configured lifetime of 0 falls back to 300 s: the entry expires all the same. */
  lemma ZeroLifetimeStillExpires(config: ClaimCacheConfig, s: Store, userId: string, claimName: string, now: int)
    requires config.cacheLifetimeInSeconds == Some(0)
    requires Lookup(s, userId, claimName).Some?
    requires now > Lookup(s, userId, claimName).value.lastCheckedAt + 300000
    ensures Lookup(Sweep(s, now, LifetimeSeconds(config) * 1000), userId, claimName) == None
  {
  }

  class ClaimCheckCache {
    var config: ClaimCacheConfig
    var cache: Store
    /** Some(ms) while a periodic cleanup with interval ms is scheduled. */
    var cleanupTimer: Option<int>
    var isEnabled: bool

    /** The cache holds entries only while enabled, and a timer runs exactly while enabled. */
    ghost predicate Valid()
      reads this
    {
      (isEnabled <==> cleanupTimer.Some?) &&
      (isEnabled ==> cleanupTimer == Some(CleanupIntervalMs(config))) &&
      (!isEnabled ==> cache == map[])
    }

    /** A null or undefined configuration is replaced by DefaultConfig. */
    constructor (config: Option<ClaimCacheConfig>)
      ensures Valid()
      ensures this.config == (if config.Some? then config.value else DefaultConfig)
      ensures isEnabled == this.config.enabled
      ensures cache == map[]
    {
      this.config := if config.Some? then config.value else DefaultConfig;
      cache := map[];
      cleanupTimer := None;
      isEnabled := false;
      new;
      if this.config.enabled {
        Enable();
      }
    }

    /** The `enabled` getter. */
    function Enabled(): (r: bool)
      reads this
      ensures Valid() ==> (r <==> cleanupTimer.Some?)
      ensures Valid() && !r ==> cache == map[]
    {
      isEnabled
    }

    /** Idempotent: a second call schedules no new timer and changes nothing. */
    method Enable()
      requires Valid()
      modifies this
      ensures Valid() && isEnabled
      ensures old(isEnabled) ==> unchanged(this)
      ensures cleanupTimer == Some(CleanupIntervalMs(config))
      ensures config == old(config) && cache == old(cache)
    {
      if isEnabled {
        return;
      }
      isEnabled := true;
      var intervalInMs := CleanupIntervalMs(config);
      cleanupTimer := Some(intervalInMs);
    }

    /** Idempotent: on an enabled cache, cancels the timer and clears every entry. */
    method Disable()
      requires Valid()
      modifies this
      ensures Valid() && !isEnabled
      ensures !old(isEnabled) ==> unchanged(this)
      ensures cleanupTimer == None && cache == map[]
      ensures config == old(config)
    {
      if !isEnabled {
        return;
      }
      isEnabled := false;
      cleanupTimer := None;  // clearInterval
      ClearEntireCache();
    }

    /** Insert-or-overwrite of (userId, claimName), stamped with `now`; a no-op while disabled. */
    method Add(userId: string, claimName: string, hasClaim: bool, now: int)
      requires Valid()
      modifies this`cache
      ensures Valid()
      ensures cache == if isEnabled then Put(old(cache), userId, claimName, CacheValue(hasClaim, now))
                       else old(cache)
    {
      if !isEnabled {
        return;
      }
      if userId !in cache {
        cache := cache[userId := map[]];
      }
      var claimNotCached := !HasMatchingEntry(userId, claimName);
      if claimNotCached {
        cache := cache[userId := cache[userId][claimName := CacheValue(hasClaim, now)]];
      } else {
        var v := cache[userId][claimName];
        v := v.(userHasClaim := hasClaim);
        v := v.(lastCheckedAt := now);
        cache := cache[userId := cache[userId][claimName := v]];
      }
    }

    /** The cached entry, or None exactly when there is no matching entry; age is not checked. */
    function Get(userId: string, claimName: string): (r: Option<CacheValue>)
      reads this
      ensures r.None? <==> !HasMatchingEntry(userId, claimName)
      ensures r.Some? ==> userId in cache && claimName in cache[userId] && r.value == cache[userId][claimName]
    {
      if !HasMatchingEntry(userId, claimName) then None else Some(cache[userId][claimName])
    }

    /** Whether an entry exists for (userId, claimName); neither age nor the enabled flag is checked. */
    function HasMatchingEntry(userId: string, claimName: string): (r: bool)
      reads this
      ensures r <==> Lookup(cache, userId, claimName).Some?
    {
      userId in cache && claimName in cache[userId]
    }

    /**
     * The cleanup sweep over a snapshot of the user ids and, per user, of the
     * claim names. Each entry's timestamp is first advanced by the lifetime
     * (the timestamp object is mutated by the addition), then the entry is
     * deleted if `now` is after that advanced timestamp.
     */
    method RemoveOutdatedEntries(now: int)
      requires Valid()
      modifies this`cache
      ensures Valid()
      ensures cache == Sweep(old(cache), now, LifetimeSeconds(config) * 1000)
    {
      ghost var s0 := cache;
      var lifetimeMs := LifetimeSeconds(config) * 1000;
      var cachedUserIds := cache.Keys;
      while cachedUserIds != {}
        invariant cachedUserIds <= s0.Keys
        invariant cache.Keys == s0.Keys
        invariant forall u :: u in cache ==>
                    cache[u] == if u in cachedUserIds then s0[u] else SweepBucket(s0[u], now, lifetimeMs)
        decreases cachedUserIds
      {
        var userId :| userId in cachedUserIds;
        cachedUserIds := cachedUserIds - {userId};
        var cachedUser := cache[userId];
        ghost var b0 := cachedUser;
        var cachedClaimsForUser := cachedUser.Keys;
        while cachedClaimsForUser != {}
          invariant cachedClaimsForUser <= b0.Keys
          invariant forall c :: c in cachedUser <==>
                      c in b0 && (c in cachedClaimsForUser || !Outdated(b0[c], now, lifetimeMs))
          invariant forall c :: c in cachedUser ==>
                      cachedUser[c] == if c in cachedClaimsForUser then b0[c] else Postponed(b0[c], lifetimeMs)
          decreases cachedClaimsForUser
        {
          var claimName :| claimName in cachedClaimsForUser;
          cachedClaimsForUser := cachedClaimsForUser - {claimName};
          var claim := cachedUser[claimName];
          claim := claim.(lastCheckedAt := claim.lastCheckedAt + lifetimeMs);
          cachedUser := cachedUser[claimName := claim];
          if now > claim.lastCheckedAt {
            cachedUser := cachedUser - {claimName};
          }
        }
        assert cachedUser == SweepBucket(b0, now, lifetimeMs);
        cache := cache[userId := cachedUser];
      }
      assert cache == map u | u in s0 :: SweepBucket(s0[u], now, lifetimeMs);
    }

    /** Deletes every user key, one at a time. */
    method ClearEntireCache()
      modifies this`cache
      ensures cache == map[]
    {
      var cachedUserIds := cache.Keys;
      while cachedUserIds != {}
        invariant cache.Keys == cachedUserIds
        decreases cachedUserIds
      {
        var userId :| userId in cachedUserIds;
        cache := cache - {userId};
        cachedUserIds := cachedUserIds - {userId};
      }
      assert cache.Keys == {};
    }
  }
}
