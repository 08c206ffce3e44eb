/**
 * What repeated cleanup sweeps do to one cached entry.
 *
 * The sweep as written advances a surviving entry's timestamp by the lifetime
 * on every pass (the expiration time is computed by mutating the entry's own
 * timestamp). So an entry recorded at t survives the k-th sweep (k = 1, 2, ...)
 * exactly when that sweep runs no later than t + k * lifetime; with the default
 * configuration the two-minute sweep never catches up with an entry that is
 * pushed five minutes forward each time.
 *
 * IntendedSweep is the sweep without that mutation: an entry recorded at t
 * is evicted by the first sweep that runs after t + lifetime.
 */
module SweepProperties {
  import opened ClaimCache

  /** The store after a sweep at each of `ticks`, in order. */
  function SweepAll(s: Store, ticks: seq<int>, lifetimeMs: int): Store
    decreases |ticks|
  {
    if ticks == [] then s else SweepAll(Sweep(s, ticks[0], lifetimeMs), ticks[1..], lifetimeMs)
  }

  /** An entry recorded at t survives sweeps at `ticks` under the as-written sweep. */
  ghost predicate SurvivesAll(t: int, ticks: seq<int>, lifetimeMs: int)
  {
    forall k :: 0 <= k < |ticks| ==> ticks[k] <= t + (k + 1) * lifetimeMs
  }

  lemma {:induction false} SurvivesAllUnfold(t: int, ticks: seq<int>, lifetimeMs: int)
    requires ticks != []
    ensures SurvivesAll(t, ticks, lifetimeMs) <==>
              ticks[0] <= t + lifetimeMs && SurvivesAll(t + lifetimeMs, ticks[1..], lifetimeMs)
  {
  }

  /**
   * Closed form of repeated as-written sweeps on one key: the entry survives
   * exactly when every k-th sweep is no later than t + (k + 1) * lifetime, and
   * then its timestamp has moved forward by one lifetime per sweep.
   */
  lemma {:induction false} SweepAllLookup(s: Store, ticks: seq<int>, lifetimeMs: int, userId: string, claimName: string)
    ensures Lookup(SweepAll(s, ticks, lifetimeMs), userId, claimName) ==
              match Lookup(s, userId, claimName)
              case None => None
              case Some(v) =>
                if SurvivesAll(v.lastCheckedAt, ticks, lifetimeMs)
                then Some(CacheValue(v.userHasClaim, v.lastCheckedAt + |ticks| * lifetimeMs))
                else None
    decreases |ticks|
  {
    if ticks != [] {
      var s1 := Sweep(s, ticks[0], lifetimeMs);
      SweepAllLookup(s1, ticks[1..], lifetimeMs, userId, claimName);
      match Lookup(s, userId, claimName)
      case None =>
      case Some(v) =>
        var t := v.lastCheckedAt;
        SurvivesAllUnfold(t, ticks, lifetimeMs);
        assert (t + lifetimeMs) + |ticks[1..]| * lifetimeMs == t + |ticks| * lifetimeMs;
    }
  }

  /** `n` timer ticks, `intervalMs` apart, the first at `first`. */
  function Ticks(first: int, intervalMs: int, n: nat): (r: seq<int>)
    ensures |r| == n
    ensures forall k :: 0 <= k < n ==> r[k] == first + k * intervalMs
  {
    seq(n, k => first + k * intervalMs)
  }

  /**
   * A periodic sweep whose interval does not exceed the lifetime never evicts
   * an entry, however long it runs: the first tick after the entry was recorded
   * at t comes within one interval of t, and each tick postpones the entry by a
   * full lifetime.
   */
  lemma PeriodicSweepsNeverEvict(s: Store, userId: string, claimName: string, first: int, intervalMs: int, lifetimeMs: int, n: nat)
    requires Lookup(s, userId, claimName).Some?
    requires first <= Lookup(s, userId, claimName).value.lastCheckedAt + intervalMs
    requires 0 <= intervalMs <= lifetimeMs
    ensures Lookup(SweepAll(s, Ticks(first, intervalMs, n), lifetimeMs), userId, claimName).Some?
  {
    var v := Lookup(s, userId, claimName).value;
    var ticks := Ticks(first, intervalMs, n);
    forall k | 0 <= k < n ensures ticks[k] <= v.lastCheckedAt + (k + 1) * lifetimeMs {
      assert (k + 1) * intervalMs == k * intervalMs + intervalMs;
    }
    SweepAllLookup(s, ticks, lifetimeMs, userId, claimName);
  }

  /**
   * The default configuration (lifetime 300 s, cleanup every 120 s): an entry
   * recorded at 0 is still cached after any number of sweeps, although from
   * 360 s on it is older than its lifetime; after the sweeps at 120 s, 240 s
   * and 360 s its timestamp reads 900 s.
   */
  lemma DefaultConfigEntryNeverExpires(n: nat)
    ensures var s := Put(map[], "user", "claim", CacheValue(true, 0));
            var ticks := Ticks(CleanupIntervalMs(DefaultConfig), CleanupIntervalMs(DefaultConfig), n);
            Lookup(SweepAll(s, ticks, LifetimeSeconds(DefaultConfig) * 1000), "user", "claim").Some?
    ensures var s := Put(map[], "user", "claim", CacheValue(true, 0));
            Lookup(SweepAll(s, [120000, 240000, 360000], 300000), "user", "claim") == Some(CacheValue(true, 900000))
  {
    var s := Put(map[], "user", "claim", CacheValue(true, 0));
    PeriodicSweepsNeverEvict(s, "user", "claim", 120000, 120000, 300000, n);
    SweepAllLookup(s, [120000, 240000, 360000], 300000, "user", "claim");
  }

  /** The sweep without the timestamp mutation: outdated entries go, the rest stay as they are. */
  function IntendedSweep(s: Store, now: int, lifetimeMs: int): (r: Store)
    ensures r.Keys == s.Keys
    ensures forall u, c :: Lookup(r, u, c) ==
              if Lookup(s, u, c).Some? && !Outdated(Lookup(s, u, c).value, now, lifetimeMs)
              then Lookup(s, u, c) else None
  {
    map u | u in s :: map c | c in s[u] && !Outdated(s[u][c], now, lifetimeMs) :: s[u][c]
  }

  function IntendedSweepAll(s: Store, ticks: seq<int>, lifetimeMs: int): Store
    decreases |ticks|
  {
    if ticks == [] then s else IntendedSweepAll(IntendedSweep(s, ticks[0], lifetimeMs), ticks[1..], lifetimeMs)
  }

  /**
   * Under the intended sweep an entry recorded at t survives a run of sweeps
   * exactly when none of them runs after t + lifetime, and it is left untouched.
   */
  lemma {:induction false} IntendedSweepAllLookup(s: Store, ticks: seq<int>, lifetimeMs: int, userId: string, claimName: string)
    ensures Lookup(IntendedSweepAll(s, ticks, lifetimeMs), userId, claimName) ==
              match Lookup(s, userId, claimName)
              case None => None
              case Some(v) =>
                if forall k :: 0 <= k < |ticks| ==> ticks[k] <= v.lastCheckedAt + lifetimeMs
                then Some(v) else None
    decreases |ticks|
  {
    if ticks != [] {
      IntendedSweepAllLookup(IntendedSweep(s, ticks[0], lifetimeMs), ticks[1..], lifetimeMs, userId, claimName);
      match Lookup(s, userId, claimName)
      case None =>
      case Some(v) =>
        assert forall k :: 0 <= k < |ticks| - 1 ==> ticks[1..][k] == ticks[k + 1];
        if forall k :: 0 <= k < |ticks| ==> ticks[k] <= v.lastCheckedAt + lifetimeMs {
        } else {
          var k :| 0 <= k < |ticks| && ticks[k] > v.lastCheckedAt + lifetimeMs;
          assert k == 0 || ticks[1..][k - 1] > v.lastCheckedAt + lifetimeMs;
        }
    }
  }

  /** The default configuration again: under the intended sweep the entry is gone by the 360 s sweep. */
  lemma DefaultConfigIntendedExpiry()
    ensures var s := Put(map[], "user", "claim", CacheValue(true, 0));
            Lookup(IntendedSweepAll(s, [120000, 240000, 360000], 300000), "user", "claim") == None
  {
    var s := Put(map[], "user", "claim", CacheValue(true, 0));
    IntendedSweepAllLookup(s, [120000, 240000, 360000], 300000, "user", "claim");
    assert [120000, 240000, 360000][2] > 0 + 300000;
  }
}
