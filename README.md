# Claim-check cache and claim decision of the IAM client

This project models two parts of the IAM client library in Dafny.

- **`ClaimCheckCache`** caches claim checks. It is a nested map `userId → claimName → {userHasClaim, lastCheckedAt}` with these parts:
  - an enable/disable lifecycle that owns a periodic cleanup timer;
  - insert-or-overwrite `add`, which does nothing while the cache is disabled;
  - the lookups `get` and `hasMatchingEntry`, which check neither age nor the enabled flag;
  - the cleanup sweep `removeOutdatedEntries`;
  - the full clear that `disable` performs.
- **`IAMService.ensureHasClaim`** runs in two steps. First it validates its arguments in a fixed order. Then it checks whether the claim name is one of the keys of the introspection response.

Files:

- `claim_check_cache.dfy` (module `ClaimCache`) has the entry, store and configuration datatypes and the class `ClaimCheckCache`. The class has the fields `config`, `cache`, `cleanupTimer` and `isEnabled`, and its methods update those fields in place. Each method's postcondition ties the new store to a spec function of the old store: `Put` for `add`, `Sweep` for the sweep. Each spec function's contract describes every key's entry. The class invariant `Valid()` says three things: a timer is scheduled exactly while the cache is enabled, it runs with the configured interval, and a disabled cache is empty.
- `sweep_properties.dfy` (module `SweepProperties`) covers repeated sweeps, and the finding below.
- `iam_service.dfy` (module `IamService`) has `ensureHasClaim` as a pure function. JavaScript's `null` and `undefined` are separate values of `Nullable`. The introspection request is a function parameter that maps the token to the keys of the response.

Modelling choices:

- Time is an integer number of milliseconds. It is passed to `Add` and `RemoveOutdatedEntries` as `now`, where the code calls `moment()`. The lifetime from the configuration is in seconds, and the sweep adds `lifetime * 1000` ms.
- A scheduled timer is the field value `cleanupTimer == Some(intervalMs)`. A timer tick is an explicit call of `RemoveOutdatedEntries(now)`.
- A missing configuration object is `None`. A missing numeric option is `None` as well. A missing `enabled` is `false`, because it is falsy.
- Whatever the option names suggest, the code decides the fallbacks:
  - A lifetime of 0 or a missing lifetime falls back to 300 s. It does not mean "never expire".
  - An interval of 0 or a missing interval falls back to 120000 ms. It does not mean "no sweep".
- An undefined identity passes the `=== null` check. The request is then built from `identity.token`, which throws a `TypeError` before any HTTP call. The model has its own `TypeError` outcome for this case.

## Model

| member | source | states |
|---|---|---|
| `ClaimCache.CleanupIntervalMs` | src/claim_check_cache.ts:74-77 | the timer interval is `cleanupIntervalInSeconds * 1000`, or 120000 ms when that value is 0 or missing; it is never 0 |
| `ClaimCache.LifetimeSeconds` | src/claim_check_cache.ts:173 | the sweep's lifetime is `cacheLifetimeInSeconds`, or 300 when that value is 0 or missing; it is never 0 |
| `ClaimCache.Put` | src/claim_check_cache.ts:109-124 | after an insert-or-overwrite, the key holds exactly the new value, every other (user, claim) entry is unchanged, and the user key exists |
| `ClaimCache.PutOverwrites` | src/claim_check_cache.ts:114-124 | a second add on the same key replaces the first one's value and timestamp, so each key has at most one entry |
| `ClaimCache.Sweep` | src/claim_check_cache.ts:158-182 | all user keys stay, even with empty buckets; an entry is removed exactly when `now > lastCheckedAt + lifetime`; every surviving entry's timestamp moves forward by the lifetime |
| `ClaimCache.ZeroLifetimeStillExpires` | src/claim_check_cache.ts:173-178 | with a configured lifetime of 0, a sweep more than 300 s after an entry was recorded removes that entry |
| `ClaimCache.ClaimCheckCache.Valid` | src/claim_check_cache.ts:37-107 | class invariant kept by every method: a disabled cache is empty (it starts empty at 37 and disabled at 41, `disable` clears it at 90-92, `add` is guarded by the flag at 105, and the sweep only removes entries); a cleanup timer is scheduled exactly while the cache is enabled, with the configured interval |
| `ClaimCache.ClaimCheckCache.constructor` | src/claim_check_cache.ts:43-55 | a null or undefined config becomes `{enabled: true, 300, 120}`; afterwards the enabled flag equals `config.enabled`, the store is empty, and the invariant holds |
| `ClaimCache.ClaimCheckCache.Enabled` | src/claim_check_cache.ts:60-62 | the getter is true exactly when a cleanup timer is scheduled; when it is false, the store is empty |
| `ClaimCache.ClaimCheckCache.Enable` | src/claim_check_cache.ts:67-80 | afterwards the cache is enabled and the timer has the configured interval; on an enabled cache it changes nothing, so no second timer starts; it keeps the store |
| `ClaimCache.ClaimCheckCache.Disable` | src/claim_check_cache.ts:85-94 | afterwards the cache is disabled, no timer is scheduled and the store is empty; on a disabled cache it changes nothing |
| `ClaimCache.ClaimCheckCache.Add` | src/claim_check_cache.ts:103-125 | on a disabled cache the store is unchanged; otherwise the new store is `Put` with `{hasClaim, now}` |
| `ClaimCache.ClaimCheckCache.Get` | src/claim_check_cache.ts:136-142 | returns nothing exactly when there is no matching entry, and otherwise the stored value; it checks neither age nor the enabled flag |
| `ClaimCache.ClaimCheckCache.HasMatchingEntry` | src/claim_check_cache.ts:153-156 | true exactly when the user has a bucket that holds the claim |
| `ClaimCache.ClaimCheckCache.RemoveOutdatedEntries` | src/claim_check_cache.ts:158-182 | the nested loops over the user ids, and for each user over the claim names, leave exactly `Sweep(old store, now, lifetime)` |
| `ClaimCache.ClaimCheckCache.ClearEntireCache` | src/claim_check_cache.ts:184-189 | deleting the user keys one by one leaves an empty store |
| `SweepProperties.Ticks` | src/claim_check_cache.ts:79 | the tick times of a `setInterval` timer: n ticks, the k-th at `first + k * interval`; used only to state the periodic-sweep lemmas |
| `SweepProperties.SweepAllLookup` | src/claim_check_cache.ts:164-181 | after sweeps at `ticks`, an entry recorded at t is present exactly when, for every k, the k-th tick is at or before `t + (k+1)*lifetime`; its timestamp is then `t + |ticks| * lifetime` |
| `SweepProperties.PeriodicSweepsNeverEvict` | src/claim_check_cache.ts:174-178 | if the sweep interval is at most the lifetime, periodic sweeps never evict an entry, for any number of ticks |
| `SweepProperties.DefaultConfigEntryNeverExpires` | src/claim_check_cache.ts:174-176 | with lifetime 300 s and a 120 s interval, an entry recorded at 0 survives any number of sweeps; after the sweeps at 120, 240 and 360 s it reads timestamp 900 s |
| `SweepProperties.IntendedSweep` | src/claim_check_cache.ts:173-178 | corrected sweep: an entry is removed exactly when it is outdated, and survivors keep their original value and timestamp |
| `SweepProperties.IntendedSweepAllLookup` | src/claim_check_cache.ts:164-181 | under corrected sweeps, an entry recorded at t survives exactly when no tick is after `t + lifetime`, and it stays unchanged |
| `SweepProperties.DefaultConfigIntendedExpiry` | src/claim_check_cache.ts:173-178 | under corrected sweeps, the default-config entry recorded at 0 is gone after the 360 s sweep |
| `IamService.Includes` | src/iam_service.ts:37 | `keys.includes(name)` holds exactly when the name is in the key sequence |
| `IamService.ResponseKeys` | src/iam_service.ts:31-35 | the keys of a present response are its own keys; a null or undefined response has no keys |
| `IamService.EnsureHasClaim` | src/iam_service.ts:20-41 | a null identity gives `BadRequest('No valid identity given')`, and this check comes first; otherwise a null or `''` claim name gives `BadRequest('No valid claimName given')`; nothing else gives BadRequest; an undefined identity gets past both checks; with a valid identity, the result is Ok exactly when the claim name is a response key, and otherwise Forbidden with the fixed message |
| `IamService.ValidationPrecedesRequest` | src/iam_service.ts:21-29 | when validation rejects the arguments, or the identity is undefined, the outcome does not depend on the authority's answer, and it is never Ok |
| `IamService.MissingResponseIsForbidden` | src/iam_service.ts:31-39 | a null or undefined introspection response always gives Forbidden |
| `IamService.UndefinedClaimNameIsForbidden` | src/iam_service.ts:25-39 | an undefined claim name passes validation but always gives Forbidden |

## Left out

- setInterval/clearInterval are out, and so is asynchronous timer firing. The timer is a field, and each tick is an explicit call of `RemoveOutdatedEntries(now)`.
- The unbound cleanup callback is out. The callback is passed unbound at src/claim_check_cache.ts:79, so at run time `this` would not be the cache. Then, at every tick, `Object.keys(this.cache)` (src/claim_check_cache.ts:160) would run on `undefined` and throw a TypeError. In a live process the timer would then never evict anything, and by default an uncaught exception from a timer ends a Node process. This is a claim read from the code, not executed. The model runs the sweep on the cache itself.
- Wall-clock reads (`moment()`) are out. The caller passes the time as `now`, in milliseconds.
- `ClaimCache.ClaimCheckCache.RemoveOutdatedEntries`: the code deletes each claim from the user's bucket object in place. The model edits a copy of the bucket and writes it back after the inner loop. The end result is the same, because nothing reads the store during the loop.
- `ClaimCache.ClaimCheckCache.constructor`: the code keeps the caller's configuration object by reference (src/claim_check_cache.ts:51) and reads it again later: the sweep reads `cacheLifetimeInSeconds` on every pass of its inner loop (line 173), and `enable` reads `cleanupIntervalInSeconds` each time it starts a timer (lines 75-77). So if the caller changes that object after construction, later sweeps and a re-enable after `disable` use the new values, while a timer that is already running keeps its old interval. The model copies the configuration as a value fixed at construction, so it does not capture this aliasing.
- `ClaimCache.ClaimCheckCache.Get`: the code returns a reference to the stored value object. A later `add` or sweep that changes that object is visible through the reference. The model returns a copy, so it does not capture this aliasing.
- Object-property quirks are out. Keys are map keys, not properties of a plain object, so names inherited from `Object.prototype` (such as `constructor`) are not modelled.
- NaN, fractional and non-numeric configuration values are out. Only integers and "missing" are modelled.
- HTTP in `requestAllClaims` (src/iam_service.ts:43-60) is out. That covers the post, the headers, the payload and transport errors. It is a function from the token to the keys of the response.
- `IAMService.initialize` is out. It only builds a base64 credential string with `btoa`.
- src/identity_service.ts and src/identity.ts are out. Token decoding is a foreign call, and the identity is a plain value (here `Identity(token)`).
- ioc_module.js, the tests and the test mock are not part of this model.
- The cache-aside orchestration is not part of this model. That covers the global claim-check bypass, the god-token bypass and the classification of status codes. No source file shown here implements them.

## Findings

| source | as written | input that shows it | evidently intended | confidence | as-written member | corrected member |
|---|---|---|---|---|---|---|
| src/claim_check_cache.ts:174 | `claim.lastCheckedAt.add(lifetime, 'second')` computes the expiration time by mutating the entry's own timestamp, so each sweep pushes a survivor forward by one lifetime | default configuration (lifetime 300 s, cleanup every 120 s), entry recorded at 0, sweeps at 120, 240 and 360 s: the entry is still cached after the 360 s sweep, with timestamp 900 s; it is never evicted, whatever the number of sweeps | evict an entry at the first sweep after `recordedAt + lifetime`, leaving survivors' timestamps untouched | high (not executed) | `SweepProperties.DefaultConfigEntryNeverExpires` | `SweepProperties.IntendedSweepAllLookup` |

The class `ClaimCheckCache` keeps the as-written sweep, because the class models the code. `SweepProperties.IntendedSweep` is the corrected definition. `SweepProperties.IntendedSweepAllLookup` and `SweepProperties.DefaultConfigIntendedExpiry` prove the intended expiry for it.
