# structured-proxy: verified core

A Dafny model of the parts of structured-proxy where correctness depends on arithmetic, on histories
or on interleavings, with proofs over every input, every run and every reachable state. Check the
whole project with `dafny verify dfyconfig.toml`.

| component | files |
|---|---|
| local rate limiter (GCRA), its token bucket, its store and changes of limit | `Gcra`, `TokenBucket`, `GcraStore`, `TierChange` |
| fleet-wide counting over a shared store | `Window`, `FleetCounters`, `FleetGate`, `Reconcile`, `Fleet`, `FleetLosses`, `FleetOvershoot` |
| charging a request and reporting the budget | `Shield`, `RateHeaders` |
| limits fetched from a service | `LimitRefresh`, `LimitAnswers`, `LimitAges` |
| verified-token cache and key set, and how long a revoked key is honoured | `ClaimsCache`, `CacheSlots`, `Jwks`, `Revocation`, `RevocationDates`, `RevocationReach` |
| client address from `X-Forwarded-For`, and the headers sent on | `ForwardedFor`, `ClientAddress`, `ClientCases`, `HeaderCases`, `ForwardingLaws` |
| OpenAPI query parameters, component schemas and operation ids | `Descriptors`, `QueryParams`, `QueryPaths`, `Schemas`, `SchemaClosure`, `SchemaClashes`, `SchemaValues`, `SchemaNamesakes`, `OperationIds` |
| connection idle detection, slots for requests in flight | `Idle`, `InFlight` |

How the model is made:

- Code that updates state in place is a class, or a method with loops, proved equal to a function of
  the old state; the theorems are about those functions.
- A concurrent protocol is a state machine whose steps are the source's atomic operations, taken by
  any number of tasks or proxy instances in any order. Theorems are about every run from the initial
  state.
- Time is natural numbers (nanoseconds, or seconds where the code truncates to them). Every reading of
  a clock is a parameter, so each theorem says what it needs of the clock; most need nothing.
- Fetches, pushes, reads and notifications succeed, fail or are delayed by nondeterministic choice.
- Token signatures, address parsing and printing, and the shared store's transport are parameters with
  stated laws; `ForwardingLaws.LawfulTextExists` shows the laws asked of address text can be met.

Where the code falls short of its own documentation the code is kept, and the exact extent is proved:

- A profile of `rate` per `window` with `burst` promises at most `burst + rate` in a window. Emission
  intervals are whole nanoseconds rounded down, so a very fast rate admits more:
  `Gcra.FastRateOverrun` is a case, `Gcra.WindowBoundExact` says exactly when the promise holds, and
  `Gcra.SlowRatesFit` gives a simple sufficient condition.
- `remaining`, and the invisibility of eviction, are exact if and only if the burst is at most 2^32
  (`TokenBucket.RemainingExactIff`, `GcraStore.EvictionInvisibleIff`), because the burst tolerance is
  computed from a 32-bit count.
- The comment in `charge` says a change of limit self-corrects within one window. The wait is exactly
  what the old limit lets a key owe less what the new one tolerates (`TierChange.ChangeWait`); it fits
  the old window whenever the old burst is at most the old rate, and `TierChange.ChangeWithinWindow`
  says exactly when it does. `TierChange.HourlyToMinutely` is a change that takes five hours.
- The repository's own README.md, lines 1399-1403, says a token stops passing within
  `jwks_max_age_secs + max_ttl_secs` of its key leaving, while the endpoint answers. Two things break it:
  - A set is aged from when its fetch ended, but was served earlier, so the time a fetch takes adds to
    the bound. `RevocationReach.ExactBound` gives the longest time exactly, over runs in which no refresh
    fails or is abandoned and for every setting the proxy accepts: maximum age, one fetch timeout and
    maximum cache age, less three nanoseconds. `RevocationReach.DocumentedBoundIff`: over those runs the
    documented bound is kept if and only if fetches take at most two nanoseconds.
    `RevocationReach.DocumentedBoundMissed` is a run that passes 360 s.
  - The fetch runs inside the request, so a client that disconnects abandons it: neither a success nor a
    failure, but its stamp throttles the next caller, who answers from the set in place however old it
    is. With one abandoned refresh and no failed one, no bound holds (`RevocationReach.AbandonedNoBound`).
    `Revocation.RevokedStopsPassing` is the guarantee that counts both.
- A client's element of 129 bytes is readable at the start of a field line and nowhere else
  (`ForwardingLaws.LeftIsIgnored`), and a verified chain of 33 addresses can be written but not read
  (`ForwardingLaws.VerifiedRoundTrip`, `ForwardingLaws.ChainGrows`).
- The comment on `Report::apply` says a refusal's budget headers are never overwritten. They are, when
  an outer limiter is exhausted for longer (`RateHeaders.RefusalReplacedIff`).
- The comment on `idle_for` says it resolves once no request has been in flight for the timeout. For
  every timeout there is a run where the timer wins over the notification of a request that came and
  went (`Idle.ReturnsAfterRequest`); what is guaranteed is `Idle.ReturnsWhenIdle`.
- The comment on `register_nested` says a field's reference resolves. A message that shares the short
  name of a map's entry can leave the map's reference dangling (`SchemaClashes.EntryClash`).
  `SchemaClashes.ReferencesResolveIff`: references resolve over every sequence of registrations if and
  only if each such message brings in what the map refers to. Operations never exclude every field of
  a request; for the documents they write the same condition is enough, and is needed where the
  messages a clash is about, those that share an entry's name and the values of an entry that shares its
  name with another, have a field that refers to nothing, or no field
  (`SchemaClashes.DocumentsResolveIff`).
- Components are named by a message's short name, and the first one registered stands for all. Documents
  describe the values of what they mention, and no others, if and only if messages that share a short name
  have the same values (`SchemaNamesakes.DescribedIff`; `SchemaNamesakes.NamesakeHides` is the document
  that fails). A field an operation leaves out of a request is gone from the component, and so from every
  other operation that refers to it (`SchemaNamesakes.ExclusionHides`).
- A request that reads a cached limit is to count as its last use, so that an active key outlives a sweep.
  It does, in every run, if and only if no fetch had then read an answer for the key and not yet stored it
  (`LimitAges.UseRememberedIff`).
- A path parameter that is a message is written as a reference that nothing registers
  (`SchemaClashes.PathParamResolvesIff`).

## Model

| member | source | states |
|---|---|---|
| `Gcra.CheckDecides` | src/shield/gcra.rs:97-137 | a request passes exactly when the stored arrival time is at most the tolerance ahead of the clock, and only a passing one moves it, to one emission past the later of the two |
| `Gcra.IntervalBound` | src/shield/gcra.rs:97-137 | in any contiguous stretch of any run, with clock readings in any order, the admits number at most the capacity plus the emissions between the first and last admitted reading |
| `Gcra.WindowMaximum` | src/shield/gcra.rs:97-137 | capacity plus emissions per window is the maximum over all runs within a window: never exceeded, and reached |
| `Gcra.WindowBoundExact` | src/shield/gcra.rs:76-89 | every window admits at most `burst + rate` if and only if the profile's capacity and emission interval add up to that |
| `Gcra.SlowRatesFit` | src/shield/gcra.rs:76-89 | when `rate * rate` is at most the window in nanoseconds, no window admits more than `burst + rate` |
| `Gcra.FastRateOverrun` | src/shield/gcra.rs:76-89 | seven per ten nanoseconds with burst 1 admits eleven in ten nanoseconds |
| `TokenBucket.TokenBucketRefinement` | src/shield/gcra.rs:97-137 | over every run of a non-decreasing clock the limiter decides as a token bucket refilled continuously, of capacity `burst` emissions for bursts up to 2^32 |
| `TokenBucket.DecidesAlike` | src/shield/gcra.rs:97-137 | the same from any pair of a stored arrival time and a bucket that match |
| `TokenBucket.RemainingExact` | src/shield/gcra.rs:97-137 | of any number of further requests at the same instant exactly `remaining` pass |
| `TokenBucket.RemainingExactIff` | src/shield/gcra.rs:76-89 | that holds for every state and instant if and only if the burst is at most 2^32 |
| `TokenBucket.RetryAfterLeast` | src/shield/gcra.rs:97-137 | a refused request passes after a wait if and only if the wait is at least `retry_after` |
| `TokenBucket.ResetAfterLeast` | src/shield/gcra.rs:97-137 | a whole burst passes after a wait if and only if the wait is at least `reset_after` |
| `TokenBucket.DrainedIsFresh` | src/shield/gcra.rs:97-137 | a key whose arrival time has passed is judged as one never seen |
| `TierChange.ChangeWait` | src/shield/mod.rs:320-328 | whatever a key did before, it passes after a wait on the new limit if and only if the wait is at least the old limit's debt less the new one's tolerance |
| `TierChange.ChangeWithinWindow` | src/shield/mod.rs:320-328 | a change settles within the old window if and only if that difference fits it, as it does when the old burst is at most the old rate |
| `TierChange.HourlyToMinutely` | src/shield/mod.rs:320-328 | from one an hour with a burst of five to one a minute a key passes for certain only after five hours |
| `TierChange.OwesAtMost` | src/shield/mod.rs:320-328 | over any limits and readings a key is never further ahead of the latest reading than the largest tolerance and emission |
| `GcraStore.Store.constructor` | src/shield/store.rs:56-62 | an empty store that has not swept |
| `GcraStore.Store.CheckKey` | src/shield/store.rs:66-95 | the verdict on the stored arrival time after a due sweep; only an admitted request writes |
| `GcraStore.Store.MaybeSweep` | src/shield/store.rs:113-133 | a sweep every minute, or every second above the high-water mark, and otherwise nothing |
| `GcraStore.Store.EvictDrained` | src/shield/store.rs:106-110 | exactly the keys whose arrival time is still ahead are kept |
| `GcraStore.EvictionInvisible` | src/shield/store.rs:66-133 | over every run of a non-decreasing clock, any keys and changing tiers, the sweeping store gives the verdicts of one that never evicts |
| `GcraStore.EvictionInvisibleIff` | src/shield/store.rs:66-133 | verdicts are equal in every field over all runs of a limiter if and only if its burst is at most 2^32 |
| `GcraStore.EvictionVisible` | src/shield/store.rs:66-133 | the run that tells the two stores apart for any larger burst |
| `GcraStore.SweepsApart` | src/shield/store.rs:113-133 | over every run the sweeps are at least a second apart, counted from the last before it |
| `GcraStore.ReclaimedWhenDue` | src/shield/store.rs:106-133 | a check a minute after the last sweep, or a second with more than 200 000 keys, leaves exactly the keys still ahead of the clock; a check sooner leaves all |
| `Window.ClockSplits` | src/shield/window.rs:13-22 | an instant is its epoch's start plus the time elapsed in it, which is less than the window |
| `Window.EpochMonotone` | src/shield/window.rs:13-15 | a later instant is in no earlier epoch |
| `Window.EstimateBounds` | src/shield/window.rs:26-30 | the applied estimate lies between the current count and the sum of both, less than one above the exact value |
| `Window.EstimateFalls` | src/shield/window.rs:26-30 | the estimate never rises as the window elapses |
| `Window.EstimateContinuous` | src/shield/window.rs:26-30 | at the end of an epoch it equals the estimate at the start of the next |
| `Window.EstimateExact` | src/shield/window.rs:26-30 | the estimate is the current count in full and the previous one for the nanoseconds of the window still left, over the window, rounded up, in whole numbers |
| `Window.WindowSecs` | src/shield/global.rs:203-217 | the whole seconds of a window, and at least one |
| `Window.CounterOutlivesReads` | src/shield/global.rs:407-439 | a shared counter pushed to since its epoch began holds every push while it is read as current or previous epoch |
| `FleetCounters.RollConserves` | src/shield/global.rs:107-126 | rolling to any epoch keeps the pending admits of every epoch, except an unclaimed carryover older than the one being made |
| `FleetCounters.ClaimConserves` | src/shield/global.rs:329-371 | a claim's plans carry each pending admit once, under its own epoch, and leave none pending |
| `FleetCounters.PassClaimsConserve` | src/shield/global.rs:329-371 | over all keys a pass's plans add up, key by key and epoch by epoch, to what was pending |
| `FleetCounters.IncrementedBy` | src/shield/global.rs:407-426 | a push raises each counter by its plans' total for it and no other |
| `FleetCounters.GlobalCounters.constructor` | src/shield/global.rs:142-160 | no key is tracked, and the interval is at least 50 ms |
| `FleetCounters.GlobalCounters.StateFor` | src/shield/global.rs:203-235 | a key is tracked exactly when known or fewer than 500 000 are; it is rolled to the clock's epoch and stamped, keeps its estimate, and starts from nothing when new or its window changed |
| `FleetCounters.GlobalCounters.FleetRemaining` | src/shield/global.rs:165-186 | the budget less the pending admits and, while it is fresh, the remote estimate; the whole budget for an untracked key |
| `FleetCounters.GlobalCounters.Record` | src/shield/global.rs:190-197 | one more admit in the clock's epoch for a tracked key |
| `FleetCounters.GlobalCounters.ClaimKey` | src/shield/global.rs:329-371 | the plans of one key and its state with nothing pending |
| `FleetCounters.GlobalCounters.ClaimPlans` | src/shield/global.rs:329-371 | the plans of all keys in order, every key claimed |
| `FleetCounters.GlobalCounters.ApplyEstimates` | src/shield/global.rs:374-401 | each read count becomes the estimate of a key that is still in the plan's epoch and window, and of no other |
| `FleetCounters.GlobalCounters.EvictStale` | src/shield/global.rs:456-465 | a key is dropped exactly when it has nothing pending and was last seen ten minutes and two windows ago, so no pending admit of any epoch is |
| `FleetCounters.SharedStore.PushDeltas` | src/shield/global.rs:407-426 | the counters after the plans, in one transaction |
| `FleetCounters.SharedStore.ReadEpochs` | src/shield/global.rs:430-450 | the counts of each plan's epoch and the one before |
| `FleetGate.GateExact` | src/shield/global.rs:165-197 | of any number of requests at one instant, each gated and recorded if it passes, exactly the budget less what is pending and the estimate pass; an estimate older than four intervals and two seconds counts for nothing |
| `FleetGate.UntrackedPasses` | src/shield/global.rs:165-186 | a key not tracked passes every request its budget is not zero for |
| `Reconcile.ReconcileAt` | src/shield/global.rs:276-320 | a pass raises each shared counter by what was pending for it when the push commits and by nothing otherwise, leaves nothing pending or marked, and when answered gives every key it asked about the weighted count of the two epochs and no other key anything |
| `Reconcile.AppliedLast` | src/shield/global.rs:374-401 | applying any list of reads gives a key the estimate of the last plan that is for its window, no epoch behind it and no carryover |
| `Reconcile.AppliedOther` | src/shield/global.rs:374-401 | and leaves a key no such plan is for as it was |
| `Fleet.LedgerBalances` | src/shield/global.rs:276-371 | in every interleaving of any number of instances, for each key and epoch, what an instance recorded is exactly what it has unclaimed, in flight, published, lost or forgotten, and the shared counter is exactly what was published and has not expired; so it never exceeds what was recorded |
| `Fleet.TouchedPending` | src/shield/global.rs:203-235 | touching a key keeps its pending admits of every epoch except those it names as forgotten |
| `FleetLosses.NothingElseIsLost` | src/shield/global.rs:107-126 | in a run without a lost push, a window change or a second unclaimed epoch boundary, every recorded admit is in the counter, expired with it or still held |
| `FleetOvershoot.OvershootBounded` | src/shield/global.rs:165-186 | in runs whose epochs never go back, right after an admit through a gate with a fresh estimate, the fleet's total for the epoch, and the sliding total with the previous epoch's count weighted as the gate's snapshot had it, are at most the budget, plus the others' admits missing from that snapshot, plus the instance's own claims not yet applied |
| `Shield.Charger.Charge` | src/shield/mod.rs:257-352 | a request the fleet refuses leaves the limiter untouched, one the limiter refuses is not counted, and one that passes is charged to both, each on its own clock reading |
| `Shield.FleetBackoff` | src/shield/mod.rs:389-391 | a tenth of the window, and never under a second |
| `Shield.Reconciled` | src/shield/mod.rs:360-385 | the reported remaining is the tighter of the two budgets, and waits are never shortened |
| `Shield.ChargeIsGateThenRecord` | src/shield/mod.rs:309-347 | the counts a charge leaves are those of the fleet protocol's gate step, then its record step |
| `RateHeaders.Response.Tighten` | src/shield/mod.rs:399-439 | the headers after one limiter |
| `RateHeaders.TightestWins` | src/shield/mod.rs:399-439 | after any list of limiters the advertised budget is one of those offered and binds at least as hard as all of them |
| `RateHeaders.OrderDoesNotMatter` | src/shield/mod.rs:399-439 | limiters in another order, or repeated, leave the client the same remaining and reset |
| `RateHeaders.HeadersGoTogether` | src/shield/mod.rs:399-439 | limit, remaining and reset are all of one limiter, or all as they came |
| `RateHeaders.RetryNeverShrinks` | src/shield/mod.rs:423-437 | `Retry-After` is never added or shortened, and covers the reset of any budget put in later |
| `RateHeaders.RefusalReplacedIff` | src/shield/mod.rs:229-243 | a refusal's budget is replaced exactly by one that is exhausted for longer |
| `RateHeaders.SecsCeilCovers` | src/shield/mod.rs:626-631 | whole seconds cover the wait with less than a second to spare, and are zero only for none |
| `LimitRefresh.RefreshBounded` | src/shield/resolve.rs:288-359 | in every interleaving the in-flight keys are exactly those of callers under way, one a key, at most 32 fetches run, and the cache outgrows its limit by fewer than 32 entries |
| `LimitRefresh.FailStatic` | src/shield/resolve.rs:235-359 | after any run, through any failed fetches, a cached key keeps telling its last answer until it is evicted or answered anew |
| `LimitRefresh.StepKeeps` | src/shield/resolve.rs:318-356 | no step of any task changes what a cached key tells but an eviction of it or an answer for it |
| `LimitRefresh.FailureThrottles` | src/shield/resolve.rs:333-354 | after a failed fetch of a cached key, whatever else happens, no request made from then on asks for its refresh until the time to live has passed or the key is evicted |
| `LimitRefresh.FetchesAfterFailure` | src/shield/resolve.rs:333-354 | in that time the key is claimed for a fetch at most as often as callers had found it stale before the failure and not yet asked |
| `LimitAnswers.ToldIsLastAnswer` | src/shield/resolve.rs:257-356 | after any run a request is told exactly the last answer stored for its key since it was last evicted, an answer of no limit included, and nothing for a key without one |
| `LimitAnswers.AsksIff` | src/shield/resolve.rs:257-280 | a request asks for a refresh exactly when the key is not cached or its time to live has passed, and is told the same either way |
| `LimitAnswers.RefreshSucceeds` | src/shield/resolve.rs:288-359 | a refresh nobody interrupts stores the answer under its key and gives back claim and slot, unless the key is new and the cache full |
| `LimitAges.NewKeyThrottles` | src/shield/resolve.rs:333-354 | a failed fetch of a key not cached is remembered, if there was room: once stored, whatever else happens, no request asks again until the time to live has passed since the failure or the key is evicted |
| `LimitAges.UseRememberedIff` | src/shield/resolve.rs:257-265 | a read of a cached key counts as its last use in every run until it is evicted, if and only if no fetch had an older answer for it still to store |
| `ClaimsCache.Cache.constructor` | src/auth/cache.rs:76-95 | no entry, no slot taken, no sweep claimed |
| `ClaimsCache.Cache.Get` | src/auth/cache.rs:115-131 | claims are returned exactly for an entry whose `exp` and cache deadline are both ahead, and are that entry's; any other entry is removed and its slot freed |
| `ClaimsCache.Cache.Insert` | src/auth/cache.rs:135-166 | stored when a slot is free, after a sweep if the cache is full and this second's sweep is unclaimed |
| `ClaimsCache.Cache.Reserve` | src/auth/cache.rs:169-175 | a slot is taken exactly when one is free |
| `ClaimsCache.Cache.ClaimSweep` | src/auth/cache.rs:180-186 | a second's sweep is claimed once, and never again for it or an earlier one |
| `ClaimsCache.Cache.Sweep` | src/auth/cache.rs:190-198 | exactly the entries whose `exp` and cache deadline are both ahead stay, and every slot taken still holds one |
| `CacheSlots.SlotsAccountedFor` | src/auth/cache.rs:115-198 | in every interleaving of any number of callers, slots taken are the entries plus what callers have reserved or not yet given back; never more than the limit, none leaked at rest, and sweeps are claimed in strictly increasing seconds |
| `CacheSlots.GiveBackNeverUnderflows` | src/auth/cache.rs:115-198 | no caller ever gives back more slots than are taken |
| `CacheSlots.EntryChanges` | src/auth/cache.rs:115-198 | a step leaves the entry of a key alone, removes one past its `exp` or deadline at the caller's reading, or stores what the caller brought for that key |
| `CacheSlots.BroughtEntry` | src/auth/cache.rs:135-150 | a caller brings an entry exactly for a token with an `exp` ahead and an `nbf` not ahead, to live until that `exp` and for the maximum age |
| `CacheSlots.InsertAlone` | src/auth/cache.rs:135-198 | the steps of a caller nobody interrupts store claims as the sequential `Insert` does, sweep and second try included |
| `CacheSlots.LookAlone` | src/auth/cache.rs:115-131 | and look a token up as `Get` does: a dead entry goes, with its slot |
| `Jwks.JwksCache.constructor` | src/auth/jwks.rs:61-78 | no keys, never refreshed |
| `Jwks.JwksCache.KeyFor` | src/auth/jwks.rs:95-114 | the set is replaced exactly when the key is missing or the set too old, no refresh was tried within the interval since one loaded, and the provider answers; the key is the one in the set then |
| `Jwks.JwksCache.Refresh` | src/auth/jwks.rs:118-150 | at most one attempt an interval, and a failed one keeps the set |
| `Jwks.FirstAnswerTaken` | src/auth/jwks.rs:118-150 | until a set has loaded nothing holds a refresh off: after any failures the first answer is taken |
| `Jwks.ServedKeyFound` | src/auth/jwks.rs:95-150 | over any lookups of a provider that answers, a key served for the refresh interval is found, however young the set is |
| `Revocation.AcceptedInTime` | src/auth/mod.rs:141-158 | in every interleaving, clients going away included and whatever the wall clock does, an accepted token's key was in a set the provider served no longer ago than the exact bound, or a refresh has failed or been abandoned since |
| `Revocation.RevokedStopsPassing` | src/auth/mod.rs:141-158 | a token accepted the bound or more after its key left the set implies a refresh that failed or was abandoned since it left |
| `RevocationDates.CachedInDate` | src/auth/cache.rs:52-56 | in every interleaving a token accepted from the cache is told its own claims, has not reached its `exp` at the reading it is accepted on, and had reached its `nbf` and not its `exp` when stored |
| `RevocationReach.ExactBound` | src/auth/jwks.rs:95-150 | for every setting the proxy accepts, some run without a failed or abandoned refresh has a token pass a given time after its key left if and only if that time is at most three nanoseconds short of maximum age, fetch timeout and maximum cache age together |
| `RevocationReach.OutlivesReached` | src/auth/cache.rs:115-166 | the run that reaches that time, for every setting |
| `RevocationReach.DocumentedBoundIff` | src/auth/verifier.rs:50-60 | the documented bound, without the fetch, is kept by every run without a failed or abandoned refresh if and only if fetches take at most two nanoseconds |
| `RevocationReach.AbandonedNoBound` | src/auth/jwks.rs:118-150 | for every setting and any delay, a run without a failed fetch and with one abandoned has a token pass that long after its key left |
| `RevocationReach.DocumentedBoundMissed` | src/auth/jwks.rs:95-150 | with the default ages and a fetch of four seconds a token passes more than 361 seconds after its key left, not 360 |
| `ForwardedFor.RawsAreSplit` | src/client_address.rs:576-582 | taking elements off the right end gives the comma-separated parts of the line, right to left |
| `ForwardedFor.LastElementReads` | src/client_address.rs:576-594 | the windowed search for a comma reads the last part trimmed and leaves the rest, or refuses one that is too long |
| `ForwardedFor.WalkElement` | src/client_address.rs:463-485 | one element read: the walk stops with the meaning of the whole list, or has read one more of it |
| `ForwardedFor.WalkLine` | src/client_address.rs:461-486 | one field line read: the walk stops with the meaning of the whole list, or the lines before it are left |
| `ForwardedFor.Walk` | src/client_address.rs:454-495 | the byte walk over the field lines gives what the split, trimmed list means: the first untrusted address from the right, else the leftmost, or the error, with the trusted addresses passed on the way |
| `ClientAddress.CleanedReportAgrees` | src/client_address.rs:620-636 | a cleaned report is an address exactly when the header names it, `Forwarded` is absent and a list present names the same |
| `ClientCases.TrimIs` | src/client_address.rs:586-594 | an element is what stands between the spaces and tabs around it |
| `ClientCases.SeeIs` | src/client_address.rs:463-485 | an element is blank, a trusted address, an untrusted one or unreadable by its length, its text and who is trusted, in both directions |
| `ClientCases.OutcomeIs` | src/client_address.rs:454-495 | a list names an address, none, or an error if and only if its elements read so from the right, 32 at most |
| `ClientCases.RealIpIs` | src/client_address.rs:598-613 | `X-Real-IP` names an address if and only if there is one line of it, of 128 bytes at most, that is an address; each error if and only if its cause |
| `ClientCases.CleanedReportIs` | src/client_address.rs:620-636 | a cleaned report names an address, none, or an error if and only if its headers say so |
| `ClientCases.ResolveIs` | src/client_address.rs:366-394 | a request resolves to a client if and only if: without a peer, unavailable; with one not trusted, that peer; with a trusted one, the address reported, its error, or without a report the peer, or unavailable if one is required |
| `ClientAddress.ResolveNoting` | src/client_address.rs:366-394 | the resolution of a request and the proxies of its chain |
| `ClientAddress.WriteForwardedFor` | src/client_address.rs:502-546 | the list sent on, by mode |
| `ClientAddress.WriteChain` | src/client_address.rs:502-515 | the addresses in order, separated by a comma and a space |
| `ClientAddress.JoinLines` | src/client_address.rs:520-546 | the field lines in order, joined into one list |
| `ClientAddress.Request.Apply` | src/client_address.rs:408-443 | the resolution put on the request and every forwarding header it leaves |
| `HeaderCases.OtherHeadersAre` | src/client_address.rs:408-443 | under the client header stands the client or nothing, under the audit header the list as it came, and every other name is as it was, but the forwarding headers |
| `HeaderCases.ListIs` | src/client_address.rs:408-443 | the list that leaves, by mode: as it came, gone, the client alone, or one line |
| `HeaderCases.AppendedReads` | src/client_address.rs:520-546 | the next proxy reads in an appended list this proxy's peer, then every element that came, in order |
| `HeaderCases.NotedAre` | src/client_address.rs:454-495 | the proxies noted are all trusted addresses right of the client, in order |
| `HeaderCases.VerifiedReads` | src/client_address.rs:502-515 | the next proxy reads in a verified list this proxy's peer, the trusted addresses right of the client in order, and the client |
| `HeaderCases.ReportedReads` | src/client_address.rs:502-515 | and where the client was reported in another header, the peer and the client |
| `ForwardingLaws.LeftIsIgnored` | src/client_address.rs:454-495 | anything added left of an untrusted client changes neither it nor the proxies noted, except that an element of 129 bytes becomes unreadable when pushed off the start of its line |
| `ForwardingLaws.LeftLeavesNoTrace` | src/client_address.rs:408-443 | nor any header left under any name but the audit header's, in the modes that do not pass the list on |
| `ForwardingLaws.VerifiedRoundTrip` | src/client_address.rs:502-515 | a downstream resolver that trusts this proxy and what it trusts resolves the same client from the rewritten list if and only if the chain has at most 32 addresses |
| `ForwardingLaws.ChainShape` | src/client_address.rs:502-515 | a verified chain names the client first and then trusted proxies only, 33 addresses at most |
| `ForwardingLaws.ChainGrows` | src/client_address.rs:502-515 | verifying a chain of trusted proxies behind an untrusted client makes it one longer, so 33 is reached |
| `QueryParams.WalkField` | src/openapi.rs:410-434 | the parameters at or below one field, with the way restored |
| `QueryParams.Walk` | src/openapi.rs:403-435 | the walk ends on any graph of messages, restores the way and pushes the paths in order |
| `QueryParams.QueryParameters` | src/openapi.rs:307-311 | the parameters of an operation start from its request message, on the way from the outset |
| `QueryPaths.ParametersAreTrails` | src/openapi.rs:403-435 | a path is a parameter if and only if it is a trail of single message fields without a string form to a leaf, with no message type met twice and no prefix bound |
| `QueryPaths.ParametersDistinct` | src/openapi.rs:403-435 | no two parameters of an operation have the same name |
| `QueryPaths.DottedReadsBack` | src/openapi.rs:411 | a dotted name determines its path |
| `Schemas.Components.constructor` | src/openapi.rs:46 | a document starts without components |
| `Schemas.Components.RegisterNested` | src/openapi.rs:482-490 | registration ends on any graph of messages and leaves the table with the message and all below it |
| `Schemas.Components.MessageToSchema` | src/openapi.rs:493-530 | a message's schema by JSON name without the excluded fields, every other field registered |
| `Schemas.PropertyOfField` | src/openapi.rs:500-514 | every field not excluded has its schema under its JSON name, the last one where names coincide |
| `Schemas.PropertyHasField` | src/openapi.rs:500-514 | no other name has a property |
| `Schemas.Components.Add` | src/openapi.rs:248-371 | one path parameter, request or response: what the table becomes and the schema put into the operation |
| `SchemaClosure.EveryReferenceResolves` | src/openapi.rs:482-539 | when map entries agree with the messages that share their short names, each reference of each component, body and response names a component, after any sequence of operations over any graph of messages |
| `SchemaClosure.EveryComponentIsAMessage` | src/openapi.rs:482-539 | no placeholder is left: every component is a message of that short name, whole or without fields some operation excludes |
| `SchemaClosure.ReferenceIsToItsMessage` | src/openapi.rs:548-608 | the component under a message's short name is that message when no other shares the name |
| `SchemaClashes.ReferencesResolveIff` | src/openapi.rs:482-539 | references resolve over every sequence of registrations, with any fields excluded, if and only if every message that shares a map entry's short name brings in what that map refers to |
| `SchemaClashes.DocumentsResolveIff` | src/openapi.rs:266-371 | the same over the documents operations write, where each message a clash is about has a field that refers to nothing or no field |
| `SchemaClashes.DisagreeDangles` | src/openapi.rs:482-490 | the document with a dangling reference, for every pool whose entries do not agree |
| `SchemaClashes.PathParamResolvesIff` | src/openapi.rs:248-263 | a path parameter's reference resolves in every document if and only if it makes none: the field is no message, or a well-known one |
| `SchemaClashes.EntryClash` | src/openapi.rs:482-490 | two maps, to scalars and to messages, whose entries share a short name leave a reference dangling |
| `SchemaValues.ComponentDescribes` | src/openapi.rs:493-608 | every JSON value of a message fits the component of its name in every document, and where no operation leaves a field out nothing else does, members and all |
| `SchemaValues.PartDescribed` | src/openapi.rs:248-371 | the schema put into an operation for a message or a field, list, map or scalar, fits exactly the values of it |
| `SchemaValues.ShapesDiffer` | src/openapi.rs:548-608 | only a list fits a repeated field, only an object a map, only its own form a scalar |
| `SchemaNamesakes.DescribedIff` | src/openapi.rs:482-539 | where references resolve, every document that leaves no field out describes the values of all it mentions and no others, if and only if messages that share a short name have the same values |
| `SchemaNamesakes.NamesakeHides` | src/openapi.rs:532-539 | for every two messages of one short name and a field only one has, the document in which no value with that field fits |
| `SchemaNamesakes.ExclusionHides` | src/openapi.rs:266-305 | after any document, a request written without a field takes the field from the component of its message |
| `OperationIds.UniqueId` | src/openapi.rs:201-209 | the first candidate not taken is found, since only finitely many are |
| `OperationIds.UniqueIds` | src/openapi.rs:198-209 | the ids of any list of operations differ, each made from its own name |
| `OperationIds.DecimalReads` | src/openapi.rs:201-209 | the number added to a repeated name reads back as itself |
| `Idle.NoLostWakeup` | src/serve/idle.rs:26-52 | in every interleaving a waiter parked at a count of zero has been notified or is about to be |
| `Idle.ReturnsWhenIdle` | src/serve/idle.rs:34-52 | the waiter returns at a count of zero, the timeout after it last saw one, and a request in between has its notification outstanding |
| `Idle.ReturnsAfterRequest` | src/serve/idle.rs:34-52 | for every timeout, a run in which the waiter returns though a request came and went since |
| `Idle.IdleIsNoticed` | src/serve/idle.rs:34-65 | once requests stop only boundedly many steps remain, and the waiter rests only while its timer runs or after it has returned |
| `InFlight.SlotsConserved` | src/guard/gate.rs:63-101 | over every run free slots and holders make up the limit, a request takes at most one slot and gives it back at most once, and one refused or gone holds none |
| `InFlight.TurnedAwayWhenFull` | src/guard/concurrency.rs:41-43 | a request is turned away for want of a slot exactly when the limit is reached |
| `InFlight.RefusedIff` | src/guard/gate.rs:63-101 | over every run a request ends refused if and only if it was turned away before the limit, by the shield, or with every slot held |
| `InFlight.SlotHeldUntilEnd` | src/guard/gate.rs:63-101 | a request holds the slot it took until it is turned away, dropped, or its body ends or is dropped, and has given it back from then on |

## Left out

- Wiring: the axum, tower and hyper services, sockets, TLS, configuration, CORS, metrics and startup carry no property of their own.
- Transcoding between JSON and protobuf, path matching and body limits.
- Authorization rules, forwarded claims and path matching of guards and limits: first-match lookups over globs, which would only add easy members.
- `parse_jwks`, `algorithm_for`, `numeric_date`, `profile_from_numbers`, `map_response`: field-by-field conversions.
- `canonical_net` and the parsing of trusted ranges: whether an address is trusted is a parameter.
- Floating point: `sliding_estimate` is computed over exact reals with a ceiling; rounding of `f64` is not modelled.
- Overflow: durations are unbounded, so a panic or saturation of `Duration` arithmetic is not modelled, except the store's saturation at 64 bits and the 32-bit burst count.
- Memory order: atomics are single steps in one total order, and a failed `compare_exchange` of a sweep is not modelled.
- GcraStore.EvictionInvisible: needs non-decreasing readings taken one check at a time, because a sweep on a newer reading than another caller's can drop a key that caller still sees as active.
- FleetOvershoot.OvershootBounded: bounds by the ledger rather than by the formula at line 643 of the repository's own README.md, which leaves out an instance's own claims in flight; it needs epochs that do not go back, an unchanged window and a key that is not evicted, and lets passes fail and clocks differ within an epoch.
- Fleet: gate and record are one step in `Admit` for the overshoot bound and separate steps otherwise; a pass's push is one transaction that commits or does not.
- ForwardingLaws.LeftLeavesNoTrace: does not cover the append and preserve modes, which pass the list on by design; `HeaderCases.AppendedReads` and `HeaderCases.ListIs` say what they pass on.
- RevocationReach.ExactBound: for settings whose seconds fit 64 bits, past which the cache's deadline saturates.
- Revocation: a check of a set's age or of the throttle and the answer it leads to are one instant.
- Revocation: which of two sets a concurrent reader sees is decided by the last completed fetch; the waiting order of the refresh lock is not modelled.
- QueryParams, Schemas: a scalar's own schema is a name, in bodies and in parameters.
- SchemaValues: a JSON value is told apart by its shape and, for a scalar or a well-known type, by the name of its form; `null` and the lenient spellings a ProtoJSON parser also takes are not modelled.
- SchemaNamesakes.DescribedIff: over documents that leave no field out of a request, since `SchemaNamesakes.ExclusionHides` shows what one left out does; JSON names that coincide within a message, which protobuf refuses, are not covered.
- CacheSlots.InsertAlone: from a cache in which no other caller holds a slot; interleavings are the subject of `CacheSlots.SlotsAccountedFor` and `CacheSlots.EntryChanges`.
- RevocationDates.CachedInDate: dates of a token verified without the cache are checked by the token library, whose verdict is a parameter.
- Idle: the notification primitive is modelled by its documented behaviour (one permit kept, a dropped notified waiter hands it back).
- LimitRefresh: a fetch task runs to its end; one that panics is not modelled.
- LimitRefresh: an eviction may happen to any key at any time, which covers the idle and capacity sweeps without modelling their order.
