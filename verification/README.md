# Firecrawl gateway: verified model

A Dafny model of the stateful core of the gateway's API (`apps/api`) and of the
one rule the admin page repeats (`apps/admin/src/lib/credits.ts`). Run
`dafny verify dfyconfig.toml` to check everything.

## What is modelled

Each component has a specification (pure functions on a value that holds its
fields), a class in the form of the source (the same fields, changed in place by
the same methods, loops where the source loops) whose methods are proved equal
to the specification, and theorems over whole runs of the specification.

- **Streaming credit scanner** (`ScannerSpec`, `Scanner`, `JsonText`,
  `ScannerCorrectness`). The byte automaton that finds `metadata.creditsUsed` in
  a response arriving in chunks. It is proved equal to a recursive definition
  over JSON syntax trees (sections 2 to 7 of RFC 8259), for every chunking, and
  the skipping `push` equal to the bytewise automaton with at most two searches'
  worth of bytes per chunk.
- **Credit ledger** (`LedgerSpec`, `LedgerProofs`, `LedgerBlocks`,
  `CreditLedger`). The five Lua scripts and TTL expiry as atomic steps on a pool,
  its sorted set and its reservation hashes, in any interleaving.
- **Key selection and the credit service** (`KeySelection`, `CreditRouting`). The
  three statements of the selection rule, and what one instance remembers about
  its keys.
- **Request routing** (`Policy`, `RoutingSpec`, `RoutingProofs`, `RoutingPolicy`,
  `ProxyRouting`). The search over Cloud keys, self-hosted and the hybrid
  reserve, against an arbitrary oracle of reservations and upstream answers, with
  the trace of calls; `RoutingPolicy` states what comes next as one rule on that
  trace. What the credit service gives out is such an oracle's answer
  (`ProxyRouting.CreditServiceIsAnOracle`).
- **Circuit breaker** (`BreakerSpec`, `BreakerProofs`, `CircuitBreaker`).
  Overlapping calls with permits of different generations.
- **Rate-limit counter** (`RateLimitSpec`, `RateLimitProofs`, `RateLimitQuota`,
  `RateLimitDrain`, `RateLimitCounters`). Buckets as shared objects, flushes,
  timers, eviction, shutdown, failing and late statements, other instances and
  the database row.
- **Read-through caches** (`ReadThroughSpec`, `ReadThroughProofs`,
  `SettingsServices`, `ApiKeysServices`). Settings and API key validation under
  racing reads and writes with arbitrary database delays.
- **Response cache** (`CanonicalJson`, `CanonicalProofs`, `CacheKey`,
  `ResponseCacheSpec`, `ResponseCacheUse`, `ResponseCache`). The canonical
  request text, the cache key and the LRU cache.
- **Alerts and the fallback window** (`AlertSpec`, `AlertProofs`,
  `AlertServices`, `FallbackWindow`). Incident states over whole runs of
  evaluations, and the per-minute counts they read.

Asynchronous code is split into one atomic step per stretch between two
`await`s. Clocks and random numbers are parameters; a random number is any real
in [0, 1). Database queries, Redis calls, upstream answers and message
deliveries are arbitrary.

## Where the code differs from what is said about it

- `canonicalJson` is documented to hash equal requests equally. A number too
  large for a double is written as `null`, so two different bodies can share a
  key: `CanonicalProofs.OverflowCollides` gives one, and
  `CanonicalProofs.CanonicalSeparates` says exactly which bodies share a text.
- The local fallback is documented to mirror the Redis selection rule, but does
  not compare balances with the amount: `KeySelection.LocalPicksExhaustedKey`
  gives a case, and `KeySelection.LocalAgreesWithLua` says exactly when they agree.
- A 402 discards a key's local cooldown, so a refill may bring the key back
  within thirty seconds of a 429: `CreditRouting.RefillForgetsCooldown` gives
  such a run, and `CreditRouting.CooldownHolds` says exactly when it happens.
- The fallback window keeps sixty minutes; asked for more it can miss a request:
  `FallbackWindow.LongerWindowUndercounts` gives a case, and
  `FallbackWindow.WindowIsExact` says exactly when it misses none. The alert asks
  for ten.
- A flush is meant to start only inside its bucket's window. The quota takes the
  end of the month from one clock reading (`api-keys.service.ts:199`) and counts
  at another, so a request at the turn of a month can name an end already past and
  flush into that window: `RateLimitProofs.FlushPastItsWindow` gives one, and
  `RateLimitProofs.FlushStartsInItsWindow` says exactly when it happens.

- Only a delivered alert is meant to count as firing. One that arrives without its
  answer within ten seconds counts as failed and is sent again:
  `AlertProofs.LostAnswerRepeatsAlert` gives a case, and
  `AlertProofs.ReadsWellExactlyWhen` says exactly when readers see such a repeat.
- Reads through the settings and key caches are never older than a returned write,
  but one may be older than a read answered before it:
  `ReadThroughProofs.OvertakenQueryAnswersFirst` gives such a run, and
  `ReadThroughProofs.GoesBackExactlyWhen` says exactly when that can happen.

## Model
| member | source | states |
|---|---|---|
| ScannerCorrectness.ScannerIsCorrect | apps/api/src/credits/credit-routing.service.ts:83-214 | On every well-formed JSON text the scanner reports the first plain digit token below 2^53 that is a direct `creditsUsed` of a top-level `metadata` object, in document order, and nothing when there is none |
| ScannerCorrectness.StreamedScanIsCorrect | apps/api/src/credits/credit-routing.service.ts:232-254 | The same for a body in arbitrary chunks, with at most one value reported |
| ScannerCorrectness.ExtractFromText | apps/api/src/credits/credit-routing.service.ts:224-230 | The scanner object fed those chunks returns the value the syntax tree defines |
| ScannerCorrectness.FigureReportedExactlyWhen | apps/api/src/credits/credit-routing.service.ts:29-29 | A body that holds one credit figure has it reported if and only if it is written in plain digits and is less than two to the power of 53 |
| Common.SafeIntegers | apps/api/src/credits/credit-routing.service.ts:29-29 | The bound the scanner computes with is two to the power of 53 less one |
| ScannerCorrectness.NameIdentifies | apps/api/src/credits/credit-routing.service.ts:95-115 | The capped candidate with its placeholder for unprintable bytes equals a wanted name exactly when the raw bytes do and hold no escape |
| ScannerCorrectness.ScanMembers | apps/api/src/credits/credit-routing.service.ts:83-206 | Scanning the members of an object that is not itself metadata ends just outside it with depths, metadata mark and emissions as before |
| ScannerSpec.ChunkingIsInvisible | apps/api/src/credits/credit-routing.service.ts:52-79 | Feeding chunks leaves the state of feeding their concatenation |
| ScannerSpec.AtMostOneEmission | apps/api/src/credits/credit-routing.service.ts:52-79 | Over any input at most one value is emitted, exactly when the scanner is in its found state |
| ScannerSpec.SecondPassIsLast | apps/api/src/credits/credit-routing.service.ts:75-77 | Reprocessing a byte happens at most once: the second pass always consumes it |
| ScannerSpec.RunPlainString | apps/api/src/credits/credit-routing.service.ts:61-73 | Inside a string, bytes without quote and backslash only extend the candidate, which is what the skip relies on |
| Scanner.CreditsUsedScanner.Push | apps/api/src/credits/credit-routing.service.ts:52-79 | The skipping `push` leaves every field as the bytewise automaton would, and its two searches look at no more than 2n bytes of an n-byte chunk |
| Scanner.CreditsUsedScanner.SkipTo | apps/api/src/credits/credit-routing.service.ts:67-71 | The inner copying loop, which stops early once the candidate is full, changes nothing the automaton can see |
| Scanner.CreditsUsedScanner.ConsumeByte | apps/api/src/credits/credit-routing.service.ts:74-77 | The reprocessing loop terminates in the automaton's next state |
| Scanner.CreditsUsedScanner.ProcessOne | apps/api/src/credits/credit-routing.service.ts:83-193 | One pass over a byte: its new fields and whether the byte has to be processed again |
| Scanner.CreditsUsedScanner.UpdateContainerDepth | apps/api/src/credits/credit-routing.service.ts:195-206 | Depths after a bracket, and the end of metadata at its own brace |
| Scanner.CreditsUsedScanner.EmitValue | apps/api/src/credits/credit-routing.service.ts:208-213 | A value that did not overflow is emitted and ends the scan; an overflowed one is not |
| Scanner.ExtractCreditsUsed | apps/api/src/credits/credit-routing.service.ts:224-230 | Returns the one value the automaton emits on the body, or nothing |
| Scanner.ObserveStream | apps/api/src/credits/credit-routing.service.ts:232-254 | Over a stream of chunks, reports what the automaton emits on the whole body |
| CanonicalProofs.CanonicalSeparates | apps/api/src/proxy/response-cache.ts:53-63 | Two parsed bodies have the same canonical text if and only if they are the same JSON value up to field order, infinities read as null |
| CanonicalProofs.CanonicalSeparatesFinite | apps/api/src/proxy/response-cache.ts:53-63 | Without overflowed numbers the text decides equality of JSON values |
| CanonicalProofs.OverflowCollides | apps/api/src/proxy/response-cache.ts:62 | An overflowed number and null share a text although they are different values |
| CanonicalProofs.PrintDecodes | apps/api/src/proxy/response-cache.ts:55-62 | The printed form is uniquely decodable in any context it can stand in |
| CanonicalProofs.EscapedReadsBack | apps/api/src/proxy/response-cache.ts:60-62 | A quoted string is one that section 7 of RFC 8259 reads back as it was, for every sequence of UTF-16 code units |
| CanonicalProofs.CanonicalIsPrint | apps/api/src/proxy/response-cache.ts:54-63 | The recursive text with its sort on field names equals the plain printing of the value's sorted normal form |
| CanonicalProofs.SortedIsUnique | apps/api/src/proxy/response-cache.ts:57-59 | Values that mean the same have the same sorted normal form, so the text ignores field order |
| CanonicalProofs.NormalKeeps | apps/api/src/proxy/response-cache.ts:54-63 | Sorting fields and reading infinities as null keeps the meaning, and the result is sorted and printable |
| CacheKey.LookupsSeparate | apps/api/src/proxy/response-cache.ts:71-106 | Two cacheable requests without line breaks in key id and URL share hashed material if and only if they agree on virtual key, URL and every option that does not steer caching |
| CacheKey.CacheableExactlyWhen | apps/api/src/proxy/response-cache.ts:71-106 | A request is cacheable if and only if it is a scrape posted with a virtual key that starts on Cloud without having to, nothing of it is private or forbids caching, its body of at most 64 KiB has a text `url`, none of the six uncacheable fields, `zeroDataRetention` not true, `storeInCache` not false and `maxAge` absent or a finite number other than 0, which is passed on as it is |
| CacheKey.WithoutControlsMeaning | apps/api/src/proxy/response-cache.ts:98-100 | Dropping the caching controls leaves exactly the meaning of the other fields |
| CacheKey.NewlineInIdCollides | apps/api/src/proxy/response-cache.ts:101-104 | Why the condition is needed: a line break in an id makes two different requests share material |
| ResponseCacheSpec.SetKeepsLongestSuffix | apps/api/src/proxy/response-cache.ts:164-176 | An accepted `set` keeps exactly the longest suffix of the recency order that fits, the new entry last and never evicted |
| ResponseCacheSpec.SetStaysValid | apps/api/src/proxy/response-cache.ts:164-192 | After `set` keys stay distinct and the byte counter is the sum of the stored bodies and within the budget |
| ResponseCacheSpec.RunStaysFaithful | apps/api/src/proxy/response-cache.ts:139-192 | Over any run every stored entry is the latest accepted one of its key since the last switch-off |
| ResponseCacheSpec.LookupServesLatest | apps/api/src/proxy/response-cache.ts:139-192 | After any run from an empty cache the counter is exact and within budget, and `get` answers only with the latest accepted value, younger than the TTL and than the request's own limit |
| ResponseCacheUse.ServedExactlyWhenFresh | apps/api/src/proxy/response-cache.ts:148-176 | While all that is stored fits the budget, and no lifetime was shorter than the one in force, a lookup is answered if and only if the last response of at most 2 MiB stored under its key is younger than that lifetime and no older than the request accepts, and with that response |
| ResponseCacheUse.LeastRecentlyUsedFirst | apps/api/src/proxy/response-cache.ts:158-176 | At every point of every run the entries are in the order in which they were last stored or served, so that eviction takes the least recently used |
| ResponseCacheUse.LifetimeIsLatest | apps/api/src/proxy/response-cache.ts:139-146 | The lifetime in force is the one last set, whatever else was done |
| ResponseCacheUse.SwitchedOffKeepsNothing | apps/api/src/proxy/response-cache.ts:131-146 | After any run that leaves the cache without lifetime or budget nothing is stored |
| ResponseCache.ResponseCache.Set | apps/api/src/proxy/response-cache.ts:164-176 | The eviction loop over the real fields computes that `set` |
| ResponseCache.ResponseCache.EvictOldest | apps/api/src/proxy/response-cache.ts:171-175 | The loop removes oldest entries until the budget is met and no further |
| ResponseCache.ResponseCache.Get | apps/api/src/proxy/response-cache.ts:149-162 | Expired entries are removed with their bytes, too old ones stay, a hit moves to the recent end |
| ResponseCache.ResponseCache.SetTtlMs | apps/api/src/proxy/response-cache.ts:139-146 | A changed lifetime is applied, and turning the cache off empties it |
| ResponseCache.ResponseCache.Remove | apps/api/src/proxy/response-cache.ts:186-191 | Removing the stored entry takes exactly its bytes off the counter; an entry that is no longer the stored one is left alone |
| LedgerProofs.RunKeepsInv | apps/api/src/credits/credit-ledger.store.ts:25-176 | In every reachable state balances are non-negative, open reservations are in the sorted set under unique sequences up to `reserveSequence`, and reserved is the sum of open amounts and those expired since the last reconcile |
| LedgerProofs.RunConserves | apps/api/src/credits/credit-ledger.store.ts:62-137 | Between reconciles credits plus reserved fall by exactly the charges and never rise, duplicate and late settlements included |
| LedgerProofs.StepConserves | apps/api/src/credits/credit-ledger.store.ts:62-137 | What each script charges the pool: used credits as far as estimate and balance cover them, the forfeited balance on disabling, nothing else |
| LedgerProofs.ReconcileMintsNothing | apps/api/src/credits/credit-ledger.store.ts:139-176 | Right after a reconcile credits plus reserved equal the larger of snapshot and pending sum |
| LedgerProofs.ReconcileAfterCapture | apps/api/src/credits/credit-ledger.store.ts:81-83 | For any interleaving after a capture the reconcile keeps exactly the open reservations made since and leaves max(0, snapshot minus their amounts) |
| LedgerProofs.NoDoubleAccounting | apps/api/src/credits/credit-ledger.store.ts:85-176 | Over a whole run each reservation is accounted for at most once by settling, actual usage and reconciling together, and then its hash is gone |
| LedgerProofs.RefundUndoesReserve | apps/api/src/credits/credit-ledger.store.ts:68-111 | A refund restores the pool up to the sequence number, and repeating it or any later settlement changes nothing |
| LedgerBlocks.ReservableExactlyWhen | apps/api/src/credits/credit-ledger.store.ts:39-108 | After any run of the scripts a pool can be reserved from if and only if its balance is known and covers the amount, no 429 put on it lasts or a 402 came after it, and it was not reported exhausted since a reconcile last saw credits |
| LedgerBlocks.PoolShows | apps/api/src/credits/credit-ledger.store.ts:85-176 | The fields behind it, over any run: `disabled`, a cooldown that lasts, and the renewal time of the last reconcile |
| LedgerBlocks.FirstInLineCanBeReserved | apps/api/src/credits/credit-ledger.store.ts:39-63 | Whatever the reserve script selects is neither disabled nor cooling down and covers the amount |
| LedgerBlocks.SelectionFollowsTheRule | apps/api/src/credits/credit-ledger.store.ts:39-60 | The reserve script selects, among the pools that are not blocked and can pay, by their own stored renewals and balances |
| CreditLedger.CreditLedger.Reserve | apps/api/src/credits/credit-ledger.store.ts:25-79 | One pool that is first in line, unblocked and can pay takes the reservation, each of them for an equal share of the random numbers; all others are untouched; nobody can pay otherwise |
| CreditLedger.CreditLedger.Capture | apps/api/src/credits/credit-ledger.store.ts:81-83 | Returns the pool's sequence, 0 for an unknown pool |
| CreditLedger.CreditLedger.Settle | apps/api/src/credits/credit-ledger.store.ts:85-111 | The field by field script equals the settlement step, and reports whether the reservation was open |
| CreditLedger.CreditLedger.ActualUsage | apps/api/src/credits/credit-ledger.store.ts:113-137 | The script replaces an open estimate by the used amount, never taking credits below zero |
| CreditLedger.CreditLedger.Reconcile | apps/api/src/credits/credit-ledger.store.ts:139-176 | The script's new pool: balance, reserved, disabled flag, cooldown, renewal and remaining reservations |
| CreditLedger.CreditLedger.Sweep | apps/api/src/credits/credit-ledger.store.ts:148-167 | The loop over the sorted set, in any order, keeps exactly the open reservations above the snapshot's sequence and sums them |
| KeySelection.LuaScan | apps/api/src/credits/credit-ledger.store.ts:37-66 | The one-pass scan with its running best returns exactly the usable keys no other usable key beats, in order |
| KeySelection.LocalScan | apps/api/src/credits/credit-routing.service.ts:521-540 | The local scan returns exactly the unblocked keys no other one beats |
| KeySelection.NextUpPrefixes | apps/admin/src/lib/credits.ts:16-43 | The two-pass form returns the prefixes of the tie set, or nothing with fewer than two usable keys |
| KeySelection.ScansFollowTheRule | apps/api/src/credits/credit-ledger.store.ts:37-60 | Each scan lines up exactly the keys that none it considers goes before: known renewals before unknown, earlier days of 86400000 ms before later ones, larger balances before smaller |
| KeySelection.LocalAgreesWithLua | apps/api/src/credits/credit-routing.service.ts:511-540 | The local and the Redis tie sets are equal if and only if every unblocked key that cannot pay ranks behind an unblocked one that can |
| KeySelection.LeadersPay | apps/api/src/credits/credit-routing.service.ts:525-540 | Which is when everyone the local scan puts first can pay |
| KeySelection.PositiveBalancesAgree | apps/api/src/credits/credit-routing.service.ts:517-547 | With known positive balances they agree for one credit |
| KeySelection.LocalPicksExhaustedKey | apps/api/src/credits/credit-routing.service.ts:525-540 | Without that, the local scan puts an exhausted key first |
| KeySelection.AdminAgreesWithLua | apps/admin/src/lib/credits.ts:16-43 | On the same balances and renewal times the admin page shows exactly the keys the gateway picks from |
| KeySelection.SomeoneIsBest | apps/api/src/credits/credit-ledger.store.ts:37-60 | Whenever a key is usable someone is first in line, and all ties rank the same |
| KeySelection.PickTie | apps/api/src/credits/credit-ledger.store.ts:62-63 | Of n ties each is picked for one n-th of the random numbers, in order |
| KeySelection.EveryTieCanBePicked | apps/api/src/credits/credit-ledger.store.ts:62-63 | and every member can be picked |
| CreditRouting.CreditRoutingService.Reserve | apps/api/src/credits/credit-routing.service.ts:290-329 | For any changes to memory and ledger while Redis is asked: Redis decides on the pools its script finds, and where it cannot, memory as it then is decides among the offered, unexcluded, unblocked keys; what changes is that reservation and the pause after a failure |
| CreditRouting.CreditRoutingService.AskRedis | apps/api/src/credits/credit-routing.service.ts:306-326 | The script gives out a candidate that is first in line and can pay, changing its pool alone, or finds nobody able to pay, or knows no balance at all |
| CreditRouting.MemoryFailsOpen | apps/api/src/credits/credit-routing.service.ts:297-328 | Where memory decides undisturbed, a key is given out if and only if one was offered that is neither excluded nor blocked, and it is such a one |
| CreditRouting.CreditRoutingService.ReserveLocally | apps/api/src/credits/credit-routing.service.ts:517-547 | Of candidates that may have been blocked since, gives out a still unblocked member of the tie set and lowers its remembered balance; none exactly when all are blocked |
| CreditRouting.CreditRoutingService.RecordResponse | apps/api/src/credits/credit-routing.service.ts:331-386 | What 402, 429, 401, 403 and a 2xx with a safe usage do to memory and to the reservation's pool, and that nothing else does anything |
| CreditRouting.CreditRoutingService.ApplyUsage | apps/api/src/credits/credit-routing.service.ts:458-465 | What a refreshed balance does to memory |
| CreditRouting.DisabledUntilRefilled | apps/api/src/credits/credit-routing.service.ts:331-344 | In every run a key is locally disabled if and only if it was exhausted and not refilled since |
| CreditRouting.UsableExactlyWhen | apps/api/src/credits/credit-routing.service.ts:297-303 | At every point of every run a key is offered if and only if it was not reported exhausted since it was last refilled and its last 429, unless a 402 came after it, is thirty seconds past |
| CreditRouting.RememberedBalance | apps/api/src/credits/credit-routing.service.ts:458-546 | The balance memory goes by is that of the last refresh less the local reservations since, never below zero, with the renewal of that refresh |
| CreditRouting.LocalScanFollowsTheRule | apps/api/src/credits/credit-routing.service.ts:525-540 | The local scan lines up, among the candidates not blocked, by the renewal and balance remembered of each |
| CreditRouting.ResponseSettles | apps/api/src/credits/credit-routing.service.ts:331-386 | What each status does to an open reservation and its pool: 402 takes the key out of use, 429 gives back and blocks for thirty seconds, 401 and 403 give back, a success reporting whole credits below 2^53 is charged, all else stays reserved |
| CreditRouting.NormalizedCovers | apps/api/src/credits/credit-routing.service.ts:295-295 | A reservation is for the least whole number of credits that covers the amount, and at least one |
| CreditRouting.CooldownHolds | apps/api/src/credits/credit-routing.service.ts:345-357 | Within thirty seconds of a 429 a key is given out again if and only if it was meanwhile reported exhausted and then refilled |
| CreditRouting.RefillForgetsCooldown | apps/api/src/credits/credit-routing.service.ts:336-338 | A run in which that happens |
| CreditRouting.NoneUsable | apps/api/src/credits/credit-routing.service.ts:525-541 | The local tie set is empty exactly when every candidate is blocked |
| RoutingProofs.BoundedSearch | apps/api/src/proxy/proxy.service.ts:184-231 | For every oracle a request calls self-hosted at most once, no Cloud key id twice and no more Cloud keys than are configured; the response is the last call's answer |
| RoutingProofs.ModesAreSafe | apps/api/src/proxy/policy.ts:104-206 | For every oracle self-hosted-only never reaches Cloud, cloud-only and Cloud-required requests never reach self-hosted, no Cloud call follows self-hosted for a private request, and a response without the fallback flag came from the only backend called |
| RoutingProofs.ReserveIsLastResort | apps/api/src/proxy/policy.ts:121-143 | In hybrid with a cloud-role key, fallback-role keys are used only after they were taken, at most once, and only after a reservation on the cloud-role pool returned nothing |
| RoutingProofs.PlanRefusals | apps/api/src/proxy/proxy.service.ts:448-475 | A request is refused with 409 or 502 before any call exactly when self-hosted-only meets a Cloud-required request, or Cloud must serve it without a key |
| RoutingPolicy.RouteFollowsRule | apps/api/src/proxy/proxy.service.ts:492-647 | For every oracle each step of a request is the one a rule on the steps before it asks for, with all statuses and modes written out: which answers send it to another key, to self-hosted or to the reserve, and where it ends; and the fallback flag is set if and only if the response is second choice |
| RoutingPolicy.RejectionsEndWithoutKeys | apps/api/src/proxy/proxy.service.ts:546-580 | A request that ends with a 401, 402, 403 or 429 from Cloud last found no key of the pool in use reservable |
| RoutingPolicy.OtherAnswersAreKept | apps/api/src/proxy/proxy.service.ts:573-577 | A Cloud response of any other status is the last step of its request and the response |
| RoutingPolicy.PlansExactly | apps/api/src/proxy/policy.ts:104-162 | Where a request starts, which keys it may use and which are held back, for every mode and mix of key roles |
| RoutingPolicy.RolesSplit | apps/api/src/proxy/policy.ts:133-136 | The keys of a role are those of its entries, in their order |
| RoutingProofs.RotateFromStage | apps/api/src/proxy/proxy.service.ts:566-580 | The rotation loop keeps every trace property from any state it can be in |
| RoutingProofs.HandleStage | apps/api/src/proxy/proxy.service.ts:223-231 | All stages in sequence keep them too |
| RoutingSpec.ProxyCloudUsesNewKey | apps/api/src/proxy/proxy.service.ts:726-733 | A successful reservation strictly shrinks the set of untried key ids, the measure of the rotation |
| ProxyRouting.CreditServiceIsAnOracle | apps/api/src/credits/credit-routing.service.ts:297-303 | A key the credit service may give out is an untried key of the pool under its own id, so the theorems over all oracles cover it |
| ProxyRouting.ProxyService.ProxyCloud | apps/api/src/proxy/proxy.service.ts:726-757 | Reserves an untried key, marks it attempted before the call and answers with the call's result, or reserves nothing and changes nothing else |
| ProxyRouting.ProxyService.ProxySelfHosted | apps/api/src/proxy/proxy.service.ts:759-777 | Marks the attempt always and the upstream only when the breaker let the call through |
| ProxyRouting.ProxyService.TakeFallbackKeys | apps/api/src/proxy/proxy.service.ts:642-647 | The reserve becomes the active pool once |
| ProxyRouting.ProxyService.Dispatch | apps/api/src/proxy/proxy.service.ts:496-544 | The first attempt and its one fallback, or the 429 without a credit pool |
| ProxyRouting.ProxyService.RotateCloudKeys | apps/api/src/proxy/proxy.service.ts:550-581 | The loop with its two counters terminates, and reports whether every attempt was out of quota |
| ProxyRouting.ProxyService.FallBackToSelfHosted | apps/api/src/proxy/proxy.service.ts:583-601 | Self-hosted answers only when Cloud is out of quota, policy allows it and it was not tried |
| ProxyRouting.ProxyService.FallBackToFallbackKeys | apps/api/src/proxy/proxy.service.ts:608-639 | The reserve answers in its two cases only, and keeps the outcome when it has no credit |
| ProxyRouting.ProxyService.Handle | apps/api/src/proxy/proxy.service.ts:223-231 | The stages over the real plan fields, in the source's order, end in the plan and outcome the theorems speak about |
| BreakerProofs.RunGuarantees | apps/api/src/proxy/circuit-breaker.ts:72-116 | In every run half-open means exactly one outstanding probe, and while closed the failure count is the failing suffix of the completions that count, below the threshold |
| BreakerProofs.ProbesWaitForCooldown | apps/api/src/proxy/circuit-breaker.ts:72-82 | A call admitted while not closed is a probe and starts at least the cooldown after the latest opening |
| BreakerProofs.DecidesExactly | apps/api/src/proxy/circuit-breaker.ts:72-109 | At every point of every run: a call is let in if and only if the breaker is closed, or no probe is out and the cooldown is over; it opens if and only if a probe fails or a call let in since the last opening completes the threshold of failures in a row; it closes if and only if a probe succeeds |
| BreakerProofs.StaleCompletionsDoNotInterfere | apps/api/src/proxy/circuit-breaker.ts:84-103 | Deleting from any run all completions of calls admitted before the then latest opening leaves the same breaker |
| CircuitBreaker.CircuitBreaker.Acquire | apps/api/src/proxy/circuit-breaker.ts:72-82 | The permit or rejection, the new state, and the transition reported |
| CircuitBreaker.CircuitBreaker.Release | apps/api/src/proxy/circuit-breaker.ts:84-103 | The state after a completion, which ignores permits of older generations, and the transition reported |
| CircuitBreaker.CircuitBreaker.Open | apps/api/src/proxy/circuit-breaker.ts:105-109 | A new generation, opened now |
| CircuitBreaker.CircuitBreaker.Transition | apps/api/src/proxy/circuit-breaker.ts:111-116 | A change of state is reported once, no change not at all |
| RateLimitProofs.EveryHitAccountedFor | apps/api/src/common/rate-limit-counter.ts:68-202 | At every point of every run each request is in exactly one place: live bucket, unsent flush, committed, or dropped with a bucket or window; only commits whose answer was lost are there twice |
| RateLimitProofs.CountsNeverExceedUse | apps/api/src/common/rate-limit-counter.ts:68-94 | No request is answered with a count above the requests of its key anywhere plus those counted twice |
| RateLimitProofs.WithinQuotaNeverRejected | apps/api/src/api-keys/api-keys.service.ts:186-205 | While no answer is lost a key within its quota is never rejected, whatever else fails |
| RateLimitQuota.RejectedExactlyWhen | apps/api/src/api-keys/api-keys.service.ts:171-205 | For a key only this instance counts, within one window and without lost answers, a request is rejected if and only if more than the limit were made that are not in flight |
| RateLimitQuota.RejectedOnceOverLimit | apps/api/src/api-keys/api-keys.service.ts:171-205 | Once the database answered with more than the limit, whoever counted it, every request on that bucket is rejected until it answers again |
| RateLimitQuota.RowCountsItsWindow | apps/api/src/common/rate-limit-counter.ts:165-171 | A row holds the sum of the statements of one window: opened by one that found none open, ending a minute after it or at its pinned end |
| RateLimitQuota.HitCountsOne | apps/api/src/common/rate-limit-counter.ts:68-91 | A request adds one in an open window and starts a new window at one otherwise, and everything waiting is flushed when the last flush is five seconds back and none is in flight |
| RateLimitQuota.RequestArmsTimer | apps/api/src/common/rate-limit-counter.ts:92-149 | What a request of a scheduled counter leaves waiting has a timer, due five seconds after the last flush but not within a second, unless it is draining |
| RateLimitQuota.ArmedTimerStays | apps/api/src/common/rate-limit-counter.ts:128-149 | An armed timer stays as it is until it fires or the shutdown begins |
| RateLimitQuota.FiredTimerSends | apps/api/src/common/rate-limit-counter.ts:131-135 | A timer that fires sends all that waits in its bucket, or drops it if the window is over, unless the bucket was replaced or a flush is in flight |
| RateLimitQuota.FailedFlushIsRetried | apps/api/src/common/rate-limit-counter.ts:135-144 | A failed flush of a timer is tried again if and only if its window is open and its bucket still the key's |
| RateLimitProofs.NoAnswerLostNoDuplicates | apps/api/src/common/rate-limit-counter.ts:44-51 | Only a commit whose answer is lost, or that runs after the counter gave it up, is counted twice |
| RateLimitProofs.UndisturbedCountIsExact | apps/api/src/common/rate-limit-counter.ts:68-191 | For a key only this instance counts, within one window and without lost answers, the count is the number of requests less those in flight |
| RateLimitProofs.RetiredStaysRetired | apps/api/src/common/rate-limit-counter.ts:128-149 | A bucket that left the table never comes back, is never flushed again and grows only by its own failed flush |
| RateLimitProofs.FlushStartsInItsWindow | apps/api/src/common/rate-limit-counter.ts:68-126 | A flush starts only in a live bucket, and outside its window if and only if a request starts it that names an end already past while its key has no bucket with an open window |
| RateLimitProofs.FlushPastItsWindow | apps/api/src/common/rate-limit-counter.ts:77-91 | Such a request: counted at the very end it names, it flushes at once into a window that is over |
| RateLimitDrain.DrainPassSends | apps/api/src/common/rate-limit-counter.ts:106-111 | A drain pass leaves nothing pending in a live bucket except behind a flush already in flight |
| RateLimitDrain.DrainDelivers | apps/api/src/common/rate-limit-counter.ts:96-112 | Whatever else goes on, for other keys too, a pass that starts with none of the key's flushes in flight, and that no request and no failed flush of the key follows, loses none of its requests: once answered, each is committed or was dropped with its window or bucket |
| RateLimitDrain.ShutdownSendsAll | apps/api/src/common/rate-limit-counter.ts:100-112 | Whatever requests, answers and failures the waits bring, a key that no request comes in for ends with nothing in flight, and any key with nothing pending once its own flush succeeds in a pass after its last request |
| RateLimitDrain.PassAwaits | apps/api/src/common/rate-limit-counter.ts:108-110 | A pass waits for every flush it starts, and starts none for a key with nothing pending |
| RateLimitDrain.SettleOneFirst | apps/api/src/common/rate-limit-counter.ts:107-110 | In which order the awaited flushes end makes no difference to where they leave the buckets |
| RateLimitDrain.ShutdownArmsNothing | apps/api/src/common/rate-limit-counter.ts:100-112 | No timer is armed during a shutdown, whatever comes in |
| RateLimitDrain.DrainingArmsNothing | apps/api/src/common/rate-limit-counter.ts:101-103 | Once draining, no run arms a timer again |
| RateLimitDrain.ShutdownCancelsTimers | apps/api/src/common/rate-limit-counter.ts:100-103 | From its start on a shutdown leaves no timer armed, on any run |
| RateLimitProofs.TableIsBounded | apps/api/src/common/rate-limit-counter.ts:193-202 | At no point of any run without an empty key, which no caller passes, are there more than 10000 buckets in the table |
| RateLimitProofs.StaysWithinBound | apps/api/src/common/rate-limit-counter.ts:193-202 | The step behind it: only a request brings in a key, its own, and a full table evicts unless its oldest key is the empty one |
| RateLimitProofs.CurrentBucketKeeps | apps/api/src/common/rate-limit-counter.ts:68-88 | Finding or making a key's bucket displaces only its expired bucket and the one evicted, and yields one whose window is open unless the request names a past end for a key without one |
| RateLimitCounters.RateLimitCounter.BeginHit | apps/api/src/common/rate-limit-counter.ts:68-91 | A request counts in its key's live bucket object and starts a flush when one is due |
| RateLimitCounters.RateLimitCounter.EndHit | apps/api/src/common/rate-limit-counter.ts:92-93 | It arms a timer for what is still pending and answers with the bucket's count and window end |
| RateLimitCounters.RateLimitCounter.FlushBucket | apps/api/src/common/rate-limit-counter.ts:151-190 | At most one flush per key, with the whole pending delta captured and zeroed |
| RateLimitCounters.RateLimitCounter.FlushIfCurrent | apps/api/src/common/rate-limit-counter.ts:120-126 | Increments of an ended window are dropped instead of sent |
| RateLimitCounters.RateLimitCounter.OnRow | apps/api/src/common/rate-limit-counter.ts:174-188 | The answer's count and window end go to the bucket the flush was taken from |
| RateLimitCounters.RateLimitCounter.OnError | apps/api/src/common/rate-limit-counter.ts:181-188 | The captured delta goes back to that bucket, on top of what arrived since |
| RateLimitCounters.RateLimitCounter.ScheduleFlush | apps/api/src/common/rate-limit-counter.ts:128-149 | One timer per key, none while draining, due after the flush interval and at least a second |
| RateLimitCounters.RateLimitCounter.OnTimer | apps/api/src/common/rate-limit-counter.ts:131-135 | A fired timer flushes its bucket only if that is still the key's and has something pending |
| RateLimitCounters.RateLimitCounter.AfterTimer | apps/api/src/common/rate-limit-counter.ts:135-144 | A failed flush re-arms the timer until the window has ended or the bucket was replaced |
| RateLimitCounters.RateLimitCounter.BeginDrain | apps/api/src/common/rate-limit-counter.ts:100-103 | Draining cancels every timer and allows no new one |
| RateLimitCounters.RateLimitCounter.DrainPending | apps/api/src/common/rate-limit-counter.ts:108-110 | A pass over the table sends or drops everything pending that is not behind a flush in flight, and names the keys whose flush, new or found, it waits for |
| RateLimitCounters.RateLimitCounter.AnyPending | apps/api/src/common/rate-limit-counter.ts:108-109 | Whether any bucket of the table has something to send |
| RateLimitCounters.RateLimitCounter.SettleAll | apps/api/src/common/rate-limit-counter.ts:107-110 | Waiting for these keys' flushes, in whatever order they end, leaves their buckets answered or restored and none of them in flight |
| RateLimitCounters.RateLimitCounter.AwaitFlushes | apps/api/src/common/rate-limit-counter.ts:107-110 | A wait goes on once the flushes it waits for have ended, with any requests, answers and failures of any key in between; a flush that starts meanwhile is not waited for |
| RateLimitCounters.RateLimitCounter.Drain | apps/api/src/common/rate-limit-counter.ts:100-112 | The three-pass loop over the bucket objects with anything going on in its waits: no timer afterwards, nothing in flight for a key without new requests, and nothing pending for each key whose own flush succeeds in a pass after its last request |
| RateLimitCounters.RateLimitCounter.RecordBucket | apps/api/src/common/rate-limit-counter.ts:193-202 | A new bucket goes to the end of the table and pushes out at most the oldest |
| ReadThroughProofs.NoStaleReads | apps/api/src/settings/settings.service.ts:29-114 | Under every interleaving a read yields a value its key really had, no older than any write that had returned when the read started |
| ReadThroughProofs.RevokedKeyIsRefused | apps/api/src/api-keys/api-keys.service.ts:229-262 | A key validated after its revocation returned is refused, whatever was cached or in flight |
| ReadThroughProofs.FloorIsLatestReturn | apps/api/src/settings/settings.service.ts:94-114 | What counts as returned rises with each returned write and only then, and is noted when a read starts |
| ReadThroughProofs.OneQueryPerKey | apps/api/src/settings/settings.service.ts:42-71 | A batch makes at most one query, for exactly the keys neither cached nor in flight, and joins the queries in flight |
| ReadThroughProofs.ServedUntilExpiry | apps/api/src/settings/settings.service.ts:29-32 | Whatever is served at once was answered by a query for its key that kept it until later than now, so that a value changed by others is served no longer than the five or thirty seconds kept |
| ReadThroughProofs.ServedExactlyUntilExpiry | apps/api/src/settings/settings.service.ts:29-32 | A kept value that no write, eviction or reset removes is served up to its expiry and asked for again from then on |
| ReadThroughProofs.ForgottenIsAskedAgain | apps/api/src/settings/settings.service.ts:94-119 | After a returned write or a reset the next read asks the database, and a write leaves all other keys alone |
| ReadThroughProofs.FailedIsAskedAgain | apps/api/src/settings/settings.service.ts:73-83 | After a failed query the next read of its key asks again; a query its key no longer waits for changes nothing |
| ReadThroughProofs.GoesBackExactlyWhen | apps/api/src/settings/settings.service.ts:29-114 | At any point of any run, no later read of a key can yield less than a version the database has reached if and only if neither the cache nor the answer of the key's query in flight is older |
| ReadThroughProofs.LaterReadsAreNoOlder | apps/api/src/settings/settings.service.ts:73-83 | After a read answered from the cache, or by a query its key still waited for when the database ran it, no read that starts later is older; only a query overtaken by a write, a failure or a reset can be ahead of later reads |
| ReadThroughProofs.OvertakenQueryAnswersFirst | apps/api/src/settings/settings.service.ts:94-103 | Such a run: a read is answered with the second write, and a later one with the first |
| ReadThroughProofs.StepKeepsInv | apps/api/src/settings/settings.service.ts:73-83 | Every step keeps cached values and awaited answers at least as new as the returned writes, and no key both cached and in flight |
| SettingsServices.SettingsService.GetSetting | apps/api/src/settings/settings.service.ts:29-39 | A fresh entry, a join of the query in flight, or a new query, dropping a stale entry |
| SettingsServices.SettingsService.GetSettings | apps/api/src/settings/settings.service.ts:42-71 | The two loops give every key the lookup a single read would, with one query for exactly the missing keys |
| SettingsServices.SettingsService.OnValue | apps/api/src/settings/settings.service.ts:73-83 | An answer is kept, for five seconds, only while the key still waits for that query |
| SettingsServices.SettingsService.AfterWrite | apps/api/src/settings/settings.service.ts:100-112 | A returned write forgets the key's entry and its query in flight |
| ApiKeysServices.ApiKeysService.ValidateApiKey | apps/api/src/api-keys/api-keys.service.ts:244-254 | The same lookup for a key hash, in a bounded cache |
| ApiKeysServices.ApiKeysService.RecordValidation | apps/api/src/api-keys/api-keys.service.ts:284-294 | The value goes to the end for thirty seconds and pushes out at most the oldest, keeping the bound of 10000 |
| ApiKeysServices.ApiKeysService.OnValue | apps/api/src/api-keys/api-keys.service.ts:255-262 | An answer is one eviction at most and then the read-through step |
| ApiKeysServices.ApiKeysService.AfterWrite | apps/api/src/api-keys/api-keys.service.ts:148-164 | A returned limit change or revocation forgets the key's entry and its query in flight |
| AlertProofs.IncidentsReadWell | apps/api/src/alerts/alert.service.ts:92-123 | For every pattern of failed sends and lost answers, after any earlier run: as long as destination and rule stay unchanged, the messages of a rule known to have arrived spell a prefix of (ALERT STILL* RESOLVED)*, and a repeat arrives at least an hour after the last of them |
| AlertProofs.ReadsWellExactlyWhen | apps/api/src/alerts/alert.service.ts:231-261 | All that such a period's readers get spells that pattern if and only if no message follows an ALERT or RESOLVED whose answer was lost; after such an ALERT the next one is an ALERT again, after such a RESOLVED it is not |
| AlertProofs.LostAnswerRepeatsAlert | apps/api/src/alerts/alert.service.ts:201-206 | Such a case: an ALERT that arrived without its answer is read again a minute later |
| AlertProofs.DisturbanceStartsAfresh | apps/api/src/alerts/alert.service.ts:97-116 | Every evaluation without settings, for another destination or without the rule lets the next such period start afresh, as does the start of the service |
| AlertProofs.ResolvedAfterCleanChecks | apps/api/src/alerts/alert.service.ts:220-228 | A resolution, arrived or not, is sent only after at least three consecutive clean checks of an open incident |
| AlertProofs.EvaluationSendsWhatIsDue | apps/api/src/alerts/alert.service.ts:104-117 | A configured evaluation checks each enabled rule once and tries to send exactly what its history since the last change of audience calls for |
| AlertProofs.AlertsExactlyWhen | apps/api/src/alerts/alert.service.ts:154-229 | From settings and signals alone: which rules are on, when each has something to report (credits below the threshold, at least twenty requests with the rounded share of fallbacks reached, a breaker that is not closed), and the message that and the history call for; a rule switched off sends nothing and forgets |
| AlertProofs.CheckSendsWhatIsDue | apps/api/src/alerts/alert.service.ts:191-229 | The three state fields suffice to decide what the whole history of checks and acknowledged messages calls for |
| AlertProofs.PatternIsIncidents | apps/api/src/alerts/alert.service.ts:199-228 | Messages in which ALERT opens and the others need an open incident are closed incidents followed by at most one open one |
| AlertProofs.DestinationsSeparate | apps/api/src/alerts/alert.service.ts:104-110 | Destinations are equal exactly when chat and token are, as a valid chat id holds no line break |
| AlertProofs.PercentIsRounded | apps/api/src/alerts/alert.service.ts:168-178 | The fallback rule fires from half a percentage point below the threshold, at an exact half unless the double quotient fell below it |
| AlertServices.AlertService.Evaluate | apps/api/src/alerts/alert.service.ts:92-123 | An evaluation updates states and destination as specified; one that overlaps another does nothing |
| AlertServices.AlertService.ApplyCheck | apps/api/src/alerts/alert.service.ts:191-229 | One check of one rule |
| AlertServices.AlertService.ForgetDisabled | apps/api/src/alerts/alert.service.ts:112-116 | Exactly the states of unchecked rules are forgotten |
| FallbackWindow.WindowIsExact | apps/api/src/metrics/metrics.service.ts:165-176 | Under any clock the window never overcounts and is exact if and only if it reaches no forgotten request; under a clock that does not run backwards that is always so up to sixty minutes, and beyond unless it reaches a request at least sixty minutes before the latest |
| FallbackWindow.SurvivingCounts | apps/api/src/metrics/metrics.service.ts:222-232 | Of any minutes, what is still counted is all that was recorded if and only if no later request was at least sixty minutes on |
| FallbackWindow.LongerWindowUndercounts | apps/api/src/metrics/metrics.service.ts:228-230 | A window of sixty-one minutes that misses a request |
| FallbackWindow.MetricsService.RecentFallbackStats | apps/api/src/metrics/metrics.service.ts:165-176 | The sum over the minute buckets equals counting the requests of the window that are still counted |
| FallbackWindow.MetricsService.CountInWindow | apps/api/src/metrics/metrics.service.ts:222-232 | Recording a request under any clock keeps every minute's counts equal to those of the requests still counted |
| FallbackWindow.MetricsService.Prune | apps/api/src/metrics/metrics.service.ts:228-230 | Exactly the minutes at least sixty before the current one are dropped |

## Left out
- HTTP, Fastify, header copying and stream piping: replaced by an oracle of upstream answers.
- Prisma, PostgreSQL and Redis clients, connections and timeouts: rows and keys are plain state with atomic statements; a reserve script that runs after its call timed out is a reserve step without a caller.
- Private-host tests, header inspection, path patterns and `requestNeedsCloud`: their results are booleans of the request.
- HMAC-SHA256 and SHA-256: key ids are an arbitrary function of the key, key hashes and cache material stand for themselves.
- Reasons and texts of fallbacks, refusals, alerts and audit entries: which of them applies is modelled, the wording is not.
- Numbers in JSON bodies: represented by the text `JSON.stringify` gives them, in which 0 and -0 coincide.
- Non-integer credit balances and snapshots: ledger amounts are integers.
- Pool fields `authoritative`, `initialized` and `updatedAt`, and the intermediate states written to a reservation just before it is deleted: no script reads them.
- Reservation hashes in Redis that expire between two script calls are expiry steps; expiry of whole pools is not modelled, as the scripts set none.
- The `execute` wrapper of the breaker with a threshold of zero or less, and callbacks that throw.
- The response cache's body headers, its capture from a stream and the eligibility of responses: a stored entry is a body with its time.
- Creation, listing, naming, last-used times and expiry of API keys, and `quotaWindow`: a counter key stands for its calendar month.
- `creditUsageCache` and the single flight of balance refreshes: an instance may refresh at any time.
- Settings parsing, decryption and the shape of chat ids and tokens: an evaluation gets parsed settings, none, or a failure.
- How a double division rounds: the fallback quotient is any real close enough to the exact one (`AlertProofs.Accurate`).
- RateLimitCounters.RateLimitCounter.EndHit: a waiting request may go on at any later time, not only when its flush has settled, so that the theorems cover every schedule.
- AlertServices.AlertService.Evaluate: one atomic step, because an overlapping evaluation is skipped and nothing else touches its fields.
- Rule states, cache entries and remembered pools are values in a map that methods reassign; only rate-limit buckets, which several holders share, are objects.
