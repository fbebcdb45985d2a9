# A verified model of the YAAgents gateway

The gateway is a reverse proxy built from plugins: requests pass a chain that validates bearer
tokens, checks a license, derives a tenant and limits event streams, and are then dispatched by a
route table. This project models the stateful and concurrent parts of it in Dafny and proves what
they promise: the caches, the admission control, the key cache behind token validation, and the
decision pipeline around them. `dafny verify dfyconfig.toml` checks everything.

How it is built:

- **State changed in place** is a class whose methods are proved against a specification function:
  the linked list and the map of the LRU caches (`RecencyList`, `LruCache`), the injector and the
  license check over them (`TenantInjector`, `LicenseCheck`), limiter and gauges (`SseState`), the
  two JWKS validators (`Jwks`), the token-validator plugin (`TokenValidator`), the recorder, the
  registry and the relay (`Delivery`), the aliased path loop (`Routing`), the route table
  (`RouteTable`).
- **Concurrency** is a step machine over any number of requests, one step per critical section,
  atomic operation or network exchange: `TenantProtocol`, `LicenseProtocol`, `SseAdmission`,
  `JwksProtocol`. Their theorems hold in every reachable state of every run. `Uninterrupted` and
  `JwksProtocol.Uninterrupted` show that a request that nothing interrupts does there what the
  classes do.
- **Sequential runs** (`TenantRuns`, `JwksRuns`) carry the claims about eviction and time, and the
  exact content of the list; its order also holds in every interleaving (`TenantOrder`).
- **Token decisions** (`TokenDecisions`) hold for whatever the key lookups answer, hence under
  concurrency; sequential and interleaved key caches are plugged in at the end.
- The clock is an integer that never runs backwards. The tenant directory, the license server, the
  JWKS endpoint and the decoding and signature checks of tokens are oracles: their outcomes are
  parameters, and every theorem is for all outcomes.

Main results: cache transparency and freshness in every interleaving, LRU refinement and inclusion,
the limiter bound across routes, JWKS availability, lockstep and fetch bound, acceptance of a token
iff every check holds, matching as substitution and exact reachability of routes, the security
floor of the plugin chain.

## Where the code and its comments differ

The model follows the code. Where a promise fails, a lemma gives a run or an input, and another says
when it holds.

- internal/plugins/tenantinjector/plugin.go:359 promises one outbound call per principal. The cache
  read and the entry into the flight are separate steps, so what holds is at most one outstanding
  call (`TwoCallsWitness`, `RedundantIff`, `AtMostOneCall`).
- internal/llm/limiter.go:43 says the counter stays at the limit. It overshoots until the undo
  (`OvershootIff`), and the overshoot can turn a request away although a slot is free
  (`RejectedThoughFree`, `GrantIff`).
- internal/plugins/tokenvalidator/jwks.go:200 takes an empty cache for a cold start. A document
  without RSA keys empties it as well (`UnavailableAfterSuccess`, `JwksRuns.UnavailableIff`).
- internal/llm/sse.go:29-31 promises that each chunk is flushed to the client. It is, iff the writer
  can flush or there is nothing to flush (`Relay`); the recorder that
  internal/proxy/dispatcher.go:78 puts around every route's writer has no `Flush`, so a dispatched
  event stream is copied without flushes (`RelayDispatched`).
- The recorder keeps the first code it sees, also an informational one, so a response preceded by
  an early hint is counted under the hint's code (`RecordedIsSentIff`, `CountersShowSentIff`).
- internal/loader/loader.go:123-125 says that token-validator must run on every proxied request. A
  configuration without one is accepted, and then it does not (`Unguarded`, `ValidatedIff`).
- A required claim named "" is never reported missing and hides those after it
  (`RequiredClaimsIff`).
- If the principal header is configured to be the tenant header, the principal overwrites the
  tenant (`TenantHeaderIff`).
- An older key document can overwrite a newer one when refreshes overlap between fetch and store
  (`OlderDocumentWins`); without overlap it never does, and with two documents waiting there always
  is an order of the stores in which it does (`NewestWhenApart`, `NeverRegressesIff`).
- internal/llm/proxy.go:36-38 says that release and gauge decrement share a once-guard; only the
  release has one. Both are deferred and each runs once, which is all the model uses.
- A negative TTL for negative answers is accepted; no theorem assumes it positive.

## Model

| member | source | states |
|---|---|---|
| `Lru.GetEffect` | internal/plugins/tenantinjector/plugin.go:460-475 | A read is a hit exactly on an unexpired entry for the key and answers with its value; it brings nothing in, drops nothing but the key's own expired entry, extends no expiry, and a hit ends up in front. |
| `Lru.SetEffect` | internal/plugins/tenantinjector/plugin.go:477-498 | After a write the key is in front with the new payload and the only entry for it; at most one other entry is lost, and then it is the tail of a full list that lacked the key. |
| `Lru.GetEntryOf` | internal/plugins/tenantinjector/plugin.go:460-475 | Seen as a map from key to entry, a read changes at most its own key's entry, and only by dropping it once stale. |
| `Lru.SetEntryOf` | internal/plugins/tenantinjector/plugin.go:477-498 | Seen as a map, a write sets its own key; another key's entry changes only by eviction, and only when it was the tail of a full list and the key was new. |
| `RecencyOrder.KeysAfterGet` | internal/plugins/tenantinjector/plugin.go:460-475 | A hit moves its key to the front of the key list; a miss takes at most its own key out and reorders nothing. |
| `RecencyOrder.KeysAfterSet` | internal/plugins/tenantinjector/plugin.go:477-498 | A write moves its key to the front, or puts it there and cuts the tail of a full list. |
| `Lru.SetWellFormed` | internal/plugins/licensecheck/plugin.go:238-266 | Writes keep keys distinct and the length within `maxSize`, for either payload type. |
| `Lru.GetWellFormed` | internal/plugins/licensecheck/plugin.go:217-235 | Reads keep keys distinct and the length within `maxSize`. |
| `RecencyList.List.Remove` | internal/plugins/tenantinjector/plugin.go:468-471 | Unlinking an element takes exactly its position out of the ring; the ring stays doubly linked and closed, and the other elements keep their payloads. |
| `RecencyList.List.PushFront` | internal/plugins/tenantinjector/plugin.go:494-497 | Linking a new element puts it directly behind the root and moves nothing else. |
| `RecencyList.List.MoveToFront` | internal/plugins/tenantinjector/plugin.go:473 | Relinking moves one element to the front and keeps the order of all others. |
| `RecencyList.List.Overwrite` | internal/plugins/tenantinjector/plugin.go:481-484 | Writing through an element's pointer changes that one entry of the list and no link. |
| `RecencyList.List.Back` | internal/plugins/tenantinjector/plugin.go:488-492 | The element behind the root is the last one, and null exactly for an empty list. |
| `LruCache.LinkedRemove` | internal/plugins/tenantinjector/plugin.go:468-471 | Deleting an element and its key keeps list and map in bijection, and the key is gone from both. |
| `LruCache.LinkedPush` | internal/plugins/tenantinjector/plugin.go:494-497 | Adding an element under a new key keeps list and map in bijection. |
| `LruCache.LinkedMove` | internal/plugins/tenantinjector/plugin.go:473 | Moving an element to the front keeps the unchanged map in bijection with the list. |
| `LruCache.LinkedWellFormed` | internal/plugins/tenantinjector/plugin.go:460-498 | The bijection alone rules out duplicate keys in the list. |
| `LruCache.Cache.CacheGet` | internal/plugins/tenantinjector/plugin.go:460-475 | The pointer code, on the linked list and the map in bijection, computes the recency-list read: same list after it, same answer. |
| `LruCache.Cache.CacheSet` | internal/plugins/tenantinjector/plugin.go:477-498 | The pointer code computes the recency-list write, keeps the bijection and never exceeds `maxSize`. |
| `Directory.CacheSettings` | internal/plugins/tenantinjector/plugin.go:212-229 | The cache bounds are accepted iff no given TTL or size is zero or negative; absent ones are 300 s, 30 s and 10000 entries, and the negative TTL may stay negative. |
| `Directory.ClassifyIff` | internal/plugins/tenantinjector/plugin.go:386-440 | Which HTTP answers make a tenant, an unknown principal, a timeout: an answer is negative also for a 2xx that names no tenant, and a tenant is never empty. |
| `Directory.RememberCases` | internal/plugins/tenantinjector/plugin.go:366-375 | A tenant is stored for the TTL, a missing principal for the negative TTL, and a failure leaves the cache alone. |
| `Directory.AnswerCases` | internal/plugins/tenantinjector/plugin.go:350-357 | A negative entry answers not-found and any other entry its tenant. |
| `TenantRuns.ResolveOwnKey` | internal/plugins/tenantinjector/plugin.go:350-382 | A request asks the directory iff its principal has no live entry, and answers with that entry or with what the directory said; afterwards the entry is the old one on a hit, the new definitive answer with the expiry of its kind on a miss, and none after a failure. |
| `TenantRuns.ResolveOtherKey` | internal/plugins/tenantinjector/plugin.go:350-382 | A request touches another principal's entry only by evicting it, from a full list that lacked the requested one. |
| `RecencyOrder.MostRecentIsOrdered` | internal/plugins/tenantinjector/plugin.go:460-498 | The reference order: each used key once, strictly by the position of its last use. |
| `TenantRuns.KeysAfterResolve` | internal/plugins/tenantinjector/plugin.go:350-382 | The key list after any request: its principal comes to the front and the list is cut at `maxSize`, whether it hits, misses or finds a stale entry; a failing lookup only takes its own stale key out. |
| `TenantRuns.RecencyRefinement` | internal/plugins/tenantinjector/plugin.go:350-382 | LRU refinement: after any run whose lookups are definitive the list is exactly the `maxSize` most recently requested principals, latest first, whatever times, TTLs and expiries. |
| `TenantRuns.AlwaysLatestFirst` | internal/plugins/tenantinjector/plugin.go:350-382 | After every run, failing lookups included, the list is in the order of the last requests. |
| `TenantRuns.SmallerCacheIsPrefix` | internal/plugins/tenantinjector/plugin.go:460-498 | Inclusion: on the same sequence of principals a smaller cache's key list is a prefix of a larger one's. |
| `TenantRuns.NothingIsEvicted` | internal/plugins/tenantinjector/plugin.go:477-498 | While a run touches at most `maxSize` principals, no request disturbs another principal's entry. |
| `TenantRuns.CacheIsExact` | internal/plugins/tenantinjector/plugin.go:350-382 | In such a run the cache holds for each principal the expiry of its last definitive lookup, or nothing once that has passed. |
| `TenantRuns.LookupIffStale` | internal/plugins/tenantinjector/plugin.go:350-382 | In such a run a request reaches the directory iff its principal has no definitive answer yet or the last one is past its TTL. |
| `TenantRuns.DefinitiveLookupsAreSpaced` | internal/plugins/tenantinjector/plugin.go:350-382 | Two successive definitive lookups for one principal are stored more than the first answer's TTL apart. |
| `TenantProtocol.RunKeeps` | internal/plugins/tenantinjector/plugin.go:350-382 | The invariant of every interleaving: one registered flight per key, every cached entry backed by a logged answer, every answer in the log from the moment its flight stored it. |
| `TenantProtocol.AtMostOneCall` | internal/plugins/tenantinjector/plugin.go:359-381 | In every reachable state at most one directory call per principal is outstanding. |
| `TenantProtocol.JoinShares` | internal/plugins/tenantinjector/plugin.go:365-381 | Coalescing: while a flight for its principal is registered, a request that missed starts no call and waits for that flight; otherwise it leads a new one. |
| `TenantProtocol.AnswersAreFresh` | internal/plugins/tenantinjector/plugin.go:350-382 | Every answer is the outcome of the flight that the request led or joined, or an answer for the same principal stored no longer ago than the TTL, for a tenant, or the negative TTL, for a missing principal. |
| `TenantProtocol.FlightAnswersItsRequests` | internal/plugins/tenantinjector/plugin.go:365-381 | Whoever is in a flight either still waits or has returned with exactly that flight's outcome, however the run continues. |
| `TenantProtocol.StoredBeforeEnd` | internal/plugins/tenantinjector/plugin.go:366-374 | A definitive outcome is in the cache, with the expiry of its kind, while its flight is still registered. |
| `TenantProtocol.EntryChanges` | internal/plugins/tenantinjector/plugin.go:460-498 | All that can change a cached answer in any interleaving: dropping it stale, replacing it by a definitive answer, evicting it as the tail of a full list. Hits never extend it, timeouts and network errors never touch it. |
| `TenantOrder.AlwaysLatestFirst` | internal/plugins/tenantinjector/plugin.go:350-382 | In every interleaving the list is in the order of each principal's last use, hits and definitive stores alike; misses, failures and expiries never reorder it. |
| `TenantProtocol.Transparent` | internal/plugins/tenantinjector/plugin.go:350-382 | Transparency: if the directory's outcome per principal is fixed, every request in every interleaving gets exactly that outcome, whatever capacity, TTLs, evictions and expiries. |
| `TenantRedundancy.TwoCallsWitness` | internal/plugins/tenantinjector/plugin.go:359-365 | The comment's one call per principal fails: two requests for one principal, no time passing, two calls. |
| `TenantRedundancy.RedundantOnlyInRace` | internal/plugins/tenantinjector/plugin.go:350-365 | Whenever a call repeats a live answer, that answer was stored after the request had read the cache. |
| `TenantRedundancy.HoldsLastAlways` | internal/plugins/tenantinjector/plugin.go:350-382 | In every interleaving with room for all answered principals the cache holds the last answer per principal, or nothing once it is stale. |
| `TenantRedundancy.RedundantIff` | internal/plugins/tenantinjector/plugin.go:350-382 | With room for all answered principals a call is redundant iff the last answer for its principal was stored after the request read the cache and is still fresh. |
| `Uninterrupted.TenantRequest` | internal/plugins/tenantinjector/plugin.go:350-382 | A request that nothing interrupts takes the interleaved machine exactly where the sequential function, and so the class, goes: same cache, same answer, same number of calls. |
| `Uninterrupted.LicenseRequest` | internal/plugins/licensecheck/plugin.go:125-171 | The same for a license check, including the retry. |
| `Uninterrupted.StreamRequest` | internal/llm/proxy.go:45-77 | The same for an event stream, admitted or turned away: counters, gauges and errors end up as the methods on the shared objects leave them. |
| `TenantInjector.ForwardIff` | internal/plugins/tenantinjector/plugin.go:281-343 | A request is forwarded iff its claims name a principal as a non-empty string, the directory knows its tenant, and the allowlist, if any, admits that tenant. |
| `TenantInjector.PrincipalIff` | internal/plugins/tenantinjector/plugin.go:293-298 | The principal is the value of the configured claim, a non-empty string. |
| `TenantInjector.HandledCases` | internal/plugins/tenantinjector/plugin.go:281-343 | A request is resolved under the claim's value, which also goes into the principal header; without a principal the cache is not touched; on every path the client's tenant header is gone, and a rejected request keeps its other fields. |
| `TenantInjector.RejectionCauses` | internal/plugins/tenantinjector/plugin.go:288-333 | Each error code names one cause and no other and carries the status configured for it, and the response names the directory as a dependency iff its lookup timed out or failed. |
| `TenantInjector.NoSmuggling` | internal/plugins/tenantinjector/plugin.go:283-284 | What a client writes into the tenant header changes nothing in what is forwarded. |
| `TenantInjector.TenantHeaderIff` | internal/plugins/tenantinjector/plugin.go:334-341 | The forwarded tenant header carries the derived tenant iff the principal is not configured to go into the same header (or equals it); the principal header carries the principal; every other header passes unchanged. |
| `TenantInjector.Injector.RememberAnswer` | internal/plugins/tenantinjector/plugin.go:366-375 | Only a tenant or a not-found is written to the heap cache, each with its own TTL. |
| `TenantInjector.Injector.ResolveTenant` | internal/plugins/tenantinjector/plugin.go:350-382 | The method over the heap cache computes the sequential request function: cache, answer, and whether the directory was asked. |
| `TenantInjector.Injector.Handle` | internal/plugins/tenantinjector/plugin.go:281-343 | The handler in the source's order comes to what `HandledCases` describes: it strips the tenant header on every path and forwards only with the tenant of the principal that the claims name. |
| `LicenseCheck.Verify` | internal/plugins/licensecheck/plugin.go:181-214 | A dependency failure means both attempts failed; otherwise the first HTTP answer decides, valid iff its status is in 200 to 299, and every earlier attempt failed. |
| `LicenseCheck.VerdictCases` | internal/plugins/licensecheck/plugin.go:181-214 | The verdict as a function of the two attempts: by the status of the first answer, which is the second attempt's only after one failure, and none iff both fail. |
| `LicenseCheck.ServeCases` | internal/plugins/licensecheck/plugin.go:125-171 | A live verdict decides without asking; otherwise the server's verdict decides and is filed for the TTL, and a failure is a 403 with dependency that leaves nothing in the cache. |
| `LicenseCheck.License.Handle` | internal/plugins/licensecheck/plugin.go:125-171 | One request over the heap cache: decision and cache as specified, a verdict cached and a dependency failure not. |
| `LicenseProtocol.RunKeeps` | internal/plugins/licensecheck/plugin.go:125-266 | The invariant of every interleaving: each request's standing agrees with the attempts it has made, each cached verdict with a logged one. |
| `LicenseProtocol.DecisionsAreBacked` | internal/plugins/licensecheck/plugin.go:125-214 | A 403 that names the server iff both attempts of that very request failed; any other decision is the server's answer to it or, without an attempt, a verdict written within the TTL. |
| `LicenseProtocol.LiveVerdictDecides` | internal/plugins/licensecheck/plugin.go:217-235 | The request that reads a live verdict is done at once with it, and the verdict stays. |
| `LicenseProtocol.EntryChanges` | internal/plugins/licensecheck/plugin.go:181-266 | All that can change a cached verdict in any interleaving: dropping it stale, a write for its token, eviction as the tail of a full list by a new token. Attempts never touch it. |
| `LicenseProtocol.LiveVerdictStays` | internal/plugins/licensecheck/plugin.go:125-266 | Until it expires, and unless a write replaces or evicts it, a verdict stays cached and decides every request for its token that had not yet read, whatever attempts fail meanwhile. |
| `LicenseProtocol.VerdictsAreRespected` | internal/plugins/licensecheck/plugin.go:125-171 | For a server with a fixed verdict per token, in every interleaving: `next` only for accepted tokens, a 403 without dependency only for rejected ones. |
| `SseState.Limiter.constructor` | internal/llm/limiter.go:28-33 | A non-positive limit becomes ten; no counter exists. |
| `SseState.Limiter.AddTo` | internal/llm/limiter.go:68-71 | One atomic add: the tenant's counter, created on first use, moves by the amount and its new value comes back; no other counter moves, comes or goes. |
| `SseState.Limiter.TryAcquire` | internal/llm/limiter.go:40-47 | Undisturbed, a slot is granted iff one is free, and a refusal leaves every counter as it was. |
| `SseState.Limiter.Release` | internal/llm/limiter.go:53-55 | A release takes one off its tenant's counter and moves no other. |
| `SseState.Metrics.Inc` | internal/llm/metrics.go:48-52 | One gauge goes up by one; no other gauge moves, comes or goes. |
| `SseState.Metrics.Dec` | internal/llm/metrics.go:56-65 | One gauge goes down by one, and its entry survives iff it stays positive; no other gauge moves, and a map of positive gauges stays one. |
| `SseState.Metrics.Error` | internal/llm/metrics.go:74-78 | One error counter goes up by one; no other moves, comes or goes. |
| `SseState.Proxy` | internal/llm/proxy.go:45-77 | One uninterrupted request on the shared objects: admitted iff a slot is free, the counter back where it was, the gauge up and down again, and exactly one error recorded for a rejection or for a failed stream. |
| `SseAdmission.RunKeeps` | internal/llm/proxy.go:45-77 | The invariant of every interleaving: counter = granted slots + pending undos, gauge = open streams, error counter = requests that failed so. |
| `SseAdmission.AdmissionBound` | internal/llm/proxy.go:45-77 | At every step and across all routes sharing the limiter: the sum of a tenant's gauges <= its granted slots <= the limit, and its counter is never negative. |
| `SseAdmission.GrantIff` | internal/llm/limiter.go:40-47 | In any reachable state an acquire succeeds iff granted slots plus pending undos are below the limit; with no undo pending, iff a slot is free. |
| `SseAdmission.OvershootIff` | internal/llm/limiter.go:40-47 | The counter is above the limit exactly while more undos are pending than slots are free, and by no more than the pending undos. |
| `SseAdmission.MetricsAreCounts` | internal/llm/metrics.go:48-93 | Gauges and error counters are numbers of requests, an entry exists iff a stream is open, and `limit_exceeded` counts exactly the rejected. |
| `SseAdmission.SumCountsStreams` | internal/llm/metrics.go:48-65 | The gauges of a tenant summed over all routes count its open streams. |
| `SseAdmission.QuiescentIsClean` | internal/llm/proxy.go:45-77 | When every request has ended, every counter is zero and the gauge map is empty. |
| `SseAdmission.RejectedThoughFree` | internal/llm/limiter.go:40-47 | The counter does not stay at the limit: a request is turned away while the tenant holds no slot, because an undo is pending, and the counter then stands at twice the limit. |
| `Jwks.BuildKeys` | internal/plugins/tokenvalidator/jwks.go:228-239 | The loop builds the key set of the whole document, or nothing if any RSA key is broken. |
| `Jwks.KeySetMeaning` | internal/plugins/tokenvalidator/jwks.go:228-239 | A document is usable iff no RSA key in it is broken; then each kid has the last RSA key published for it, and no other kid is there. |
| `Jwks.UsableIff` | internal/plugins/tokenvalidator/jwks.go:216-248 | A refresh succeeds iff a document comes back that decodes and has no broken RSA key. |
| `Jwks.RefreshesIff` | internal/plugins/tokenvalidator/jwks.go:177-189 | A call refreshes unless its kid is cached and the cache was fetched no longer than the TTL ago. |
| `Jwks.PluginCases` | internal/plugins/tokenvalidator/jwks.go:177-213 | Within the TTL the cached key comes back and nothing changes; past it, or for an unknown kid, a good refresh replaces the cache and answers from it, and a failed one answers with the stale key, with unavailable iff nothing is cached, or with a refusal. |
| `Jwks.AuthCases` | internal/auth/jwks.go:78-101 | The same for the older validator, which fails every call whose refresh fails. |
| `Jwks.Validator.Refresh` | internal/plugins/tokenvalidator/jwks.go:216-248 | A refresh counts as a fetch either way, replaces keys and fetch time together on success and changes neither on failure. |
| `Jwks.Validator.GetKey` | internal/plugins/tokenvalidator/jwks.go:177-213 | The method computes the step that `PluginCases` describes, and fetches exactly once unless the kid is cached and within the TTL. |
| `Jwks.AuthValidator.GetKey` | internal/auth/jwks.go:78-138 | The older validator's method computes the step that `AuthCases` describes. |
| `JwksRuns.Lockstep` | internal/auth/jwks.go:78-138 | Simulation: on the same calls both validators always hold the same keys and fetch time; whatever key the older returns the newer returns; their answers differ exactly on calls whose refresh failed with a stale key at hand or with no key at all. |
| `JwksRuns.StaysAvailable` | internal/plugins/tokenvalidator/jwks.go:177-213 | Sequentially: a cached kid is never refused until a stored document drops it, and the call that asks fails iff its own refresh drops it. |
| `JwksRuns.FailureEffects` | internal/plugins/tokenvalidator/jwks.go:177-213 | A failed refresh changes nothing; unavailable iff it failed with no key cached; refused as not in the stale set iff it failed with other keys cached. |
| `JwksRuns.UnavailableAfterSuccess` | internal/plugins/tokenvalidator/jwks.go:199-203 | The comment's cold start is not the only case: a document without RSA keys empties the cache, and the 503 follows a successful fetch. |
| `JwksRuns.UnavailableIff` | internal/plugins/tokenvalidator/jwks.go:191-204 | Over runs: unavailable iff this refresh failed and no refresh has succeeded yet (the cold start) or the last that did brought a document without RSA keys. |
| `JwksRuns.CacheIsLatestDocument` | internal/plugins/tokenvalidator/jwks.go:216-248 | The cache is exactly the key set of the last usable document, or empty before the first. |
| `JwksRuns.KeysComeFromLatestDocument` | internal/plugins/tokenvalidator/jwks.go:177-248 | Every key returned is published under the requested kid in the latest usable document. |
| `JwksRuns.KeysAreFresh` | internal/plugins/tokenvalidator/jwks.go:177-213 | No key outlives its TTL while the endpoint works: a returned key is in the document just fetched, or in the last one stored, no longer than the TTL ago unless this call's refresh failed. |
| `JwksRuns.FetchBound` | internal/plugins/tokenvalidator/jwks.go:177-213 | If refreshes succeed and publish what is asked for, k fetches are spread over at least (k-1)*(ttl+1) ticks, hence more than (k-1)*ttl for k >= 2. |
| `JwksProtocol.Uninterrupted` | internal/plugins/tokenvalidator/jwks.go:177-248 | A call that nothing interrupts is one step of the sequential machine: same cache, same answer. |
| `JwksProtocol.RunKeeps` | internal/plugins/tokenvalidator/jwks.go:177-248 | The invariant of every interleaving: the cache is one fetched document's key set, each call holds a document of its own, each returned key is published. |
| `JwksProtocol.AnswersArePublished` | internal/plugins/tokenvalidator/jwks.go:177-248 | In every interleaving a returned key is published under the requested kid in a document fetched by then. |
| `JwksProtocol.StaysAvailable` | internal/plugins/tokenvalidator/jwks.go:191-213 | In every interleaving, until a store drops it, a cached kid stays cached, each call for it that finishes gets a key, and no call at all gets the unavailable error. |
| `JwksProtocol.NewestIff` | internal/plugins/tokenvalidator/jwks.go:216-248 | Which document is cached: the last storer's, and that is the newest fetched iff the same call also fetched last. |
| `JwksProtocol.NewestWhenApart` | internal/plugins/tokenvalidator/jwks.go:216-248 | In every run whose refreshes do not overlap between fetch and store, the cache holds the newest fetched document whenever none waits to be stored. |
| `JwksProtocol.NeverRegressesIff` | internal/plugins/tokenvalidator/jwks.go:216-248 | In a reachable state no order of the pending stores puts an older document over a newer one iff at most one document waits and it is not older than the cached one. |
| `JwksProtocol.OlderDocumentWins` | internal/plugins/tokenvalidator/jwks.go:216-248 | Overlapping refreshes can put an older document back over a newer one. |
| `TokenValidator.FindValidator` | internal/plugins/tokenvalidator/jwks.go:285-296 | The loop finds the first entry that names the issuer, else the last that names nobody, else nothing. |
| `TokenValidator.CheckAudiences` | internal/plugins/tokenvalidator/plugin.go:879-905 | True iff a configured audience is the aud claim or in its array, as section 4.1.3 of RFC 7519 has it. |
| `TokenValidator.CheckRequiredClaims` | internal/plugins/tokenvalidator/plugin.go:909-920 | The first required claim, in configured order, that is absent or an empty string; "" when there is none, and then every required claim is there. |
| `TokenValidator.Plugin.ValidateWith` | internal/plugins/tokenvalidator/jwks.go:141-168 | The validator's state and verdict after one token; no key is asked for before all three segments decode and the algorithm is accepted. |
| `TokenValidator.Plugin.HandleV2` | internal/plugins/tokenvalidator/plugin.go:543-655 | The handler yields one outcome, the specified one, and changes no issuer's key cache but the chosen one's. |
| `TokenDecisions.CarriesIff` | internal/plugins/tokenvalidator/plugin.go:757-770 | Extraction succeeds with a token iff the configured header is exactly that non-empty token behind the configured scheme. |
| `TokenDecisions.SegmentsIff` | internal/plugins/tokenvalidator/plugin.go:824-858 | A token splits into three dot-free segments in the one way there is. |
| `TokenDecisions.PeeksAre` | internal/plugins/tokenvalidator/plugin.go:824-858 | What is peeked at: the algorithm of the decoded first segment and the iss of the decoded second one, "" wherever that fails. |
| `TokenDecisions.IssuerIs` | internal/plugins/tokenvalidator/plugin.go:843-858 | The issuer is the iss claim if it is a string, and "" otherwise. |
| `TokenDecisions.DecodeIff` | internal/plugins/tokenvalidator/jwks.go:141-168 | A token decodes iff it has exactly three segments and each of them does. |
| `TokenDecisions.KidAskedIff` | internal/plugins/tokenvalidator/jwks.go:150-158 | A key is asked for iff the token decodes and names an allow-listed RSA algorithm, and for its kid. |
| `TokenDecisions.ServesIff` | internal/plugins/tokenvalidator/jwks.go:285-296 | The chosen entry, stated declaratively: the first naming the issuer, or, if none does, the last wildcard; nothing iff there is neither. |
| `TokenDecisions.AcceptIff` | internal/plugins/tokenvalidator/plugin.go:543-655 | Whatever the key lookup answers: `next` is called with claims iff the token is carried, fits, decodes to them, verifies (allow-listed RSA algorithm under the key its own iss's entry has for its kid; the secret in test mode), is timely, shares an audience whenever any is configured, and passes the required-claims check. |
| `TokenDecisions.AtomicIsDecide` | internal/plugins/tokenvalidator/plugin.go:543-655 | The decisions stated for arbitrary answers of the key lookup are those of the uninterrupted handler when the answers are those of the key caches. |
| `TokenDecisions.OnlyAskedCacheMoves` | internal/plugins/tokenvalidator/plugin.go:594-604 | The issuer entry that the request asks takes one step of its key cache with that kid; no other entry's cache changes. |
| `TokenDecisions.EarlyRejections` | internal/plugins/tokenvalidator/plugin.go:543-603 | Missing, oversized, disallowed algorithm, unknown issuer: each iff its check is the first to fail. |
| `TokenDecisions.UnavailableIff` | internal/plugins/tokenvalidator/plugin.go:606-615 | 503 iff a decodable RSA token with an allowed algorithm and a served issuer gets as far as the key lookup and that has no key at all. |
| `TokenDecisions.UnavailableAtomicallyIff` | internal/plugins/tokenvalidator/jwks.go:177-204 | When nothing interrupts the lookup, that is: the serving entry has no key cached and its endpoint brings none. |
| `TokenDecisions.LateRejections` | internal/plugins/tokenvalidator/plugin.go:606-642 | Expired, not yet valid, audience mismatch, missing claim: each iff an authentic token fails that check first. |
| `TokenDecisions.InvalidIff` | internal/plugins/tokenvalidator/plugin.go:561-627 | What forged and malformed tokens get: invalid iff no early check stops the token, keys are at hand, and it is not authentic or its times cannot be read. |
| `TokenDecisions.FirstMissingIs` | internal/plugins/tokenvalidator/plugin.go:909-920 | The reported claim is missing and all required before it are present, and conversely. |
| `TokenDecisions.RequiredClaimsIff` | internal/plugins/tokenvalidator/plugin.go:634-642 | The check admits exactly the tokens with all required claims iff no required claim is named "". |
| `TokenDecisions.AcceptedKeyIsPublished` | internal/plugins/tokenvalidator/plugin.go:594-604 | End to end over sequential runs of the key caches: accepted claims are those of an authentic token, signed under a key that the latest usable document of the entry serving its own issuer publishes for its own kid. |
| `TokenDecisions.AcceptedKeyWasFetched` | internal/plugins/tokenvalidator/plugin.go:594-604 | The same however requests interleave on the key caches: the key is published for the kid in a document fetched for the serving entry. |
| `Routing.Compact` | internal/proxy/dispatcher.go:138-147 | The aliased loop leaves exactly the non-empty pieces, in order, in the front of the array it reads. |
| `Routing.SplitPath` | internal/proxy/dispatcher.go:138-147 | Splitting yields the path's segments. |
| `Routing.SegsAreSegments` | internal/proxy/dispatcher.go:124-126 | Every segment is non-empty and slash-free, so the empty-segment branch of matching never runs. |
| `Routing.SegsJoin` | internal/proxy/dispatcher.go:136-147 | Segments of a joined path are the segments of its parts. |
| `Routing.ExtraSlashes` | internal/proxy/dispatcher.go:136-147 | Slashes in front, behind or doubled never matter. |
| `Routing.SegsOfRender` | internal/proxy/dispatcher.go:138-147 | Round trip: splitting the normal form of a list of segments gives the list back. |
| `Routing.HoleIff` | internal/proxy/dispatcher.go:123 | A segment stands for any segment iff it is an opening brace, anything, and a closing brace. |
| `Routing.FoldIff` | internal/proxy/dispatcher.go:101-108 | Methods are compared up to the case of the letters a to z. |
| `Routing.MatchPath` | internal/proxy/dispatcher.go:116-134 | The loop decides the segment-wise match. |
| `Routing.MatchIffSubstitution` | internal/proxy/dispatcher.go:112-134 | A path matches iff some non-empty slash-free strings in the place of the brace segments turn the pattern into the path. |
| `Routing.SubsumesIff` | internal/proxy/dispatcher.go:116-134 | A syntactic test on two patterns is exact: one matches all that the other does iff it passes. |
| `Routing.MatchEntry` | internal/proxy/dispatcher.go:101-108 | Dispatch picks the least index whose method and pattern serve the request, or nothing iff none does. |
| `Routing.ReachableIff` | internal/proxy/dispatcher.go:101-108 | A route can ever be chosen iff no single earlier route of its method subsumes it, however many there are together. |
| `Loader.Chain` | internal/loader/loader.go:95-101 | The composed handler serves as `ServeMeaning` and `ServeResponse` say: the plugins in declaration order up to the first that stops, responses passing back through them. |
| `Loader.ChainFor` | internal/loader/loader.go:109-121 | The same for the plugins that the route does not disable. |
| `Loader.NoOverrides` | internal/loader/loader.go:95-121 | Without overrides the two compositions are one. |
| `Loader.ServeMeaning` | internal/loader/loader.go:95-121 | Exactly a prefix of the plugins is entered, each on a request handed on to it; the inner handler is reached iff all hand one on, and otherwise the last one entered stopped. |
| `Loader.ServeResponse` | internal/loader/loader.go:95-121 | The response is the inner handler's if it is reached and otherwise that of the plugin that stopped, passed back, innermost first, through every plugin that had handed a request on. |
| `Loader.EnabledIs` | internal/loader/loader.go:109-121 | What a route runs: exactly the plugins whose overrides do not say `enabled: false`, every occurrence, in declaration order. |
| `Loader.ValidateRouteOverrides` | internal/loader/loader.go:126-136 | The boot check passes iff no route sets `enabled: false` for token-validator. |
| `Loader.EnabledKeeps` | internal/loader/loader.go:109-121 | Overrides keep every occurrence of a plugin they do not disable. |
| `Loader.SecurityFloor` | internal/loader/loader.go:109-136 | On a route that passes the check, the inner handler is reached only after every configured token-validator let the request through. |
| `Loader.Unguarded` | internal/loader/loader.go:57-136 | A configuration without token-validator boots, and if its plugins pass requests on, every request on every route gets through unvalidated. |
| `Loader.ValidatedIff` | internal/loader/loader.go:123-136 | A request that reaches the inner handler has passed a token-validator iff the configuration has one. |
| `Loader.Load` | internal/loader/loader.go:57-92 | A configuration boots iff its first token-validator entry is not switched off and every registered entry initialises; the plugins are then the registered entries in order, and otherwise the error names the first reason. |
| `Loader.RegisteredIs` | internal/loader/loader.go:76-90 | The loaded plugins are exactly the registered entries, every occurrence, in the order of the configuration. |
| `Loader.AssertAlwaysOn` | internal/loader/loader.go:183-198 | The boot check passes iff the first token-validator entry, if there is one, does not say `enabled: false`. |
| `Loader.Shutdown` | internal/loader/loader.go:140-149 | Every plugin is shut down once, in exact reverse order, whatever fails. |
| `RouteTable.TokensAreAll` | internal/routes/routes.go:36 | The placeholder expression matches exactly the brace pairs with no brace in between. |
| `RouteTable.TokensInOrder` | internal/routes/routes.go:165-182 | Matches come from left to right and do not overlap. |
| `RouteTable.PlaceholderAt` | internal/routes/routes.go:165-182 | Each parameter name, in order, is what stands between the braces of its token. |
| `RouteTable.PlaceholderIff` | internal/routes/routes.go:36 | A name is a placeholder of the path iff it stands there in braces and contains none. |
| `RouteTable.ParsePlaceholders` | internal/routes/routes.go:165-182 | Accepts iff the names are non-empty and distinct, and then returns them in order; otherwise reports the first bad one. |
| `RouteTable.EmptyPlaceholderRejected` | internal/routes/routes.go:171-175 | A path with an empty placeholder anywhere is never accepted. |
| `RouteTable.GoodVerbIff` | internal/routes/routes.go:30-33 | A method is accepted iff it is one of the seven, in any letter case. |
| `RouteTable.CheckFields` | internal/routes/routes.go:128-154 | The problems of one route's fields, and the one route that is rewritten: an accepted method in upper case, accepted placeholders filled in. |
| `RouteTable.FieldProblemsIff` | internal/routes/routes.go:128-154 | Each field problem is reported exactly for its fault. |
| `RouteTable.ProblemsIff` | internal/routes/routes.go:109-161 | Validation reports a problem iff some route has it: a missing id, an id that an earlier route has, or a field problem. |
| `RouteTable.ProblemsGrow` | internal/routes/routes.go:109-161 | Problems are listed in the order of the routes. |
| `RouteTable.NormalisedCases` | internal/routes/routes.go:128-149 | What validation writes: an accepted method in upper case, the names between the braces of an accepted path, in order, and nothing else. |
| `RouteTable.Validate` | internal/routes/routes.go:109-161 | One pass collects every problem of the table in order and rewrites each route independently of the others' problems. |
| `RouteTable.AcceptedIff` | internal/routes/routes.go:109-161 | No problem iff every route has all required valid fields, with non-empty distinct placeholder names, and no two share an id. |
| `RouteTable.AcceptedTwice` | internal/routes/routes.go:109-161 | Validating an accepted table again finds nothing and changes nothing. |
| `Delivery.Recorder.WriteHeader` | internal/proxy/dispatcher.go:157-163 | Forwards every call and keeps the code of the first operation of all. |
| `Delivery.Recorder.Write` | internal/proxy/dispatcher.go:165-171 | Forwards every call; a body without a header counts as 200. |
| `Delivery.RecordedIsSentIff` | internal/proxy/dispatcher.go:151-171 | The recorded status is the one the client gets iff the handler does not start with an informational status. |
| `Delivery.SentIff` | internal/proxy/dispatcher.go:151-171 | The status a client gets is that of the handler's first operation that is not informational. |
| `Delivery.Observer.Record` | internal/metrics/metrics.go:45-51 | Exactly one counter moves, by one, and exactly one route's latency sum, by the latency; no other entry comes or goes. |
| `Delivery.Observer.Observe` | internal/proxy/dispatcher.go:176-204 | Each completed request is counted once under its recorded status, adds its latency once, and is logged once iff its route is audited; the handler's output passes unchanged. |
| `Delivery.CountersAddUp` | internal/metrics/metrics.go:45-51 | Conservation: the registry's own counters, listed once each, add up to the number of completed requests. |
| `Delivery.CountersShowSentIff` | internal/proxy/dispatcher.go:176-204 | The registry's counters are the numbers of requests by the status their clients got iff no handler started with an informational one. |
| `Delivery.Relay` | internal/llm/sse.go:118-139 | The client gets the upstream status and exactly the bytes read, in order. An event stream is flushed after each non-empty chunk iff the writer can flush or there is nothing to flush; nothing else is flushed. |
| `Delivery.NoMarksIff` | internal/llm/sse.go:130-139 | A body asks for no flush iff all its chunks are empty. |
| `Delivery.RelayDispatched` | internal/proxy/dispatcher.go:77-78 | Through the dispatcher's recorder an event stream arrives whole and without a single flush, so not chunk by chunk unless it is empty. |
| `Delivery.NothingHeldBack` | internal/llm/sse.go:127-139 | With such flushes, before each further read everything read so far has been flushed. |

## Left out

- HTTP transport, header canonicalisation, JSON, YAML, base64, URL parsing: oracles and parameters.
- The JWT library is not part of this model: which segments decode, which tokens verify and which claims are timely are oracles, and that it decodes all three segments and checks the algorithm before it asks for a key is assumed of it; that `iat` plays no part in timeliness, whatever the comments say, is not visible in the model.
- Integer widths and duration overflow: times, counters and sizes are unbounded integers.
- The token size cap counts characters of the model's strings, where the source counts bytes.
- Audience claims given as a Go string slice: decoded JSON never has that type.
- Case folding of methods beyond ASCII letters.
- Routing.MatchEntry: takes the routes' methods and patterns; the handlers attached to them are not modelled.
- LicenseCheck.Verify: a request that cannot be built (internal/plugins/licensecheck/plugin.go:181-214) is not one of the outcomes of an attempt, because building it depends on the configured URL alone.
- Delivery.Relay: write errors, the size of the read buffer and cancellation of the upstream request; the upstream's reads are given as a sequence of chunks of any size.
- Delivery.Observer.Observe: a handler that panics is neither counted nor logged by the source and is not modelled; latencies are whole milliseconds; registry and audit log are both present.
- SseAdmission.RunKeeps: the variants without a limiter or without metrics, in which the missing half of the statement has no counterpart.
- TenantProtocol.RunKeeps: a panic inside a flight.
- JwksRuns.FetchBound: sequential runs; overlapping calls may each fetch.
- RouteTable.Validate: the texts of the messages; each problem is a value that says what and where.
- Loader.Load: reading the files, and `mergeTokenValidatorEnv`, which fills in secrets before the plugins initialise.
- The read accessors of limiter and metrics, which return a map entry or zero.
- Go's list clears the links of a removed element; nobody follows them, and the model leaves them.
- `enforceRoles`, `propagateClaimsToCtx` and the v1 handler of token-validator: role checks, request context and the older configuration form have no part in the state modelled here.
- The rest of `Init` in every plugin, configuration getters, the plugin registry, logging, audit output, Prometheus text, CORS, telemetry and the command line.
