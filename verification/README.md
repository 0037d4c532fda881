# State machines of the shared libraries and of the RL-KPI service

A Dafny model of the in-memory state machines in `libs/shared` and of the supervised
RL-KPI iteration of the analytics service, with proofs of what they promise over whole
runs. Every class keeps the fields its original updates. Its methods are proved equal
to step functions on values, and the theorems are about runs of these steps: of
arbitrary length, with arbitrary arguments and, where calls can overlap, in arbitrary
order. Each value a step computes is also pinned by a law that does not mention the
function that computes it: mostly a lemma named `...Exactly`.

| file | what it models |
|---|---|
| `Text.dfy` | optional values, raising calls, Python's `strip` and `split`, the tenant id pattern |
| `Numbers.dfy`, `Runs.dfy` | minimum and maximum; runs as folds of a step function, which can be cut anywhere |
| `AlignedWindows.dfy` | the fixed windows that limiter and resource manager share |
| `Resilience.dfy` | circuit breaker, retry loop, backoff and total-time budget, one call after another |
| `ResilienceConcurrency.dfy` | the same guard with calls interleaved at their awaits |
| `TenantResources.dfy` | request windows and clamped reserve/release counters under changing plans |
| `RateLimit.dfy` | the fixed-window limiter, and tenant admission as an instance of it |
| `Gateway.dfy` | acquire, downstream call and release over interleaved requests |
| `GatewayLimits.dfy` | who gets through the middleware, and how many, in terms of the requests before |
| `S2SReplay.dfy` | the pruned nonce table behind shared-secret verification |
| `Events.dfy` | the topic matcher, routing keys and the in-memory bus |
| `Inbox.dfy` | the idempotency store under interleaved, raising and cancelled handlers |
| `RefreshTokens.dfy` | issue, rotation and revocation of refresh tokens |
| `Totp.dfy` | HOTP codes and TOTP verification with drift |
| `TenantCache.dfy` | string-encoded keys, the TTL cache and its reference map |
| `TenantLocks.dfy` | the cache's locks over runs |
| `RlKpi.dfy` | KPI metrics, proposals, council decision, effects |
| `RlKpiReports.dfy` | what is reported, proposed and decided, in terms of events and decisions |
| `Marketplace.dfy` | profiles, applications, slug indexes, moderation history |

Conventions. A raised error is a `Result` or `Option` value. A clock reading is an
argument; theorems that need a clock that does not go back say so. A coroutine body
without a suspension is one step. A keyed hash is an arbitrary function of its input.
Floating-point numbers are reals.

## Where the code does less than one would expect

Each of these comes with the exact condition under which the expectation holds, and with
an input that the code can receive and for which it fails.

- The guard looks at the circuit before it sleeps, not after. Under concurrency a retry
  can therefore start while the circuit is OPEN. No interleaving does so if and only if
  the policy never lets a call sleep (`ResilienceConcurrency.NoStartWhileOpenExactly`,
  `SleeperStartsWhileOpen`).
- In sequential runs a breaker that is not CLOSED shows a failure counter equal to the
  threshold (`Resilience.HistoryDeterminesBreaker`). Under concurrency it does so
  throughout a run if and only if no attempt under way ends while the circuit is OPEN
  (`ResilienceConcurrency.ThresholdShownExactly`): a late success clears the counter, a
  late failure raises it above the threshold and starts the cooldown again
  (`LateSuccessClearsCounter`, `LateFailureExtendsCooldown`).
- In sequential runs only probes close the circuit again. Under concurrency every success
  that arrives while it is HALF_OPEN counts, so it closes on the required probes alone if
  and only if no attempt from before the opening, or woken while it was OPEN, has
  succeeded since (`ResilienceConcurrency.ClosedByProbesExactly`, `ForeignSuccessCloses`).
- `tenant.T.#` selects tenant T's events alone if and only if T is not the word `*` or
  `#`, which the segment check lets through (`Events.TenantBindingExact`).
- A handler cancelled inside its await leaves its event in progress for good, because
  CancelledError is not an Exception: an event can be started exactly when every call
  that started it raised (`Inbox.RunnableExactly`, `CancelledIsRefused`).
- A downstream scope that cannot be built leaves the slot taken. A tenant with a positive
  request limit is shut out for good, as long as its plan stays, if and only if it has
  leaked its whole concurrency this way (`Gateway.StarvedExactly`, `LeakRefusesNext`).
- Nonces of two services share a cache entry exactly when a colon can be shifted between
  service name and nonce (`S2SReplay.KeysCollideExactly`, `ColonBlocksAnotherService`).
- `delete` contradicts a read made at the same time exactly when the last write has
  expired and nobody has read or counted anything since
  (`TenantCache.DeleteContradictsReadExactly`, `ExpiredEntryIsDeleted`).
- A rotated refresh token keeps the link to its successor if and only if nobody revokes
  it explicitly afterwards (`RefreshTokens.LineageKeptExactly`, `LostLink`).
- A lift of zero is proposed exactly when the miss, below or above, is at most half a
  ten-thousandth (`RlKpi.LiftVanishesExactly`, `VanishingLift`).
- A slug can have two applications that are not rejected. A run avoids that throughout if
  and only if it never reopens a rejected application whose slug another one claims and
  never submits for a claimed slug that the index has lost (`Marketplace.OneLiveExactly`,
  `TwoLiveApplications`, `TwoLiveBySubmission`). The index itself stays exact under
  `Marketplace.ModerationKeepsExclusiveExactly`.
- An application submitted without an id is refused whenever its slug, which may have 64
  characters, has more than 51 (`Marketplace.GeneratedIdFitsExactly`).

## Model

| member | source | states |
|---|---|---|
| Text.StripTrims | libs/shared/tenant_resources.py:474-479 | stripping takes spaces off both ends, nothing else and no fewer |
| Text.StripEmptyExactly | libs/shared/tenant_resources.py:474-479 | nothing is left exactly of a string of spaces |
| Text.SplitJoins | libs/shared/events.py:403-407 | splitting cuts at every separator, and joining the parts gives the string back |
| Text.TenantIdExactly | libs/shared/tenant_resources.py:466-471 | a tenant id has 1 to 64 letters and digits; dots, underscores, colons and hyphens may follow the first character |
| Resilience.DelaysGrowWithinBounds | libs/shared/resilience.py:85-115 | for every valid policy the delays never shrink from one attempt to a later one and stay between the initial and the maximal backoff |
| Resilience.DelaySchedule | libs/shared/resilience.py:108-115 | the schedule starts at the initial backoff and each delay is the previous one times the multiplier, capped |
| Resilience.DependencyResilienceGuard.constructor | libs/shared/resilience.py:179-201 | a new guard is CLOSED with no failures, no recoveries and no opening time |
| Resilience.DependencyResilienceGuard.RecordSuccess | libs/shared/resilience.py:311-327 | whole new breaker and the recovered flag: a half-open success counts towards recovery or closes, any other clears the counters |
| Resilience.DependencyResilienceGuard.RecordFailure | libs/shared/resilience.py:329-336 | whole new breaker: a half-open failure reopens, another counts and opens at the threshold |
| Resilience.DependencyResilienceGuard.OpenCircuit | libs/shared/resilience.py:338-341 | OPEN at the given reading, recoveries cleared, failures kept |
| Resilience.DependencyResilienceGuard.TransitionOpenCircuitIfReady | libs/shared/resilience.py:343-354 | HALF_OPEN exactly when OPEN and the cooldown has passed, else unchanged |
| Resilience.DependencyResilienceGuard.Execute | libs/shared/resilience.py:203-265 | the retry loop computes, for every environment, the call semantics that the next three rows pin: result, attempts, reason, degraded, raised, fallback raised or cancelled, and the final breaker |
| Resilience.CallFromClosedExactly | libs/shared/resilience.py:220-265 | a call that finds the circuit CLOSED makes exactly the attempts up to the first that returned, was cancelled, opens the circuit, is the last allowed, has an outcome the policy does not retry, or whose delay the budget does not cover; code, attempts, reason and circuit it answers with, and the breaker it leaves, follow from that attempt |
| Resilience.CallFromHalfOpenExactly | libs/shared/resilience.py:203-265 | a call that finds it HALF_OPEN, or OPEN with the cooldown over, makes one attempt; answer and breaker follow from its outcome |
| Resilience.CallFromOpenExactly | libs/shared/resilience.py:209-218 | a call that finds it OPEN before the cooldown is over makes none, changes nothing and reports circuit_open |
| Resilience.TrippedStep | libs/shared/resilience.py:311-341 | one more event leaves the circuit tripped exactly if it was and this completes no recovery, or this completes a run of failures as long as the threshold |
| Resilience.AttemptsExplained | libs/shared/resilience.py:224-256 | the retry loop keeps the breaker equal to what the extended history explains |
| Resilience.CallExplained | libs/shared/resilience.py:203-265 | so does a whole call, refused, probing or ordinary |
| Resilience.HistoryDeterminesBreaker | libs/shared/resilience.py:203-354 | after every sequence of calls the state, both counters and the opening time are functions of the history of successes, failures and probes: CLOSED with the failures since the last success or closing, opened exactly at the threshold, closed only by the required successes after a probe, counter at the threshold while not CLOSED |
| Resilience.AttemptsBounded | libs/shared/resilience.py:224-256 | a call entered CLOSED makes at most min(max_attempts, threshold minus failures at entry) attempts |
| Resilience.RetriesFitBudget | libs/shared/resilience.py:289-309 | every attempt but the last was retried with elapsed time plus delay below the total budget |
| Resilience.TotalDelayWithinBudget | libs/shared/resilience.py:224-256 | with a sleeper that waits at least the delay, the delays of one call add up to less than the total budget |
| Resilience.AttemptsStartBeforeDeadline | libs/shared/resilience.py:224-256 | with an exact sleeper every attempt starts before the total deadline |
| Resilience.CallBudget | libs/shared/resilience.py:203-265 | attempts of one call from each entry state: bounded from CLOSED, exactly one from HALF_OPEN, none and no change when OPEN before the cooldown ends |
| ResilienceConcurrency.StepKeepsSound | libs/shared/resilience.py:203-265 | each piece of code between two awaits, run from any sound state, keeps the invariant |
| ResilienceConcurrency.InterleavingsSound | libs/shared/resilience.py:203-354 | in every interleaving: CLOSED exactly when opened_at is None, failures below the threshold while CLOSED, recoveries below theirs and positive only in HALF_OPEN, first attempts never meet an OPEN circuit |
| ResilienceConcurrency.EarlyCallNeverStarts | libs/shared/resilience.py:209-218 | a call that enters while OPEN before the cooldown ends never invokes its operation, in every past and future |
| ResilienceConcurrency.SleepsExactly | libs/shared/resilience.py:289-309 | after a failure a call sleeps exactly if the circuit was CLOSED and stays so, an attempt is left, the policy retries the failure, and the budget covers the delay |
| ResilienceConcurrency.AloneIsSequential | libs/shared/resilience.py:203-265 | a call whose steps nobody interrupts leaves the breaker as the sequential call does, from every reachable state |
| ResilienceConcurrency.NobodyEverSleeps | libs/shared/resilience.py:289-309 | under the policies that allow no sleep, no interleaving contains one |
| ResilienceConcurrency.FailuresAddUp | libs/shared/resilience.py:329-341 | n calls that enter and fail at once, one after the other, while another call is under way raise the counter by n and open the circuit exactly at the threshold |
| ResilienceConcurrency.SleeperStartsWhileOpen | libs/shared/resilience.py:252-256 | for every other policy there is an interleaving that starts an operation while OPEN |
| ResilienceConcurrency.NoStartWhileOpenExactly | libs/shared/resilience.py:224-256 | no interleaving starts an operation while OPEN if and only if the policy never lets a call sleep |
| ResilienceConcurrency.StepShowsThresholdExactly | libs/shared/resilience.py:311-341 | from a sound state whose counter shows the threshold unless CLOSED, a step keeps that if and only if it is not the end of an attempt under way while OPEN |
| ResilienceConcurrency.ThresholdShownExactly | libs/shared/resilience.py:203-354 | an interleaving shows the threshold throughout, whenever not CLOSED, if and only if no attempt under way ends while OPEN |
| ResilienceConcurrency.LateSuccessClearsCounter | libs/shared/resilience.py:311-327 | for every policy some interleaving leaves the circuit OPEN with a failure counter of zero |
| ResilienceConcurrency.LateFailureExtendsCooldown | libs/shared/resilience.py:329-354 | for every policy and every later reading some interleaving raises the counter above the threshold and restarts the cooldown, so that a call due to probe is refused |
| ResilienceConcurrency.RecoveriesAreSuccesses | libs/shared/resilience.py:311-327 | in every interleaving the recoveries of a HALF_OPEN circuit are the successes that arrived since it last opened, of probes and of other attempts alike |
| ResilienceConcurrency.ClosingStep | libs/shared/resilience.py:311-327 | a step closes a HALF_OPEN circuit if and only if it is the success that makes their number the required one |
| ResilienceConcurrency.ClosedByProbesExactly | libs/shared/resilience.py:311-354 | a closing rests on the required number of successful probes if and only if no other attempt has succeeded since the circuit opened |
| ResilienceConcurrency.ForeignSuccessCloses | libs/shared/resilience.py:311-327 | for every policy some interleaving closes the circuit one probe success short, with a probe still waiting |
| TenantResources.InMemoryTenantResourceManager.constructor | libs/shared/tenant_resources.py:156-170 | a new manager has no usage, and its plans are stored under validated tenant ids, a later one winning |
| TenantResources.InMemoryTenantResourceManager.StateForContext | libs/shared/tenant_resources.py:387-402 | creates the tenant's usage or refreshes plan and window; stores exactly that |
| TenantResources.InMemoryTenantResourceManager.RollWindowIfNeeded | libs/shared/tenant_resources.py:404-416 | request counter reset exactly when the aligned window changed |
| TenantResources.InMemoryTenantResourceManager.ConfigureTenant | libs/shared/tenant_resources.py:172-179 | new plan in force for existing usage at once; a malformed tenant id changes nothing |
| TenantResources.InMemoryTenantResourceManager.AdmitRequest | libs/shared/tenant_resources.py:186-225 | admits and counts exactly below the request limit, with the stored usage and the retry hint; blank arguments change nothing |
| TenantResources.InMemoryTenantResourceManager.AcquireOperationSlot | libs/shared/tenant_resources.py:227-261 | takes a slot exactly when the plan in force has one free |
| TenantResources.InMemoryTenantResourceManager.ReleaseOperationSlot | libs/shared/tenant_resources.py:263-273 | gives a slot back, clamped at zero |
| TenantResources.InMemoryTenantResourceManager.ReserveQueueItems | libs/shared/tenant_resources.py:275-311 | takes queue items exactly when they fit the plan |
| TenantResources.InMemoryTenantResourceManager.ReleaseQueueItems | libs/shared/tenant_resources.py:313-325 | gives queue items back, clamped at zero |
| TenantResources.InMemoryTenantResourceManager.ReserveStorageBytes | libs/shared/tenant_resources.py:327-363 | takes bytes exactly when they fit the plan |
| TenantResources.InMemoryTenantResourceManager.ReleaseStorageBytes | libs/shared/tenant_resources.py:365-380 | gives bytes back, clamped at zero |
| TenantResources.ClampStep | libs/shared/tenant_resources.py:263-273 | adding an amount and clamping at zero keeps the counter at the largest suffix sum |
| TenantResources.OpMovesCounter | libs/shared/tenant_resources.py:227-380 | each operation moves each counter of its tenant by its ledger entry, clamped at zero, also across plan changes and window rolls |
| TenantResources.OpIsLocal | libs/shared/tenant_resources.py:172-402 | no operation touches another tenant's usage |
| TenantResources.FoundExactly | libs/shared/tenant_resources.py:387-416 | what an operation finds: the plan in force, the counters as they were, and the requests of the current window only |
| TenantResources.ReserveExactly | libs/shared/tenant_resources.py:227-363 | a reserve adds its amount to the one counter it is about, exactly if that stays within the plan field that is about it, and changes nothing else |
| TenantResources.ReleaseExactly | libs/shared/tenant_resources.py:263-380 | a release takes at most what is there from the one counter it is about, and changes nothing else |
| TenantResources.PlanInForce | libs/shared/tenant_resources.py:172-184 | after every run a tenant and its stored usage are under the plan it was last given, else the one it had at the start |
| TenantResources.InitialPlansExactly | libs/shared/tenant_resources.py:156-167 | a manager starts with each tenant under the last plan whose id stands for it; one malformed id raises |
| TenantResources.CountersAreLargestSuffixSums | libs/shared/tenant_resources.py:172-380 | after any run, with over-releases and plan changes, every slot, queue and storage counter is the largest suffix sum of granted reserves minus releases |
| TenantResources.GrantRespectsLimit | libs/shared/tenant_resources.py:227-363 | a reserve is granted exactly when it stays within the limit in force, and then adds exactly its amount |
| RateLimit.InMemoryRateLimiter.constructor | libs/shared/gateway.py:124-136 | a new limiter has no windows |
| RateLimit.InMemoryRateLimiter.Check | libs/shared/gateway.py:141-172 | whole new window table, decision, remaining count and reset; a denial's retry_after leads exactly to the reset; counts never exceed the limit; a blank key changes nothing |
| RateLimit.GrantedExactly | libs/shared/gateway.py:141-172 | closed form: a request is granted exactly when fewer than limit requests for its key came earlier in its aligned window |
| RateLimit.WindowGrants | libs/shared/gateway.py:141-172 | each aligned window grants exactly min(limit, requests) |
| RateLimit.SlidingBound | libs/shared/gateway.py:141-172 | no interval of window_seconds sees more than twice the limit |
| RateLimit.RetryAfterIsExact | libs/shared/gateway.py:141-172 | after a denial every request before now plus retry_after is denied and the first one at or after it is granted |
| RateLimit.OwnOpKeepsStep | libs/shared/tenant_resources.py:186-225 | an operation of the tenant keeps manager and limiter counting the same at every later reading |
| RateLimit.AdmissionEqualsLimiter | libs/shared/tenant_resources.py:186-225 | for a tenant under a fixed positive plan admit_request answers as the limiter would, whatever else the tenant and the others do in between |
| RateLimit.AdmittedExactly | libs/shared/tenant_resources.py:186-225 | admit_request admits exactly while fewer than the plan's limit of the tenant's own calls came earlier in the aligned window, whatever else runs in between |
| Gateway.APIGatewayMiddleware.Enter | libs/shared/gateway.py:240-309 | route, rate limit, admission, slot and scope in this order: whole new limiter and manager, and what became of the request |
| Gateway.APIGatewayMiddleware.Leave | libs/shared/gateway.py:311-323 | returning or raising, the downstream call releases one slot of its tenant |
| GatewayLimits.EntersExactly | libs/shared/gateway.py:259-309 | in every interleaving with a clock that does not go back and a plan that stays, a request is in flight, or leaks its slot if its scope cannot be built, exactly if it is routed, fewer than the limit of its key came earlier in its window, fewer than the tenant's limit asked for admission in the tenant's window, and a slot is free; else it is refused |
| GatewayLimits.KeyBounds | libs/shared/gateway.py:264-275 | at most limit requests of a limiter key get in in an aligned window, and at most twice that in any interval as long |
| GatewayLimits.TenantBounds | libs/shared/gateway.py:277-287 | likewise at most request_limit requests of a tenant in its plan's windows |
| GatewayLimits.PlanInForce | libs/shared/tenant_resources.py:172-184 | in every interleaving a tenant is under the plan it was last given |
| Gateway.EntryKeepsBalance | libs/shared/gateway.py:256-309 | whatever happens to an entering request, slots held still match calls in flight plus leaked calls |
| Gateway.EndFindsItsSlot | libs/shared/gateway.py:311-323 | a call that ends finds its slot still counted, so the release clamp never fires |
| Gateway.SlotsConserved | libs/shared/gateway.py:240-323 | in every interleaving and under changing plans, a tenant's slots held equal its calls in flight plus its calls whose scope-building raised |
| Gateway.UsedWithinLimit | libs/shared/tenant_resources.py:227-273 | under a fixed plan the slots held never exceed concurrent_operations, whatever other tenants do |
| Gateway.InFlightBounded | libs/shared/gateway.py:281-323 | under a fixed plan calls in flight plus leaked calls never exceed concurrent_operations |
| Gateway.LeaksOnlyGrow | libs/shared/gateway.py:296-309 | no continuation returns a leaked slot |
| Gateway.LeaksStarveTenant | libs/shared/gateway.py:296-309 | once a tenant has leaked its whole concurrency none of its calls is ever in flight again under that plan |
| Gateway.StarvedExactly | libs/shared/gateway.py:240-323 | a tenant with a positive request limit has no call in flight in any continuation under its plan and a clock that does not go back if and only if it has leaked its whole concurrency |
| Gateway.UnstarvedContinuation | libs/shared/gateway.py:256-323 | with leaks to spare such a continuation serves a request of the tenant, under any limiter key |
| Gateway.LeakRefusesNext | libs/shared/gateway.py:296-309 | with one slot in the plan, one scope that cannot be built has the tenant's next request refused, whatever it is |
| S2SReplay.InMemoryS2SReplayCache.DropExpiredNonces | libs/shared/s2s_auth.py:276-288 | the deletion loop leaves exactly the entries inside the window |
| S2SReplay.InMemoryS2SReplayCache.Remember | libs/shared/s2s_auth.py:257-274 | rejects exactly a key still inside the window, else stores it; whole new table |
| S2SReplay.SharedSecretS2SAuth.VerifyRequest | libs/shared/s2s_auth.py:697-753 | the first failing check decides the error and leaves the table alone; a request that passes all is remembered and accepted exactly if its key is not |
| S2SReplay.CachedWasAccepted | libs/shared/s2s_auth.py:257-274 | every cached entry is an accepted request of the run |
| S2SReplay.AcceptedStaysCached | libs/shared/s2s_auth.py:257-288 | every accepted request stays cached until its timestamp leaves the window |
| S2SReplay.PruningIsInvisible | libs/shared/s2s_auth.py:697-753 | what every call of a timed run answers, first error first: unsupported method, missing field, time outside the window on either side, wrong signature, nonce used by an accepted request whose time is still inside the window, else the service name; so the pruned table answers as one that never forgets |
| S2SReplay.AcceptedExactly | libs/shared/s2s_auth.py:697-753 | accepted exactly if complete, timely, signed, and no earlier accepted request of its service and nonce has a timestamp still inside the window |
| S2SReplay.CachedWasSigned | libs/shared/s2s_auth.py:735-749 | every cached entry comes from an accepted, signed request of that service, nonce and timestamp |
| S2SReplay.AcceptedTimestampsIncrease | libs/shared/s2s_auth.py:724-749 | the timestamps accepted for one service and nonce strictly increase over any run, so nothing is accepted twice |
| S2SReplay.CacheStaysInWindow | libs/shared/s2s_auth.py:276-288 | after an acceptance every cached entry is inside the window |
| S2SReplay.KeysCollideExactly | libs/shared/s2s_auth.py:266-274 | two pairs of service and nonce share an entry exactly when they are equal or differ by a colon shifted between the fields |
| S2SReplay.ColonBlocksAnotherService | libs/shared/s2s_auth.py:266-274 | a run in which service "a" uses nonce "b:c" and service "a:b" is then refused its new nonce "c" |
| Events.CoverFromMatch | libs/shared/events.py:410-434 | a match yields a division of the routing words, one chunk per pattern word |
| Events.MatchFromCover | libs/shared/events.py:410-434 | every such division is found by the recursion |
| Events.MatcherIsAmqp | libs/shared/events.py:403-434 | for all word sequences the recursive matcher equals the declarative meaning of section 3.1.3.3 of AMQP 0-9-1 |
| Events.TopicMatchesExactly | libs/shared/events.py:403-407 | on whole keys: an error exactly for an unaccepted key, else the AMQP meaning of their words |
| Events.NormalizeExactly | libs/shared/events.py:455-489 | which keys and segments are accepted, and that they stand for what is left without the spaces around |
| Events.EventTypeExactly | libs/shared/events.py:437-444 | which event types are accepted, character by character |
| Events.RoutingKeyWords | libs/shared/events.py:396-400 | a routing key says tenant and event type, word by word |
| Events.RoutingKeyInjective | libs/shared/events.py:396-400 | two events share a routing key exactly if they agree on tenant and type |
| Events.TenantBindingMeaning | libs/shared/events.py:396-434 | a tenant binding selects a built routing key exactly when the tenants agree or the bound tenant is a wildcard word |
| Events.TenantBindingExact | libs/shared/events.py:455-460 | it selects exactly that tenant's events if and only if the tenant is not a wildcard word |
| Events.PartitionDone | libs/shared/events.py:215-234 | a finished pass has taken the first selected messages, up to the limit, and kept all others in order |
| Events.SiftedPartitions | libs/shared/events.py:224-234 | the pass of the loop hands out the first selected messages up to the limit and keeps the rest, in order and with nothing lost |
| Events.FilterPieces | libs/shared/events.py:224-234 | selecting goes piece by piece, so it keeps the order |
| Events.EnvelopesAt | libs/shared/events.py:226-228 | what is handed out are the envelopes of the selected messages, one by one |
| Events.InMemoryEventBus.constructor | libs/shared/events.py:200-202 | a new bus is empty |
| Events.InMemoryEventBus.Publish | libs/shared/events.py:207-213 | appends exactly the envelopes whose routing key can be built, under that key |
| Events.InMemoryEventBus.Consume | libs/shared/events.py:215-234 | stable partition: the first limit selected envelopes in order, the rest unchanged in order, nothing lost or duplicated; exactly when it raises, and then nothing changes |
| Inbox.InMemoryEventIdempotencyStore.constructor | libs/shared/events.py:251-253 | a new store is empty |
| Inbox.InMemoryEventIdempotencyStore.Begin | libs/shared/events.py:255-264 | claims exactly an event that is neither in progress nor completed |
| Inbox.InMemoryEventIdempotencyStore.Complete | libs/shared/events.py:266-269 | moves the event from in progress to completed |
| Inbox.InMemoryEventIdempotencyStore.Fail | libs/shared/events.py:271-273 | frees the event |
| Inbox.StepKeepsSafe | libs/shared/events.py:279-296 | each piece of a handle call keeps the invariant |
| Inbox.AtMostOnce | libs/shared/events.py:248-296 | in every interleaving: at most one call holds an event, running, cancelled or succeeded; the two sets are disjoint and hold exactly what calls hold |
| Inbox.RunnableExactly | libs/shared/events.py:255-296 | an event can be started exactly when every call that ever started it raised |
| Inbox.HeldForever | libs/shared/events.py:286-296 | after a success or a cancellation no continuation starts or completes the event again |
| Inbox.CancelledIsRefused | libs/shared/events.py:286-296 | handle, cancel inside the handler, handle again: refused, and never completed |
| RefreshTokens.AuthTokenService.constructor | libs/shared/auth.py:115-141 | a new service has no records |
| RefreshTokens.AuthTokenService.IssueTokenPair | libs/shared/auth.py:143-188 | stores exactly one live record under the hash of the new token; an unacceptable identity changes nothing |
| RefreshTokens.AuthTokenService.Revoke | libs/shared/auth.py:81-96 | revokes a known record in place, ignores an unknown one |
| RefreshTokens.AuthTokenService.RefreshTokenPair | libs/shared/auth.py:216-255 | succeeds exactly for a known, live, unexpired token; whole new table, with the predecessor linked to its successor, and an expired one revoked |
| RefreshTokens.AuthTokenService.RevokeRefreshToken | libs/shared/auth.py:257-264 | revokes exactly the record of the token |
| RefreshTokens.RotatesExactly | libs/shared/auth.py:216-255 | a refresh token presented after any run is rotated exactly if some login or rotation issued it, its time to live has not passed since then, and no call in between rotated it, revoked it or presented it too late |
| RefreshTokens.OwnersAreFounders | libs/shared/auth.py:143-188 | every token of a family belongs to the identity that logged in |
| RefreshTokens.AcceptableExactly | libs/shared/auth.py:143-163 | who can log in: a well-formed tenant id, a subject and roles that are not blank |
| RefreshTokens.RotationKeepsChain | libs/shared/auth.py:236-255 | a rotation hands the family's one live place to the successor |
| RefreshTokens.FamiliesStayChained | libs/shared/auth.py:143-264 | over every run: only the newest record of a login family can be live, and all records of a family share tenant, subject and roles |
| RefreshTokens.OneLiveRecordPerFamily | libs/shared/auth.py:143-264 | two live records never belong to one family |
| RefreshTokens.TokensRotateOnce | libs/shared/auth.py:216-255 | no refresh token is rotated by two calls of one run |
| RefreshTokens.RecordsOnlyAge | libs/shared/auth.py:75-96 | a record never disappears, keeps owner and expiry, and once revoked stays revoked |
| RefreshTokens.LineageKeptExactly | libs/shared/auth.py:81-96 | at the end of every run a rotated record names its successor if and only if no call after the rotation revoked it explicitly |
| RefreshTokens.LostLink | libs/shared/auth.py:257-264 | log in, refresh, revoke the old token: the link is lost, for any two tokens with different hashes |
| Totp.CodeShape | libs/shared/auth.py:436-443 | every code has exactly digits decimal digits and denotes the truncated hash modulo 10^digits; the truncation stays inside the 20-byte digest |
| Totp.TruncatedExactly | libs/shared/auth.py:436-443 | dynamic truncation, byte by byte and without the top bit (section 5.3 of RFC 4226) |
| Totp.CounterExactly | libs/shared/auth.py:406-408 | the counter is the number of whole steps since the epoch |
| Totp.GeneratedExactly | libs/shared/auth.py:348-355 | when a code is generated, and from which counter |
| Totp.Rfc4226Example | libs/shared/auth.py:436-443 | the worked example of section 5.4 of RFC 4226 comes out as 872921 |
| Totp.VerifyTotp | libs/shared/auth.py:357-377 | accepts exactly the codes equal to HOTP at some counter within the drift, and raises exactly for an undecodable secret, a counter beyond eight bytes reached first, or digits outside ASCII |
| Totp.OnlyWellFormedMatch | libs/shared/auth.py:364-366 | the shape check rejects no code that could match |
| Totp.UnicodeExactly | libs/shared/auth.py:364-366 | which digit strings make the comparison raise |
| Totp.BlanksDoNotCount | libs/shared/auth.py:364 | blanks between groups do not count, and nothing else is dropped |
| Totp.CounterDrifts | libs/shared/auth.py:406-408 | times within drift steps have counters within drift |
| Totp.AcceptsExactly | libs/shared/auth.py:357-377 | accepted are exactly the codes generated now or up to drift steps earlier or later |
| Totp.GeneratedIsAccepted | libs/shared/auth.py:348-377 | a code generated at t is accepted at every t' with a distance of at most drift times step (section 5.2 of RFC 6238) |
| TenantCache.EncodeInjective | libs/shared/cache.py:546-573 | distinct tenant, namespace and key give distinct cache keys |
| TenantCache.PrefixSelectsNamespace | libs/shared/cache.py:563-573 | the namespace prefix starts exactly the keys of that tenant and namespace |
| TenantCache.NormalizeExactly | libs/shared/cache.py:591-598 | which raw segments are accepted, and that they stand for what is left without the spaces around |
| TenantCache.ResolveExactly | libs/shared/cache.py:546-573 | raw arguments resolve exactly if all three are accepted, each to its own segment |
| TenantCache.SameKeyExactly | libs/shared/cache.py:546-573 | two calls meet at one cache key exactly if tenant, namespace and key agree without the spaces around |
| TenantCache.InvalidationHitsExactly | libs/shared/cache.py:222-241 | an invalidation hits a key exactly if tenant and namespace agree |
| TenantCache.LockAddressExactly | libs/shared/cache.py:575-588 | a lock's arguments resolve exactly as a value's do, to a key of its own namespace |
| TenantCache.SameLockExactly | libs/shared/cache.py:575-588 | two calls meet at one lock exactly if tenant, namespace and key agree |
| TenantCache.ForeignCallInvisible | libs/shared/cache.py:167-323 | no method call of one tenant, with whatever raw arguments, changes what get_json answers to another, now or later |
| TenantCache.WriteShowsExactly | libs/shared/cache.py:167-205 | a value that was set is read back under agreeing arguments until its TTL is over, and under no others does the write show |
| TenantCache.InMemoryTenantCache.constructor | libs/shared/cache.py:147-165 | a new cache is empty and its key prefix is the stripped one |
| TenantCache.InMemoryTenantCache.PurgeExpired | libs/shared/cache.py:344-358 | the deletion loops leave exactly the unexpired entries and locks |
| TenantCache.InMemoryTenantCache.GetJson | libs/shared/cache.py:167-185 | purges, and answers the unexpired value at the resolved address, else None, else an error |
| TenantCache.InMemoryTenantCache.SetJson | libs/shared/cache.py:187-205 | one entry written with its expiry; a bad segment or a non-positive TTL changes nothing |
| TenantCache.InMemoryTenantCache.Delete | libs/shared/cache.py:207-220 | one entry removed, and whether it was stored |
| TenantCache.InMemoryTenantCache.InvalidateNamespace | libs/shared/cache.py:222-241 | removes exactly the keys with the prefix and returns their number |
| TenantCache.InMemoryTenantCache.Increment | libs/shared/cache.py:243-271 | counts from the unexpired integer or from zero, renewing the expiry; anything but an integer is an error |
| TenantCache.InMemoryTenantCache.AcquireLock | libs/shared/cache.py:273-301 | granted exactly when no unexpired lock is stored, then stored with owner and expiry |
| TenantCache.InMemoryTenantCache.ReleaseLock | libs/shared/cache.py:303-323 | removes the lock exactly when unexpired and owned by that name |
| TenantCache.CacheRefinesTable | libs/shared/cache.py:167-271 | after every run the string-keyed, purging cache shows, at every address and every later time, what an unpurged map by tenant, namespace and key shows |
| TenantCache.ReadsReturnLastLiveWrite | libs/shared/cache.py:167-271 | reads and counters answer as that map does |
| TenantCache.OwnOpsDecide | libs/shared/cache.py:187-271 | the map's content for a tenant depends on that tenant's own operations only |
| TenantCache.TenantsDoNotInterfere | libs/shared/cache.py:167-271 | dropping every other tenant's operations from a run changes no read |
| TenantCache.StoredInClosedForm | libs/shared/cache.py:167-271 | after every run a key is stored exactly when the reference map has the entry and nobody has read or counted anything since it expired; the entries then agree |
| TenantCache.DeleteContradictsReadExactly | libs/shared/cache.py:207-220 | after every run delete contradicts a read at the same time if and only if the last write there has expired and nobody has read or counted anything since |
| TenantCache.ExpiredEntryIsDeleted | libs/shared/cache.py:207-220 | one write suffices: after its TTL delete answers True although a read would find nothing |
| TenantLocks.StoredIsHeld | libs/shared/cache.py:273-323 | a stored lock comes from one acquisition that nothing has ended since |
| TenantLocks.GrantedIsStoredOrOver | libs/shared/cache.py:273-358 | every acquisition is still stored, released by its owner or expired |
| TenantLocks.LockExclusion | libs/shared/cache.py:273-358 | ownership intervals of one lock key are pairwise disjoint over every run |
| TenantLocks.ReleaseNeedsOwner | libs/shared/cache.py:303-323 | a release succeeds only for the owner name of the one current, unexpired acquisition |
| TenantLocks.GrantedExactly | libs/shared/cache.py:273-301 | an acquisition is granted exactly if every earlier one of that lock is over |
| TenantLocks.FreedExactly | libs/shared/cache.py:303-323 | a release succeeds exactly if an acquisition by that owner name is not over |
| RlKpi.Round4Facts | services/analytics-engine/analytics_engine/api.py:2336-2337 | rounding lands on a ten-thousandth, keeps those, and moves by at most half of one |
| RlKpi.EventMovesActiveMembers | services/analytics-engine/analytics_engine/api.py:2193-2207 | an identified member counts once, anonymous activity by value |
| RlKpi.EventMovesOneMetric | services/analytics-engine/analytics_engine/api.py:2189-2284 | one more event touches the reported metric of its kind alone; unless it is a reading, a non-negative one never lowers what is reported and never makes a metric fall short |
| RlKpi.MetricsIgnoreOrder | services/analytics-engine/analytics_engine/api.py:2189-2239 | the metrics depend only on the multiset of events |
| RlKpiReports.MetricExactly | services/analytics-engine/analytics_engine/api.py:2222-2284 | each metric reports its key and bounds, its value to the nearest ten-thousandth, and a status that looks at the value before rounding |
| RlKpiReports.TieExactly | services/analytics-engine/analytics_engine/api.py:2336-2337 | a value half-way between two ten-thousandths is reported as the even one |
| RlKpiReports.SamplesCounted | services/analytics-engine/analytics_engine/api.py:2260-2267 | a reading event counts for its samples, or for one if it does not say or says zero |
| RlKpiReports.AverageExactly | services/analytics-engine/analytics_engine/api.py:2260-2271 | the average reading time in minutes per sample, times samples and sixty, is the recorded time; zero without samples |
| RlKpiReports.QuietPeriod | services/analytics-engine/analytics_engine/api.py:222-295 | an empty period falls short of all eight targets, by the target |
| RlKpiReports.BusyPeriod | services/analytics-engine/analytics_engine/api.py:222-295 | a period one over its bounded targets is to fall by one in each |
| RlKpi.BuildProposals | services/analytics-engine/analytics_engine/api.py:1555-1600 | the loop computes the proposals of the latest period |
| RlKpi.ProposalsMatchOffTarget | services/analytics-engine/analytics_engine/api.py:1568-1600 | one fresh proposal per off-target metric, in order, and no other |
| RlKpi.OffTargetExactly | services/analytics-engine/analytics_engine/api.py:1569-1571 | the metrics proposed for are exactly those not on track |
| RlKpiReports.ProposalExactly | services/analytics-engine/analytics_engine/api.py:1568-1600 | a proposal says what the off-target metric of the last period says: key, latest value, bounds, direction, baseline |
| RlKpiReports.OffTargetPieces | services/analytics-engine/analytics_engine/api.py:1568-1571 | proposals go piece by piece, so they keep the order of the metrics |
| RlKpiReports.SeriesExactly | services/analytics-engine/analytics_engine/api.py:1603-1612 | a baseline averages the reported value of its metric in each period |
| RlKpiReports.BaselineExactly | services/analytics-engine/analytics_engine/api.py:1573-1574 | to the nearest ten-thousandth |
| RlKpi.LiftReachesBound | services/analytics-engine/analytics_engine/api.py:1615-1630 | for any real value and any target on the grid, the rounded lift leads from the rounded value exactly to the bound the unrounded value violates |
| RlKpi.LiftsLandOnTarget | services/analytics-engine/analytics_engine/api.py:2222-2284 | for every list of events, the proposal for an off-target metric lands on target: latest value moved by lift in its direction is the missed bound and ON_TRACK |
| RlKpi.ProposalsLand | services/analytics-engine/analytics_engine/api.py:1555-1630 | so does every proposal of every new iteration |
| RlKpi.ReachableProposalsLand | services/analytics-engine/analytics_engine/api.py:1213-1501 | and every stored proposal in every reachable state, decided or measured |
| RlKpi.LiftVanishesExactly | services/analytics-engine/analytics_engine/api.py:1621-1630 | an off-target metric, below or above, gets a lift of zero exactly when its unrounded value misses the bound by at most half a ten-thousandth |
| RlKpi.VanishingLift | services/analytics-engine/analytics_engine/api.py:1621-1630 | an event list whose metric is below target with nothing to lift |
| RlKpi.EffectIsExact | services/analytics-engine/analytics_engine/api.py:1689-1735 | stable, improved or degraded exactly as the two reported values compare in the proposal's direction |
| RlKpiReports.RelativeDeltaExactly | services/analytics-engine/analytics_engine/api.py:1698-1716 | the relative change is the change in parts of the latest value to the nearest ten-thousandth, none for a latest value that is not positive; rollback is recommended exactly for a degraded effect |
| RlKpiReports.EffectComparesOwnMetric | services/analytics-engine/analytics_engine/api.py:1665-1687 | an effect compares the latest value with what the evaluation period reports of the same metric |
| RlKpi.InMemoryAnalyticsRepository.constructor | services/analytics-engine/analytics_engine/api.py:744-765 | a new repository has no iterations |
| RlKpi.InMemoryAnalyticsRepository.CreateIteration | services/analytics-engine/analytics_engine/api.py:1213-1290 | one new record with the proposals of the latest period, or a conflict |
| RlKpi.InMemoryAnalyticsRepository.ApproveIteration | services/analytics-engine/analytics_engine/api.py:1328-1402 | decides exactly an iteration that awaits approval, else an error and no change |
| RlKpi.InMemoryAnalyticsRepository.MeasureEffect | services/analytics-engine/analytics_engine/api.py:1423-1501 | measures exactly an approved iteration, else an error and no change |
| RlKpi.EffectsKeepProposals | services/analytics-engine/analytics_engine/api.py:1665-1687 | the filter on reported keys drops nothing: same proposals, same order, only effects change |
| RlKpi.CreatingAgrees | services/analytics-engine/analytics_engine/api.py:1240-1258 | a created iteration is consistent |
| RlKpi.DecidingAgrees | services/analytics-engine/analytics_engine/api.py:1341-1369 | a decision keeps it consistent and every proposal in place |
| RlKpi.MeasuringAgrees | services/analytics-engine/analytics_engine/api.py:1434-1468 | so does a measurement, first or repeated |
| RlKpi.RunsStaySound | services/analytics-engine/analytics_engine/api.py:1213-1501 | in every reachable state iteration status, approval status, proposal statuses, effects and number of decisions agree; effects exist only after exactly one approval |
| RlKpi.RollbackMeansWorse | services/analytics-engine/analytics_engine/api.py:1457-1462 | in every reachable state ROLLBACK_REQUIRED holds exactly when some reported value moved against its proposal's direction |
| RlKpiReports.EffectStatusExactly | services/analytics-engine/analytics_engine/api.py:1738-1751 | in every reachable state the effect of a measured iteration is degraded if some value moved against its proposal, else improved if some moved with it, else stable |
| RlKpiReports.VerdictIsFollowed | services/analytics-engine/analytics_engine/api.py:1341-1369 | in every reachable state the approval status says what the council's first decision was, if there are proposals |
| RlKpiReports.ApprovalExactly | services/analytics-engine/analytics_engine/api.py:1337-1369 | a decision is accepted exactly for a known iteration with proposals and no decision so far, and shows in the iteration and in every proposal |
| RlKpiReports.MeasurementExactly | services/analytics-engine/analytics_engine/api.py:1430-1456 | a measurement is accepted exactly for an iteration that the council approved |
| RlKpi.ProposalsAreKept | services/analytics-engine/analytics_engine/api.py:1359-1362 | from any state on, no continuation loses, reorders or changes a proposal in anything but status and effect |
| Marketplace.InMemoryTenantMarketplace.constructor | libs/shared/tenant_marketplace.py:269-281 | a new marketplace is empty |
| Marketplace.InMemoryTenantMarketplace.PublishProfile | libs/shared/tenant_marketplace.py:283-291 | stores the profile and indexes its slug exactly when no other tenant has it |
| Marketplace.GeneratedIdFitsExactly | libs/shared/tenant_marketplace.py:335-345 | for every valid slug and random suffix the generated id passes the validation of ids if and only if the slug has at most 51 characters |
| Marketplace.InMemoryTenantMarketplace.SubmitApplication | libs/shared/tenant_marketplace.py:323-353 | stores a fresh application exactly when applicant, slug and the given or generated id allow it |
| Marketplace.InMemoryTenantMarketplace.ModerateApplication | libs/shared/tenant_marketplace.py:382-428 | succeeds exactly for a moderator, a known application and, for approvals, the approval conditions; whole new state |
| Marketplace.InMemoryTenantMarketplace.ApproveApplication | libs/shared/tenant_marketplace.py:457-519 | adds profile, slug and history entry together or nothing |
| Marketplace.InMemoryTenantMarketplace.StoreModerationResult | libs/shared/tenant_marketplace.py:521-544 | appends one record and sets its status |
| Marketplace.ModerationExactly | libs/shared/tenant_marketplace.py:393-405 | a moderation is accepted exactly from a named member of council, presidium or board for a known application, and for an approval under its conditions |
| Marketplace.ApprovalExactly | libs/shared/tenant_marketplace.py:466-479 | which are: unmoderated, the four checklist steps done, a well-formed tenant id that no profile has, a slug that no other tenant has taken |
| Marketplace.ModerationRecords | libs/shared/tenant_marketplace.py:521-544 | reviewer, decision, time, comment and status of the record that a moderation appends |
| Marketplace.ApprovalPublishes | libs/shared/tenant_marketplace.py:481-506 | an approval publishes the tenant under the submitted slug and plan |
| Marketplace.SubmissionExactly | libs/shared/tenant_marketplace.py:347-353 | while the index is exact a fresh application is accepted exactly if its id is new, no profile has taken its slug and no application claims it |
| Marketplace.TakenIsHeld | libs/shared/tenant_marketplace.py:283-291 | a slug that a call took belongs to its tenant at the end of the run |
| Marketplace.HeldWasTaken | libs/shared/tenant_marketplace.py:283-291 | and one that belongs to a tenant was taken for it by some publication or approval |
| Marketplace.RunsStaySound | libs/shared/tenant_marketplace.py:283-572 | over every run the slug index leads each profile's slug back to its tenant, an application is approved only as its first moderation, and its status is the last record's |
| Marketplace.SlugsAreDistinct | libs/shared/tenant_marketplace.py:555-558 | distinct tenants hold distinct slugs |
| Marketplace.SlugsStayWithTheirTenant | libs/shared/tenant_marketplace.py:555-558 | a slug once taken belongs to its tenant in every continuation |
| Marketplace.HistoryOnlyGrows | libs/shared/tenant_marketplace.py:521-544 | history is append-only and a submission never changes |
| Marketplace.ApprovalAddsTenant | libs/shared/tenant_marketplace.py:457-519 | an approval adds exactly one tenant, absent before, under the submitted slug, to an unmoderated application |
| Marketplace.ModerationKeepsExclusiveExactly | libs/shared/tenant_marketplace.py:397-426 | a moderation keeps the application index exact if and only if it neither reopens a rejected application nor rejects one again while its slug is taken |
| Marketplace.UndisturbedRunsAreExclusive | libs/shared/tenant_marketplace.py:323-426 | in a run without such moderations the index holds exactly the applications that are not rejected |
| Marketplace.OneLiveApplicationPerSlug | libs/shared/tenant_marketplace.py:560-572 | in such a run no slug has two applications that are not rejected |
| Marketplace.StepKeepsOneLiveExactly | libs/shared/tenant_marketplace.py:323-426 | a call keeps at most one live application per slug if and only if it neither reopens a rejected application whose slug is claimed nor submits for a claimed slug past the index |
| Marketplace.OneLiveExactly | libs/shared/tenant_marketplace.py:323-426 | a run has at most one live application per slug throughout if and only if it contains no such call |
| Marketplace.ExactIndexNeverDoubles | libs/shared/tenant_marketplace.py:560-572 | while the index is exact no submission doubles a claim, and a moderation does only if it breaks the index too |
| Marketplace.TwoLiveApplications | libs/shared/tenant_marketplace.py:407-426 | submit, reject, let another one take the slug, reopen the first: two are live |
| Marketplace.TwoLiveBySubmission | libs/shared/tenant_marketplace.py:417-426 | or reject the first again and submit a third: two are live |

## Left out

- Floating point: all readings, delays and metric values are exact reals, so binary
  rounding and the OverflowError of a huge `**` in the backoff are not modelled.
- Resilience.DependencyResilienceGuard.Execute: how the per-attempt timeout is enforced is
  not modelled; a timeout is one of the outcomes of an attempt.
- Constructors: arguments that the original rejects raise there, so there is no object;
  here they are excluded by the precondition.
- Locks and threads: a method that holds a lock is one atomic step.
- Gateway.APIGatewayMiddleware.Enter: whether a route matches and whether the scope can
  be built are inputs; route choice, path rewriting, headers, error bodies and a gateway
  without a resource manager are not modelled.
- Tenant resource snapshots with their remaining amounts.
- S2SReplay.SharedSecretS2SAuth.VerifyRequest: header parsing, method and path
  normalisation and the signature itself are inputs; a missing field and an unparsable
  one are one error.
- The Kubernetes and RSA authenticators, which share the nonce table.
- RefreshTokens.FamiliesStayChained: tokens are fresh and hashes do not collide, so a
  call that would issue an already stored hash is not a step of a run.
- Access tokens, JWT and base32 decoding, provisioning URIs, confirmation of sensitive
  operations.
- Totp.VerifyTotp: the characters outside ASCII that `str.isdigit` accepts are an
  arbitrary set, and the keyed hash is an arbitrary function with 20-byte values.
- JSON values in the cache are opaque except for integers; the copies made on reading
  and writing are not modelled.
- TenantCache.CacheRefinesTable: lock calls appear in a run only as the purge they do.
- Cache, event bus and object storage clients of Redis, RabbitMQ, S3 and Chroma.
- Event envelopes: payload, schema version, timestamps and their JSON form.
- RlKpi.InMemoryAnalyticsRepository.CreateIteration: the events of each period are
  inputs; storing and selecting them, access rules, HTTP, audit records, published
  events, timestamps and explanatory texts are not modelled.
- RlKpi.InMemoryAnalyticsRepository.ApproveIteration: the access rule, the decision
  reference and the comment are not modelled.
- RlKpi.InMemoryAnalyticsRepository.MeasureEffect: the access rule is not modelled, and the
  events of the evaluation period are an input.
- Pilot telemetry, incident and council reports of the analytics service.
- Marketplace.InMemoryTenantMarketplace.ApproveApplication: configuring the resource
  manager and the descriptive fields of a profile are not modelled.
- Marketplace validation of slugs and texts of a submission, and the catalogue listing.
