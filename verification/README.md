# edge-llm-gateway in Dafny

edge-llm-gateway is a public HTTP gateway that relays OpenAI-style requests over a QUIC tunnel to edge
agents. This project models the parts of it whose correctness depends on more than one step: the
admission gate and the request books around it, the three kinds of limiter, the lifecycle of
credential pairs, the agent's relay and the path guard, the metrics page and its reader, the request
ids, and the timed loops. `dafny verify dfyconfig.toml` checks everything.

| file | what it models |
|---|---|
| `Admission.dfy` | the compare-and-swap gate with its three domains, both middlewares, cancellation at every await |
| `RequestLives.dfy` | what becomes of each request of a run: its path, its answer, its slot, its record |
| `TenantSlots.dfy` | per-tenant slot counters with eviction, lookup and update as separate steps |
| `RateLimiter.dfy` | token buckets with lazy refill and a garbage-collecting sweep, and the tenant limiter |
| `LoginLimiter.dfy`, `LoginOverlap.dfy` | failed-login windows per user and for the process, for logins one at a time and overlapping |
| `Pki.dfy`, `PkiNames.dfy` | credential pairs: repository, files and TLS state; revocation, download, rollback, restart |
| `PkiAgreement.dfy`, `PkiServing.dfy` | when the stores agree, and when every active record is resolved |
| `PkiDownloads.dfy` | from the creation of a pair to its download, and what records say |
| `PathGuard.dfy` | the upstream path guard against `remove_dot_segments` and percent-decoding of RFC 3986 |
| `Relay.dfy` | the agent's frame protocol under any schedule of upstream events, cancellation and write failures |
| `MetricsText.dfy`, `MetricsReader.dfy` | the page as the gateway prints it, and the dashboard's reader |
| `MetricsRoundTrip.dfy`, `MetricsPage.dfy`, `MetricsLookup.dfy` | what survives the way from one to the other, and what is found under which name |
| `RequestId.dfy` | `req-<u64>` ids across layers |
| `Stall.dfy`, `Entry.dfy` | the write-stall wrapper, the stalling body reader, the accept loop |
| `Options.dfy`, `Text.dfy`, `Decimal.dfy`, `Counting.dfy`, `Sorting.dfy`, `Words.dfy` | shared vocabulary |

Concurrency is modelled as interleaving: a total function applies one event to a state, an event that
cannot happen changes nothing, and a theorem about "every run" quantifies over every sequence of
events. Sequential objects that update their fields are classes whose methods are proved against
functions on values, and the properties are then proved about those functions. Times are parameters.
64-bit and 32-bit counters that can also be lowered wrap around explicitly.

Where the code does less than one may expect, the exact condition is stated:

- The login limiter is described as 5 failures per user and 60 in all per 60 seconds. Its windows are
  anchored at the first failure, and the login handler verifies the password between the check and the
  record. With at most `m` logins in that gap at a time, a half-open minute holds at most
  `2 * (limit - 1 + m) - 1` recorded failures and a closed one `2 * (limit - 1 + m)`, for one user and
  for all (`OverlapBound`), and both are reached for every `m` (`OverlapBoundIsReached`); nothing limits
  `m`, and so nothing limits the failures of one second (`UnboundedOverlap`). For every state, the room
  left in the minute from `t` is exact (`RoomIsExact`). For logins one at a time, which is `m = 1`, the
  bounds are 9 and 10 per user and 119 and 120 in all; more than 5 of a user can then be recorded in the
  minute from `t` if and only if the user's window is open at `t`, was opened before `t`, holds fewer
  than 5, and the global window admits six in time (`LoginLimiter.UserExceedsIff`), and more than 60 in
  all if and only if the global window is open, was opened before `t` and is not full
  (`LoginLimiter.GlobalExceedsIff`).
- After an eviction, a tenant can exceed its limit if and only if at that moment one of its calls holds
  a slot, or has looked up the counter and may still take one on it (`EvictionExceedsIff`). The bound,
  limit times one plus the number of evictions, is reached for every limit and number
  (`TenantBoundIsReached`).
- When nothing fails, the stores of credential pairs agree in every state of a run if and only if no
  creation takes the name of an unrevoked record, which an expired one allows, and no restart happens
  while an unrevoked record is expired (`StoresAgree`). Revoking removes by name: an active record is
  then lost if and only if a pair is revoked whose name it carries too (`OnlyNamesakesAreLost`, with a
  run in `ExpiryBreaksAgreement`); with failures, exactly the events that `Unserves` lists lose one
  (`ActiveIsServed`), and a restart that succeeds brings all back (`RestartHeals`).
- `create_pair` swallows the errors of its rollback: the record or the files stay if and only if their
  removal fails (`FailedCreateRollsBack`), and a record without files keeps the service from starting
  while it is active (`RestartSucceedsIff`).
- A CA that the TLS library rejects stays among the roots, and every later rebuild fails on it: no
  creation and no revocation succeeds until a restart (`StuckUntilRestart`), and a revocation that fails
  so leaves the pair's certificate accepted (`RevokeSucceedsIff`).

## Model

| member | source | states |
|---|---|---|
| `Admission.ShownShifts` | crates/gateway/src/metrics/admission.rs:142-158 | a wrapping 64-bit counter that moves with every contribution always shows the true count modulo 2^64 |
| `Admission.StepBalances` | crates/gateway/src/http/admission.rs:121-203 | every single step moves every counter by exactly what the stepping request's own contribution changes, and keeps the request coherent |
| `Admission.StepKeepsBound` | crates/gateway/src/metrics/admission.rs:80-121 | a slot is taken only while the live tickets are below the limit |
| `Admission.Invariant` | crates/gateway/src/metrics/admission.rs:80-158 | in every interleaving each counter equals the requests contributing to it and the domain bounds hold |
| `Admission.GateIsExact` | crates/gateway/src/metrics/admission.rs:80-158 | in every run a limited domain counter equals its live tickets, never exceeds the limit, and is above zero whenever a ticket is still to be returned |
| `Admission.CurrentWasSeen` | crates/gateway/src/metrics/admission.rs:92-109 | the value the loop acts on was really in the counter at an instant during that call |
| `Admission.RefusalIsHonest` | crates/gateway/src/metrics/admission.rs:92-109 | a call returns None only if at an instant during it exactly `limit` tickets of its domain were live |
| `Admission.UnlimitedNeverRefuses` | crates/gateway/src/metrics/admission.rs:80-92 | with limit 0 no gated request is ever refused |
| `Admission.RequestsBalance` | crates/gateway/src/http/observability.rs:62-127 | in every run, drops at any await included, requests counted = statuses + aborts + requests still open |
| `Admission.QuiescentIsBalanced` | crates/gateway/src/metrics/mod.rs:185-222 | at quiescence the identity has no remainder and all gauges are zero |
| `Admission.RequestContributions` | crates/gateway/src/http/admission.rs:112-203 | a rejection adds one count and one 429, a ticket outlives the status until the body ends, a scrape is in no term |
| `Admission.DomainsAreIndependent` | crates/gateway/src/http/admission.rs:62-108 | a domain behaves in every run as if the requests of the other domains did not exist |
| `Admission.ScrapesLeaveNoTrace` | crates/gateway/src/http/admission.rs:99-107 | deleting every scrape from a run changes no counter but the scrapes' own |
| `Admission.EnterLoop` | crates/gateway/src/metrics/admission.rs:80-121 | the retry loop against any interference: it gives up at the first reading at the limit, else takes the slot at the first exchange that succeeds |
| `Admission.RunFollowsLoop` | crates/gateway/src/metrics/admission.rs:80-121 | in every run a request is admitted or refused exactly as that loop decides on the counter values the request met |
| `RequestLives.PathDecides` | crates/gateway/src/http/admission.rs:62-108 | exactly `/metrics` adds to no accounting term, every other request is counted once past its loop and settles with a status or an abort; exactly `/healthz` takes a probe slot, exactly `/metrics` a scrape slot, every other path a gated one |
| `RequestLives.AnswerStands` | crates/gateway/src/http/observability.rs:122-127 | once the inner service has answered with a code, exactly that code is recorded, for good, and the slot is held until the body of the answer has ended; a refusal is recorded as 429 |
| `RequestLives.DropStands` | crates/gateway/src/http/observability.rs:62-88 | a request dropped before its answer never gets a status and settles as aborted |
| `RequestLives.OutcomeComesFromEvent` | crates/gateway/src/http/observability.rs:62-127 | every recorded status comes from the answer that carried it, every abort from a drop before the answer |
| `RequestLives.EveryRequestSettles` | crates/gateway/src/http/admission.rs:112-203 | from every reachable state every request can be brought to its end, slot and outcome included, by events of its own alone |
| `TenantSlots.StepHasShape` | crates/gateway/src/tenant_limits.rs:25-71 | every step creates a fresh counter, moves one call and its own counter together, or only removes a table entry |
| `TenantSlots.InvariantFrom` | crates/gateway/src/tenant_limits.rs:25-71 | counters are exact and calls stay bound to counters of their own tenant, along every run |
| `TenantSlots.CountersAreExact` | crates/gateway/src/tenant_limits.rs:25-66 | each counter equals the live slots bound to it and a drop never underflows, through evictions and changing limits |
| `TenantSlots.AdmissionRespectsLimit` | crates/gateway/src/tenant_limits.rs:44-66 | right after an admission under limit L the counter is between 1 and L |
| `TenantSlots.RefusalIsHonest` | crates/gateway/src/tenant_limits.rs:44-66 | a call is refused only if, between the lookup and the refusal, its counter had at least as many live slots as its limit |
| `TenantSlots.TwoAccessesDecide` | crates/gateway/src/tenant_limits.rs:58-66 | two undisturbed accesses decide a call: it takes a slot if and only if the counter, and the value it already read if any, are below its limit |
| `TenantSlots.ZeroIsUnlimited` | crates/gateway/src/tenant_limits.rs:48-50 | in every run a call under limit 0 is neither refused nor counted |
| `TenantSlots.DropGivesBack` | crates/gateway/src/tenant_limits.rs:25-31 | a drop lowers the counter of its call by one and no other |
| `TenantSlots.DetachedForGood` | crates/gateway/src/tenant_limits.rs:69-71 | a counter that left the table never returns to it and never gains a call |
| `TenantSlots.StepTouchesOwnCounter` | crates/gateway/src/tenant_limits.rs:25-66 | a step of a call leaves alone every counter the call is not bound to |
| `TenantSlots.EvictionSeparates` | crates/gateway/src/tenant_limits.rs:69-71 | slots from before an eviction never touch the replacement counter, whatever runs afterwards |
| `TenantSlots.SlotsOnCounters` | crates/gateway/src/tenant_limits.rs:44-66 | counters bounded one by one bound the slots they hold together |
| `TenantSlots.TenantBound` | crates/gateway/src/tenant_limits.rs:44-71 | a tenant asking under limits up to cap holds at most cap * (1 + evictions) slots |
| `TenantSlots.TenantBoundIsReached` | crates/gateway/src/tenant_limits.rs:44-71 | for every cap and n a run with n evictions in which the tenant holds cap * (1 + n) slots |
| `TenantSlots.ConfinedIsCapped` | crates/gateway/src/tenant_limits.rs:44-71 | while no call on a former counter can hold a slot, all slots of the tenant are on the counter it leads to, so within cap |
| `TenantSlots.EvictionExceedsIff` | crates/gateway/src/tenant_limits.rs:44-71 | after any history and an eviction, more than cap slots can come about without another eviction if and only if a call of the tenant holds a slot then or may still take one on the counter it looked up |
| `RateLimiter.KeyLimiter.Sweep` | crates/gateway/src/ratelimit.rs:52-61 | drops exactly the buckets that are idle and full once refilled, and returns their number |
| `RateLimiter.KeyLimiter.TryAcquire` | crates/gateway/src/ratelimit.rs:95-120 | refines the acquire function: refill, draw, store, sweep when due |
| `RateLimiter.KeyLimiter.Evict` | crates/gateway/src/ratelimit.rs:125-128 | removes one bucket and tells whether there was one |
| `RateLimiter.TenantLimiter.TryAcquire` | crates/gateway/src/ratelimit.rs:159-181 | refines the acquire function under the limit given with the call; limit 0 changes nothing |
| `RateLimiter.TenantLimiter.Evict` | crates/gateway/src/ratelimit.rs:192-194 | removes one bucket and tells whether there was one |
| `RateLimiter.MinuteFills` | crates/gateway/src/ratelimit.rs:95-110 | sixty seconds refill any bucket under any limit |
| `RateLimiter.FullStaysFull` | crates/gateway/src/ratelimit.rs:95-110 | a bucket that would be full now would be full later |
| `RateLimiter.AcquireCovers` | crates/gateway/src/ratelimit.rs:95-120 | one call: the sweeping limiter answers like the one that never sweeps, stays related to it, and keeps the bucket just served |
| `RateLimiter.SweepIsInvisibleFrom` | crates/gateway/src/ratelimit.rs:46-120 | related states answer every run of calls and evictions alike |
| `RateLimiter.SweepIsInvisible` | crates/gateway/src/ratelimit.rs:46-120 | the sweeping limiter answers every run exactly as one that never drops a bucket |
| `RateLimiter.IdleIsFull` | crates/gateway/src/ratelimit.rs:20-61 | with a 600 s idle limit against a 60 s refill the fullness test always passes |
| `RateLimiter.KeysAreIndependent` | crates/gateway/src/ratelimit.rs:159-181 | a tenant is answered as if it were the only one |
| `RateLimiter.SweepingKeysAreIndependent` | crates/gateway/src/ratelimit.rs:95-120 | the same for keys of the sweeping limiter |
| `RateLimiter.GrantsFromBucket` | crates/gateway/src/ratelimit.rs:95-128 | no more is granted than the tokens left, what flows in, and a full bucket for every eviction |
| `RateLimiter.IntervalBoundFrom` | crates/gateway/src/ratelimit.rs:159-194 | the interval bound from any sound state, evictions included |
| `RateLimiter.TokensStayInRange` | crates/gateway/src/ratelimit.rs:95-120 | tokens stay between zero and the capacity in every reachable state |
| `RateLimiter.KeyIntervalBound` | crates/gateway/src/ratelimit.rs:80-128 | after any history an interval of T seconds grants a key at most capacity * (1 + evictions) + T * capacity / 60 |
| `RateLimiter.TenantIntervalBound` | crates/gateway/src/ratelimit.rs:159-194 | the same under changing limits from 1 to cap, with cap for the capacity |
| `RateLimiter.TenantDeniedIff` | crates/gateway/src/ratelimit.rs:159-194 | after any history under any limits, a call is denied if and only if, from some draw after the last eviction on, more was drawn than that bucket when full and all that has flowed in since leave room for |
| `RateLimiter.SteadyDeniedIff` | crates/gateway/src/ratelimit.rs:159-194 | under one limit: if and only if, from some call after the last eviction on, more was granted than `limit` tokens and `limit / 60` a second since then leave room for |
| `RateLimiter.KeyDeniedIff` | crates/gateway/src/ratelimit.rs:80-128 | the same for the sweeping limiter, by its own answers |
| `RateLimiter.FirstCallsAreServed` | crates/gateway/src/ratelimit.rs:95-120 | the first `limit` calls for a key are always served, however close together |
| `RateLimiter.BucketsStayRecent` | crates/gateway/src/ratelimit.rs:20-61 | memory is reclaimed: after every call no bucket is left that was idle for 660 seconds |
| `RateLimiter.RetryAfterIsOneToken` | crates/gateway/src/ratelimit.rs:70-77 | both Retry-After formulas are the least whole number of seconds in which one token flows in, and 1 where none ever does |
| `RateLimiter.WaitingSuffices` | crates/gateway/src/ratelimit.rs:159-189 | after a denial, waiting Retry-After always earns a token |
| `RateLimiter.WaitingIsTight` | crates/gateway/src/ratelimit.rs:184-189 | from an empty bucket no smaller positive whole number of seconds does |
| `RateLimiter.RetryAfterIsKept` | crates/gateway/src/ratelimit.rs:70-120 | after any history, a denied key that waits Retry-After is served whatever other keys and sweeps do |
| `RateLimiter.TenantRetryAfterIsKept` | crates/gateway/src/ratelimit.rs:159-189 | the same for a tenant that asks again under the same limit, whatever the limits before |
| `LoginLimiter.NormalizeIsIdempotent` | crates/gateway/src/login_limiter.rs:120-122 | normalizing a username twice changes nothing more |
| `LoginLimiter.NormalizeIsTheCore` | crates/gateway/src/login_limiter.rs:120-122 | the user is the name without the white space around it, in lower case: spellings that differ in the rest are one user, and no others |
| `LoginLimiter.SuccessForgives` | crates/gateway/src/login_limiter.rs:102-106 | after a success every spelling of that user is let in unless the whole process is blocked, and everybody else is answered as before |
| `LoginLimiter.Limiter.Check` | crates/gateway/src/login_limiter.rs:63-78 | refines the verdict function: the global window first, then the user's |
| `LoginLimiter.Limiter.RecordFailure` | crates/gateway/src/login_limiter.rs:80-100 | bumps both windows, opening those that are missing or over |
| `LoginLimiter.Limiter.RecordSuccess` | crates/gateway/src/login_limiter.rs:102-106 | forgets the user's window only |
| `LoginLimiter.BumpUsesRoom` | crates/gateway/src/login_limiter.rs:25-45 | every recorded failure takes one from what the open window and one after it can still record in a minute |
| `LoginLimiter.GlobalBound` | crates/gateway/src/login_limiter.rs:63-100 | for logins one at a time, a half-open minute holds at most 119 recorded failures, a closed one at most 120 |
| `LoginLimiter.UserBound` | crates/gateway/src/login_limiter.rs:63-106 | for logins one at a time, after any history, a half-open minute without a success holds at most 9 recorded failures of a normalized username, a closed one at most 10 |
| `LoginLimiter.UserBoundIsReached` | crates/gateway/src/login_limiter.rs:25-45 | for every user, runs that record 10 in a closed and 9 in a half-open minute |
| `LoginLimiter.UserRoomIsExact` | crates/gateway/src/login_limiter.rs:63-106 | for logins one at a time, the room of the user's window at t bounds what the next minute can record, and is reached if the global window leaves room |
| `LoginLimiter.UserExceedsIff` | crates/gateway/src/login_limiter.rs:63-106 | for logins one at a time, more than 5 can be recorded in the minute from t if and only if the user's window is open, was opened before t, is not full, and the global window admits six in time |
| `LoginLimiter.GlobalExceedsIff` | crates/gateway/src/login_limiter.rs:63-100 | for logins one at a time, the room of the global window is exactly the most the minute from t can record; more than 60 if and only if that window is open, was opened before t and is not full |
| `LoginLimiter.GlobalBoundIsReached` | crates/gateway/src/login_limiter.rs:63-100 | runs that record 120 in a closed and 119 in a half-open minute |
| `LoginLimiter.RetryAfterEndsTheWindow` | crates/gateway/src/login_limiter.rs:41-78 | a refusal names 1 to 60 seconds, is still in force one second before and its window is over then |
| `LoginOverlap.Effect` | crates/gateway/src/access/session.rs:263-301 | what the start and each end of a login does to the window and to the logins in flight of one user or of all; a login begins only while the window is not full |
| `LoginOverlap.EventUsesRoom` | crates/gateway/src/login_limiter.rs:63-106 | every recorded failure takes one from what a minute can still record with at most m logins in flight, and no other event adds to it |
| `LoginOverlap.OverlapBound` | crates/gateway/src/access/session.rs:263-301 | after any history of overlapping logins with at most m in flight, a half-open minute holds at most 2 * (limit - 1 + m) - 1 recorded failures, a closed one 2 * (limit - 1 + m), for a user without a success and for all |
| `LoginOverlap.OverlapBoundIsReached` | crates/gateway/src/access/session.rs:263-301 | for every m both bounds are reached, by any user and by all together |
| `LoginOverlap.RoomIsExact` | crates/gateway/src/access/session.rs:263-301 | from every reachable state, the room at t bounds what the minute from t can record with at most m in flight, and is reached: by all together always, by one user if the global window leaves room |
| `LoginOverlap.GlobalExceedsIff` | crates/gateway/src/access/session.rs:263-301 | with at most m in flight, more than 60 can be recorded in the minute from t if and only if there is room for more than 60 |
| `LoginOverlap.UnboundedOverlap` | crates/gateway/src/access/session.rs:263-301 | without a bound on overlap, any number of failures of one user is recorded in one second |
| `LoginOverlap.InFlightIff` | crates/gateway/src/access/session.rs:263-328 | a login is in flight if and only if it passed the check and was not rejected, accepted or abandoned since |
| `LoginOverlap.EndsForgive` | crates/gateway/src/access/session.rs:263-328 | a login that succeeds unblocks its user, one that is abandoned leaves no trace |
| `PkiNames.ValidServerNameIsLower` | crates/gateway/src/pki/model.rs:126-142 | a valid server name is its own lowercase form, so case-folded keys are injective |
| `PkiNames.NamesAreValidIff` | crates/gateway/src/pki/model.rs:118-142 | a pair name is 1 to 64 of the 37 name characters; labels with dots between them are a server name if and only if each is a label, they are at most 253 characters, and they are not four numbers up to 255 |
| `Pki.PkiService.AddPairToRuntime` | crates/gateway/src/pki/tls.rs:242-256 | adds root, verifier, key and pair entry; if any root is rejected only the pushed root stays |
| `Pki.PkiService.CreatePair` | crates/gateway/src/pki/service.rs:90-186 | every failure branch with its rollback, whose own failures are swallowed, and the new state on success |
| `Pki.PkiService.RevokePair` | crates/gateway/src/pki/service.rs:224-238 | every failure branch and the new state on success |
| `Pki.PkiService.DownloadBundle` | crates/gateway/src/pki/service.rs:199-222 | mark, then remove the key, then hand it out, with a stop possible between any two |
| `Pki.PkiService.ConnectPair` | crates/gateway/src/pki/service.rs:192-197 | marks the record the name leads to, if it is waiting or connected |
| `Pki.PkiService.LoadActivePairs` | crates/gateway/src/pki/service.rs:71-88 | rebuilds the runtime from the active records, or, if files are missing or the TLS library rejects a CA, serves nothing |
| `Pki.StepKeepsSound` | crates/gateway/src/pki/service.rs:90-238 | whatever fails, no two pairs share a CA, only valid names are recorded, and names lead to recorded pairs |
| `Pki.BarredForGood` | crates/gateway/src/pki/tls.rs:122-204 | a revoked pair's CA never becomes trusted again, in any run with any failures and restarts |
| `Pki.RevocationIsPermanent` | crates/gateway/src/pki/service.rs:224-238 | once revocation succeeds the pair's client certificate is rejected in every later state, also after a restart emptied the revocation set |
| `Pki.NoBundleOnceMarked` | crates/gateway/src/pki/service.rs:199-222 | once a download is recorded no later one returns a bundle |
| `Pki.AtMostOneBundle` | crates/gateway/src/pki/service.rs:199-222 | in every run, crashes between any steps included, at most one download per pair returns a bundle |
| `Pki.FailedCreateRollsBack` | crates/gateway/src/pki/service.rs:160-186 | a failed creation never touches what is served and adds a root if and only if the TLS library rejected the roots; records are as before if and only if no deletion failed in the rollback, files if and only if no removal did |
| `Pki.RestartSucceedsIff` | crates/gateway/src/pki/service.rs:71-88 | a restart succeeds if and only if every active record has its files and an accepted CA; otherwise nothing is served; either way no rejected root is left |
| `Pki.RejectedCaSticks` | crates/gateway/src/pki/tls.rs:122-137 | a creation whose CA is rejected leaves that root behind without a pair on disk, unless it also fails to remove the files |
| `Pki.StuckUntilRestart` | crates/gateway/src/pki/tls.rs:103-151 | while a rejected root is stuck, no creation and no revocation of any run succeeds until a restart |
| `Pki.RevokeSucceedsIff` | crates/gateway/src/pki/service.rs:224-238 | exactly when a revocation succeeds, finds nothing, or conflicts; one that fails on the roots unmaps the name but leaves every accepted certificate accepted |
| `PkiAgreement.StepAgreesIff` | crates/gateway/src/pki/service.rs:51-238 | from agreement, an event that does not fail keeps it if and only if it neither takes the name of an unrevoked record nor restarts while an unrevoked record is expired |
| `PkiAgreement.StoresAgree` | crates/gateway/src/pki/service.rs:51-238 | in every run without failures, resolver, pair map and trusted roots are exactly those of the unrevoked records in every state if and only if every event is harmless in that sense |
| `PkiAgreement.ReloadRebuilds` | crates/gateway/src/pki/service.rs:71-88 | loading in any order rebuilds resolver, pair map and verifier exactly |
| `PkiAgreement.LoadMirrors` | crates/gateway/src/pki/tls.rs:242-256 | loading a set of pairs yields the running state restricted to them |
| `PkiAgreement.AgreementServes` | crates/gateway/src/pki/tls.rs:57-66 | in every such run, a name resolves exactly to the one unrevoked record that carries it, and a certificate passes exactly if its CA is that of an unrevoked record and it is not revoked |
| `PkiServing.ActiveNamesAreDistinct` | crates/gateway/src/pki/service.rs:114-122 | in every run, whatever fails and expires, no two active records share a server name, nor both tenant and name |
| `PkiServing.CreateSucceedsIff` | crates/gateway/src/pki/service.rs:90-186 | a creation conflicts if and only if it is valid, the records could be listed and an active one has its server name, or its tenant and name; it succeeds if and only if, beyond that, no step fails and the roots can be used |
| `PkiServing.CreatedIsServed` | crates/gateway/src/pki/service.rs:137-186 | a creation that succeeds adds a waiting record, its files, its name and trust in its CA, and changes nothing else; its client certificate is accepted unless revoked |
| `PkiServing.RestartHeals` | crates/gateway/src/pki/service.rs:71-88 | in every run, whatever failed before, a restart that succeeds resolves every active record to its own key |
| `PkiServing.StepServesIff` | crates/gateway/src/pki/service.rs:90-238 | an event leaves an active record unresolved if and only if a rollback keeps its record, a revocation removes the name of a record that stays active, or a restart finds an active pair whose CA is rejected |
| `PkiServing.ActiveIsServed` | crates/gateway/src/pki/service.rs:51-238 | in every run with any failures, expiry and restarts, every active record resolves to its own key in every state if and only if no such event happens |
| `PkiServing.OnlyNamesakesAreLost` | crates/gateway/src/pki/tls.rs:258-272 | in every run without failures, every active record is resolved in every state if and only if no pair is revoked whose name another active record carries |
| `PkiServing.ExpiryBreaksAgreement` | crates/gateway/src/pki/service.rs:224-238 | a run without failures in which an active pair can no longer be resolved |
| `PkiDownloads.RunKeepsPair` | crates/gateway/src/pki/service.rs:90-238 | in no run does an event change who a record is for, or the files of a pair but for its client key |
| `PkiDownloads.DownloadSucceedsIff` | crates/gateway/src/pki/service.rs:199-222 | in every run a download succeeds if and only if nothing interrupts it, the pair is active, its files are there and no download of it was recorded; it is not found if and only if unknown or revoked, and expired exactly if listed as expired |
| `PkiDownloads.BundleIsWhatWasWritten` | crates/gateway/src/pki/service.rs:206-221 | in every run the bundle handed out holds the client key, client certificate and CA that the creation of this pair wrote |
| `PkiDownloads.CreatedIsDownloadable` | crates/gateway/src/pki/service.rs:90-222 | after a creation that succeeds, the first download before the expiry hands out what was written, whatever else happens, fails or restarts meanwhile |
| `PkiDownloads.KeyIsGone` | crates/gateway/src/pki/service.rs:219-221 | a download that succeeds leaves no client key behind in any later state |
| `PkiDownloads.RevokedUntilRestart` | crates/gateway/src/pki/tls.rs:258-272 | until a restart a revoked certificate is refused by its fingerprint alone, whoever is trusted |
| `PkiDownloads.DatesComeFromEvents` | crates/gateway/src/storage/pki.rs:130-170 | in every run each date of a record is the time of a download, a revocation or a handshake |
| `PkiDownloads.ConnectMarks` | crates/gateway/src/pki/service.rs:192-197 | a handshake that names an active, served pair has it listed as connected until it expires or is revoked, and changes nothing else |
| `PathGuard.CleanIsCopied` | crates/proto/src/path.rs:23-43 | `remove_dot_segments` copies segments that are not dot segments |
| `PathGuard.FixedIffNoDotSegments` | crates/proto/src/path.rs:23-43 | a rooted path is a fixed point of normalization if and only if it has no dot segment |
| `PathGuard.AcceptedIff` | crates/proto/src/path.rs:23-43 | a path is accepted, as it is, if and only if it is under `/v1/`, a fixed point of normalization, without empty segments, and without a backslash or a triplet for a backslash, slash or dot |
| `PathGuard.DecodeSegment` | crates/proto/src/path.rs:23-43 | decoding a segment without the forbidden triplets makes no slash, backslash, empty or dot segment |
| `PathGuard.JoinSplits` | crates/proto/src/path.rs:23-43 | joining segments and splitting the result are inverse |
| `PathGuard.AcceptedIsNormal` | crates/proto/src/path.rs:23-43 | an accepted path and its percent-decoding are fixed points of normalization, with equally many segments, no backslash, under `/v1/` |
| `PathGuard.UpstreamUrlIsVerbatim` | crates/agent/src/stream.rs:24-42 | the URL is base and target verbatim, and acceptance depends on the part before the first `?` alone |
| `Relay.Buffer.TakePiece` | crates/proto/src/frame.rs:20-29 | cuts 1 to 65536 bytes off the front, less than 65536 only if nothing is left |
| `Relay.PiecesAreExact` | crates/proto/src/frame.rs:14-29 | pieces concatenate to the chunk, keep to the bound, and number ceil(n / 65536) |
| `Relay.WriteNext` | crates/agent/src/stream.rs:248-350 | one frame is sent or its failure ends the transcript there |
| `Relay.WriteLast` | crates/agent/src/stream.rs:352-371 | the last frame is sent or its failure ends the transcript there |
| `Relay.ForwardChunk` | crates/agent/src/stream.rs:330-342 | a chunk is written piece by piece up to the first failing write |
| `Relay.ForwardBody` | crates/agent/src/stream.rs:316-350 | the body loop writes the transcript of its schedule up to the first failing write, and finishes or waits exactly when that says so |
| `Relay.Forward` | crates/agent/src/stream.rs:220-371 | after any schedule the stream holds the transcript up to the first failing write; the relay finishes and half-closes if and only if the schedule ended in order, every frame but perhaps the notice of a cancellation was written, and closing worked |
| `Relay.HandleStream` | crates/agent/src/stream.rs:100-218 | an unsafe path is answered with one 400 and an orderly close, an invalid method with one 400 and an error, everything else is relayed |
| `Relay.BodyTranscriptIsFaithful` | crates/agent/src/stream.rs:316-350 | the frames of the body loop are in protocol, carry the consumed bytes, and end as the schedule did |
| `Relay.TranscriptIsFaithful` | crates/agent/src/stream.rs:220-371 | every transcript is one Error, or Head, bounded Bodies and one End or 499; bytes, frame counts and the meaning of `ok` are exact |
| `Relay.ReceivedIsFaithful` | crates/agent/src/stream.rs:220-371 | with write failures, what arrived is in protocol and a prefix of the bytes, and End(ok) arrives only behind the whole body |
| `Relay.FramesTellEvents` | crates/agent/src/stream.rs:100-371 | the head frame comes first with the status and headers of the answer; 400 is sent if and only if the request was not relayed, 502 if and only if no answer came, 499 if and only if the client had gone; the end frame tells how the body ended |
| `MetricsText.PushScalar` | crates/gateway/src/metrics/render.rs:196-200 | appends exactly the lines of the family |
| `MetricsText.PushStatusFamily` | crates/gateway/src/metrics/render.rs:203-215 | appends the header, also for an empty table, and one line per code in numeric order |
| `MetricsText.PushLabeledFamily` | crates/gateway/src/metrics/render.rs:218-235 | appends nothing for an empty table, else the header and one line per label in order |
| `MetricsText.EntriesAscend` | crates/gateway/src/metrics/render.rs:203-235 | status codes ascend as numbers, labels by their first differing character |
| `MetricsText.RenderFamilies` | crates/gateway/src/metrics/render.rs:24-184 | the page is the lines of all families in order |
| `MetricsPage.Render` | crates/gateway/src/metrics/render.rs:24-184 | the page of the gateway's 21 families |
| `MetricsReader.ReadInto` | web/src/api/metrics.ts:20-25 | one line is trimmed, skipped or matched |
| `MetricsReader.ParseLoop` | web/src/api/metrics.ts:18-48 | the samples of all lines, in order |
| `MetricsReader.ParseMetrics` | web/src/api/metrics.ts:50-90 | the snapshot: the last value per status code and the first sample of each gauge, 0 if absent |
| `MetricsReader.LineIsReadIff` | web/src/api/metrics.ts:29-48 | a line is read if and only if it matches the pattern name, labels in braces, white space, number, and gives what the pattern captures |
| `MetricsReader.LabelIsTrimmed` | web/src/api/metrics.ts:35-46 | white space around the key and the value of a label does not count |
| `MetricsReader.MetricsHaveSample` | web/src/api/metrics.ts:55-67 | a text that looks like metrics has a line that is a sample |
| `MetricsReader.SampleMakesMetrics` | web/src/api/metrics.ts:55-67 | one such line makes a text look like metrics |
| `MetricsReader.NoMetricsLooksIdle` | web/src/api/metrics.ts:55-90 | any other text gives the all-zero snapshot of an idle gateway |
| `MetricsRoundTrip.ReadScalar` | web/src/api/metrics.ts:29-48 | an unlabelled line gives its sample back |
| `MetricsRoundTrip.EntryReadsBackIff` | web/src/api/metrics.ts:29-48 | a labelled line gives its sample back if and only if the label value holds no comma, no closing brace and no escape, and the label is not `__proto__` |
| `MetricsRoundTrip.FamilyReadsBack` | crates/gateway/src/metrics/render.rs:188-235 | the lines of a readable family are read as exactly its samples |
| `MetricsRoundTrip.PageReadsBack` | web/src/api/metrics.ts:18-48 | `parsePrometheus` of a printed page is exactly its sample list in order |
| `MetricsPage.StatusIsRecovered` | web/src/api/metrics.ts:73-78 | the status map of the printed status family is the table it was printed from |
| `MetricsPage.FirstIsScalar` | web/src/api/metrics.ts:50-53 | a scalar whose name no earlier family has is found with its value |
| `MetricsPage.SnapshotIsRecovered` | web/src/api/metrics.ts:70-90 | `parseMetrics` of the gateway's page recovers the status table and the six gauges and counters it shows |
| `MetricsLookup.GaugesAreRead` | crates/gateway/src/metrics/render.rs:35-52 | under the names of in-flight requests and agents a reader finds their values, each once |
| `MetricsLookup.TotalsAreRead` | crates/gateway/src/metrics/render.rs:112-133 | the same for bytes, total duration and request count |
| `MetricsLookup.RequestCountersAreRead` | crates/gateway/src/metrics/render.rs:134-151 | the same for aborted requests and key verification hits and misses |
| `MetricsLookup.ConnectionCountersAreRead` | crates/gateway/src/metrics/render.rs:152-182 | the same for QUIC connections, the accepting flag, accept errors and agent connections |
| `MetricsLookup.RequestTablesAreRead` | crates/gateway/src/metrics/render.rs:53-85 | under the names of retries, rejections, forward ends and client stalls a reader finds the whole table, each label once |
| `MetricsLookup.TunnelTablesAreRead` | crates/gateway/src/metrics/render.rs:86-111 | the same for head timeouts, open timeouts and write failures |
| `MetricsLookup.PageLooksLikePrometheus` | web/src/api/metrics.ts:55-67 | every page of the gateway is taken for metrics |
| `MetricsLookup.GaugesAreDeclared` | crates/gateway/src/metrics/render.rs:35-52 | the three gauges of requests and agents are declared as gauges |
| `MetricsLookup.ConnectionGaugesAreDeclared` | crates/gateway/src/metrics/render.rs:152-167 | so are the two of the tunnel entry |
| `MetricsLookup.TotalsAreDeclared` | crates/gateway/src/metrics/render.rs:112-133 | the three sums are declared as counters |
| `MetricsLookup.RequestCountersAreDeclared` | crates/gateway/src/metrics/render.rs:134-151 | so are aborted requests and key verifications |
| `MetricsLookup.ConnectionCountersAreDeclared` | crates/gateway/src/metrics/render.rs:168-182 | so are accept errors and agent connections |
| `RequestId.IdSource.Next` | crates/gateway/src/request_id.rs:28-30 | hands out the counter and moves it on, wrapping |
| `RequestId.IdSource.Tunnel` | crates/gateway/src/request_id.rs:40-50 | takes over a well-formed inbound id, else draws a fresh one |
| `RequestId.IdSource.Handle` | crates/gateway/src/http/observability.rs:99-108 | middleware and proxy derive the same id and draw at most one number |
| `RequestId.FormatRoundTrips` | crates/gateway/src/request_id.rs:35-54 | every 64-bit id survives being written and parsed |
| `RequestId.TakenOverIff` | crates/gateway/src/request_id.rs:35-50 | a header is taken over as an id if and only if it is `req-` and a spelling of that 64-bit number, with or without a plus sign and leading zeros; every other header, without the prefix among them, draws a fresh one |
| `RequestId.LayersAgree` | crates/gateway/src/http/observability.rs:99-108 | re-deriving the id from the rewritten header gives the same id and draws nothing |
| `RequestId.DrawnCountUp` | crates/gateway/src/request_id.rs:28-45 | the i-th fresh id of any run is start + i modulo 2^64 |
| `RequestId.FreshIdsIncrease` | crates/gateway/src/request_id.rs:25-30 | fresh ids of a run are strictly increasing if and only if the counter does not wrap within it |
| `Stall.WriteStall.PollWithStall` | crates/gateway/src/io_stall.rs:51-77 | refines the step function of the timer |
| `Stall.ArmedSinceStuck` | crates/gateway/src/io_stall.rs:51-77 | the timer is armed exactly while the client is stuck and runs from the first stuck poll |
| `Stall.TimesOutIffStuck` | crates/gateway/src/io_stall.rs:51-77 | a poll times out if and only if it and all polls since progress or the last timeout are pending and span at least the stall time, is ready if and only if the inner writer is, and else pending |
| `Stall.ReadBodyWithStall` | crates/gateway/src/body.rs:42-66 | everything before the deciding arrival flowed, and the result is what that arrival makes of it |
| `Stall.OneVerdict` | crates/gateway/src/body.rs:42-66 | only one arrival can decide |
| `Stall.SteadyUploadIsComplete` | crates/gateway/src/body.rs:42-66 | a schedule whose gaps are all under the stall time and whose data fits is read in full, whatever the total time |
| `Stall.StalledIffNothingFlows` | crates/gateway/src/body.rs:42-66 | a stall is reported if and only if the next arrival after flowing ones is late or never comes |
| `Stall.OtherResultsIff` | crates/gateway/src/body.rs:42-66 | the body is returned if and only if its end follows a flow in order, too large if and only if data in time takes such a flow over the limit, failed if and only if an error in time follows it |
| `Entry.BackoffDoubles` | crates/gateway/src/http/entry.rs:51-54 | for every n >= 1 the backoff is min(50 * 2^(n-1), 1000) ms despite the clamped shift |
| `Entry.BackoffNeverShrinks` | crates/gateway/src/http/entry.rs:51-54 | the backoff is monotone and between 50 and 1000 ms |
| `Entry.PermitsAreConserved` | crates/gateway/src/http/entry.rs:115-261 | free permits + live connections + the permit in hand = the limit, in every run |
| `Entry.StopsOnlyOnShutdown` | crates/gateway/src/http/entry.rs:142-261 | the loop has ended if and only if one of its waits noticed a shutdown signalled before |
| `Entry.ShutdownIsPrompt` | crates/gateway/src/http/entry.rs:127-261 | in whatever wait the loop is, a signalled shutdown can be noticed at once, for good, and no permit is lost |
| `Entry.LiveIffAccepted` | crates/gateway/src/http/entry.rs:115-261 | a connection is live and holds a permit if and only if the loop accepted it and it has not ended since |
| `Entry.NextIsAccepted` | crates/gateway/src/http/entry.rs:142-261 | while the loop has not ended and the limit is not reached, the next connection can be accepted, after any number of accept errors |
| `Entry.AcceptErrorsAreCounted` | crates/gateway/src/http/entry.rs:142-261 | the counter on the metrics page counts every accept error |
| `Entry.FailuresAreTheStreak` | crates/gateway/src/http/entry.rs:142-261 | the failure count is the saturated number of accept errors since the last connection |
| `Entry.PauseFollowsStreak` | crates/gateway/src/http/entry.rs:142-261 | the pause after the n-th error in a row is min(50 * 2^(n-1), 1000) ms, also beyond 32 bits |

## Left out

- The admission gate, the tenant slots and the accept loop are state machines on values, not heap objects: their atomics are shared between tasks, and each atomic access is a step. Memory orderings are not modelled; each atomic is sequentially consistent.
- The counters that only grow (requests, statuses, aborts, accept errors) are unbounded; their wrap-around at 2^64 is not modelled.
- The total `active` gauge has no bound of its own: it is raised after and lowered after the domain counter.
- f64 is `real` in the rate limiters, without rounding; timers are exact and the clock does not run backwards.
- Rust's integer parser, JavaScript's `Number` and its regular expression engine are modelled on what these formats use; a numeral that is not a whole number below 2^53 is kept as text.
- RateLimiter.KeyLimiter.TryAcquire: takes the time as a parameter and exists only for a positive limit, since the source builds no limiter for 0.
- RateLimiter.SweepIsInvisible: compares the answers to acquires; the boolean that an eviction returns may differ once a sweep has dropped the bucket.
- LoginLimiter.UserBound: like the other results of that module, for logins one at a time; `LoginOverlap` has those for overlapping logins.
- LoginOverlap.RoomIsExact: for one user the room is shown to be reached only if the global window leaves room for all of it.
- PkiAgreement.StoresAgree: runs have no failing operation; what holds with failures is stated by the other results. Agreement counts a record that has expired but is not revoked as one to be served.
- Pki.PkiService.CreatePair: the file store holds the pairs that can be loaded, so files written or removed in part count as absent.
- Pki.PkiService.LoadActivePairs: takes the records in any order, where the source sorts them by creation time.
- MetricsRoundTrip.PageReadsBack: needs metric and label names of the reader's alphabet, faithful label values and help texts without line breaks; the help texts themselves are a parameter.
- Calls into the PKI service run one at a time; certificates are opaque but for fingerprint and issuer, and X.509 validity checks, PEM parsing, file permissions and tar bundles are not modelled.
- Header filtering on both sides of the relay, request bodies, and the bytes of a frame whose write failed halfway.
- The QUIC, TLS, HTTP and async runtimes; the registry, routing, retries and storage engine.
- Role checks, configuration, file limits, agent backoff and gate, shutdown, usage metering and the dashboard's pages: mostly single-branch facts.
