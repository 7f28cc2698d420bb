# JustGate gateway: a Dafny model

This project models the stateful core of the JustGate backend: the components whose
answers depend on what happened before. Each component is a module. Its operations are
given twice: as functions on values, about which the run-level theorems are proved, and as
classes and methods that work step by step like the Go (and one TypeScript) original and
are proved to have exactly the effect of those functions.

| module | what it models |
|---|---|
| `RateLimiter` | token buckets per key: lazy refill, cap, idle cleanup |
| `CircuitBreaker` | breakers with a manual lock, a lock gap in `AllowRequest`, asynchronous snapshots, crash and reload |
| `TenantStore`, `SqlStore` | tenants, routes and tokens as tables; renames, cascades, organisation-scoped joins |
| `Provisioning` | interleaved grant redemption: read, conditional increment, token, issuance record |
| `Traffic`, `Dashboard` | traffic rows with a truncating running average, the heatmap, the 288-slot time series |
| `Broadcaster` | the live audit feed as interleaved lock steps |
| `Migrations` | the migration runner as a crash-and-resume protocol |
| `AuditLog` | insert-and-trim of the audit table |
| `Upstreams` | health-filtered weighted choice of an upstream |
| `ConfigImport` | payload normalisation and the two-phase configuration import |
| `UrlPaths` | path segments: dot segments removed by a client, paths cleaned by the mux |
| `Paths` | proxy slug resolution, joined upstream paths |
| `AppProxy` | application paths, rewritten redirects and where a client that follows them arrives |
| `Options`, `Tables`, `Text` | shared result types, table operations, Go's string functions |

Time, generated IDs, random secrets and the success of a database call are parameters. In
the state machines every store call, and every critical section, is one step; steps of
different callers interleave freely. Tokens in a bucket are reals.

Where the code and its own text disagree, the model follows the code:

- `rate_limiter.go` line 54 says that the bucket key includes the rate and burst; line 55
  uses the bare key, so a bucket keeps the parameters of its first call. The bounds are
  stated in terms of those. `cleanup` exists but nothing in the package calls it.
- `circuit_breaker.go` line 18 declares a limit of one half-open trial that nothing uses:
  a half-open breaker admits everything. `RecordFailure` ignores the lock and counts
  failures since the last reset, not consecutive ones.
- `AllowRequest` reads without the lock that it writes under. A request of the same route
  in that gap, and besides `ForceState` nothing else while the process lives, undoes a
  manual lock (`CircuitBreaker.FirmIff`) and the thirty seconds after an opening
  (`CircuitBreaker.OpeningQuarantinesIff`).
- The import accepts a route none of whose methods is allowed and stores it with no method,
  which the create handler refuses (`ConfigImport.NoMethodIff` gives the exact condition).
- The create handler refuses slugs with more than one slash; the import does not, and such
  a route is stored but never resolved (`Paths.RouteReachableIff`).
- `joinURLPath` drops trailing slashes, and parts made of several slashes do not flatten
  (`Paths.FlattensIff`, `Paths.RootJoinIff`).
- A rewritten `Location` loses its fragment, and the slug is inserted without escaping. A
  relative reference is read from the upstream's root instead of resolved against the
  path answered, as section 10.2.2 of RFC 9110 has it (`AppProxy.RelativeIsMisread`);
  one that climbs with `..` leaves the application (`AppProxy.ClimbingLeaves`); one that
  names another host without a scheme loses that host (`AppProxy.ForeignHostIsDropped`).
- The statements of a tenant rename are not one transaction, and repeating a rename that
  stopped between them does not finish it (`SqlStore.RenameResumesIff`).

## Model

| member | source | states |
|---|---|---|
| RateLimiter.BucketAt | services/backend/internal/service/rate_limiter.go:57-74 | in every run a bucket exists for exactly the keys that made a limited call, holds between 0 and its capacity, keeps the rate and burst of its first call and carries the latest time seen on its key |
| RateLimiter.EffectiveBurstIff | services/backend/internal/service/rate_limiter.go:45-47 | the burst is the one asked for if positive, else the integer c >= 1 with rpm < 10 * (c + 1), and 10 * c <= rpm unless c is 1 |
| RateLimiter.AllowMeans | services/backend/internal/service/rate_limiter.go:57-81 | one limited call in numbers: the level before it, whether it is admitted, the level after it and what stays |
| RateLimiter.BurstAtOnce | services/backend/internal/service/rate_limiter.go:57-81 | calls on a new key at one instant are admitted exactly while fewer than the first call's burst have been |
| RateLimiter.AdmittedIffEveryWindowHasRoom | services/backend/internal/service/rate_limiter.go:41-81 | exactness: a call is admitted if and only if every window from an earlier call on its key to now has room for one more under c + elapsed * rpm / 60, where rpm and the burst c (a tenth of rpm, at least 1, when none is given) are those of the key's first call |
| RateLimiter.WindowBound | services/backend/internal/service/rate_limiter.go:41-81 | calls admitted from call i through call j are at most c + elapsed * rpm / 60 with the first call's own rpm and burst, on a clock that may step back |
| RateLimiter.MonotoneWindowBound | services/backend/internal/service/rate_limiter.go:41-81 | the same bound in wall-clock time when the clock never steps back |
| RateLimiter.SpentSince | services/backend/internal/service/rate_limiter.go:69-80 | tokens left plus calls admitted since any call never exceed what the bucket then held plus refill |
| RateLimiter.FullAtSomeCall | services/backend/internal/service/rate_limiter.go:69-80 | at each call the bucket equals capacity + refill - admissions since some earlier call at which it was full |
| RateLimiter.CleanupInvisible | services/backend/internal/service/rate_limiter.go:84-94 | cleanup calls anywhere in a run change no answer, for fixed parameters per key, burst at most 10 * rpm and a monotone clock |
| RateLimiter.InvisibleIff | services/backend/internal/service/rate_limiter.go:84-94 | the condition burst <= 10 * rpm is exact: beyond it some run is answered differently |
| RateLimiter.CleanedWindowBound | services/backend/internal/service/rate_limiter.go:41-94 | the wall-clock window bound for runs with cleanup, whenever cleanup is invisible |
| RateLimiter.CleanupMeans | services/backend/internal/service/rate_limiter.go:84-94 | a sweep removes a bucket exactly when it was last used over 600 seconds before, and changes no other |
| RateLimiter.IdleIsNew | services/backend/internal/service/rate_limiter.go:57-74 | a bucket idle for over ten minutes behaves like a new one |
| RateLimiter.TokenBucket.Draw | services/backend/internal/service/rate_limiter.go:69-80 | refill and take on the bucket's fields equal the value functions of the theorems |
| RateLimiter.MemoryRateLimiter.Allow | services/backend/internal/service/rate_limiter.go:41-81 | the answer and the whole bucket map after a call are those of the run model, and the bucket left holds what `RateLimiter.AllowMeans` says; other keys are untouched |
| RateLimiter.MemoryRateLimiter.Cleanup | services/backend/internal/service/rate_limiter.go:84-94 | the deleting loop removes exactly the buckets idle for over ten minutes |
| CircuitBreaker.ReportAgreesWithAdmission | services/backend/internal/service/circuit_breaker.go:50-77 | a request is refused exactly when GetState reports open, and AllowRequest leaves the state reported |
| CircuitBreaker.AllowMeans | services/backend/internal/service/circuit_breaker.go:50-69 | field by field: what is admitted, and the move to half-open exactly for an open, unlocked breaker opened over thirty seconds before |
| CircuitBreaker.SuccessMeans | services/backend/internal/service/circuit_breaker.go:80-98 | field by field: an unlocked half-open breaker closes with count 0; in every other state, and when locked, only the time of the last success changes |
| CircuitBreaker.FailureMeans | services/backend/internal/service/circuit_breaker.go:101-128 | field by field: the count grows by one; a half-open breaker opens, and so does one whose count reaches five |
| CircuitBreaker.ForceMeans | services/backend/internal/service/circuit_breaker.go:161-201 | field by field for each of the three states, the lock included |
| CircuitBreaker.TrialDecides | services/backend/internal/service/circuit_breaker.go:80-128 | in every run of a process, split requests included, an unlocked half-open breaker with no request of its route in the gap stays so until it is answered; the success then closes it with count 0, so that it opens at its fifth failure after that, and the failure opens it at once |
| CircuitBreaker.Recovers | services/backend/internal/service/circuit_breaker.go:50-128 | an open, unlocked breaker past its thirty seconds admits; its success meets the premise of the fifth-failure theorem with count 0, its failure reopens |
| CircuitBreaker.SoundAlways | services/backend/internal/service/circuit_breaker.go:50-128 | every reachable breaker, stored, pending or in memory: closed implies fewer than five failures and not locked, even across the lock gap, crashes and stale reloads; with AllowRequest atomic, locked implies open |
| CircuitBreaker.GapLosesLock | services/backend/internal/service/circuit_breaker.go:50-69 | a failing run: an operator's lock between the unlocked read and the write ends locked but half-open and admits for ever |
| CircuitBreaker.FirmIff | services/backend/internal/service/circuit_breaker.go:50-69 | the exact form: a lock in memory survives every run of the process without another ForceState of the route, split AllowRequest included, if and only if no request of that route is between its read and its write |
| CircuitBreaker.ForcedLockIsDurable | services/backend/internal/service/circuit_breaker.go:161-245 | if at ForceState(open) no unlocked snapshot of the route is pending and no request of it is in the gap, the lock holds while the forced write interleaves with anything and is durable once it lands |
| CircuitBreaker.ForcedLockIsDurableIff | services/backend/internal/service/circuit_breaker.go:161-245 | those two conditions before the force decide whether every way to settle it ends in a durable lock |
| CircuitBreaker.DurableIff | services/backend/internal/service/circuit_breaker.go:50-69 | a stored lock survives every split run with crashes and successful reloads if and only if no unlocked snapshot of the route is on its way and no request of it is in the gap |
| CircuitBreaker.HeldThroughoutIff | services/backend/internal/service/circuit_breaker.go:223-245 | such a lock holds at every point of a run if and only if no reload at a restart fails |
| CircuitBreaker.OpeningQuarantinesIff | services/backend/internal/service/circuit_breaker.go:50-128 | the failure that opens a breaker stops all admissions for 30 seconds, in every run of the process without ForceState of the route, if and only if no request of the route is in the gap then |
| CircuitBreaker.GapBreaksQuarantine | services/backend/internal/service/circuit_breaker.go:50-69 | a failing run: two requests in the gap reopen the breaker and make it admit at the very instant it opened |
| CircuitBreaker.QuarantineIff | services/backend/internal/service/circuit_breaker.go:50-77 | the same exact form for any breaker that is open and locked or opened in time, on a clock in any order |
| CircuitBreaker.QuarantineAcrossRestartsIff | services/backend/internal/service/circuit_breaker.go:50-245 | with restarts whose reloads succeed it holds if and only if, besides, the stored row and every pending snapshot of the route are shut |
| CircuitBreaker.QuarantineThroughoutIff | services/backend/internal/service/circuit_breaker.go:223-245 | then it holds at every point of a run if and only if no reload fails |
| CircuitBreaker.QuarantineHolds | services/backend/internal/service/circuit_breaker.go:50-77 | request by request: in a quarantined window each one that asks is refused and none in the gap writes |
| CircuitBreaker.ClosedBelowThreshold | services/backend/internal/service/circuit_breaker.go:80-128 | with no request of the route in the gap, below five failures since a reset the breaker stays closed and counts exactly the failures, whatever successes, other routes' forces and count-keeping restarts lie between |
| CircuitBreaker.OpensAtFifthFailure | services/backend/internal/service/circuit_breaker.go:101-128 | with n failures counted it then stays closed throughout if and only if fewer than 5 - n follow, and that failure opens it at its own time, if every restart that finds it closed keeps the count |
| CircuitBreaker.OpensAtFifthFailureIff | services/backend/internal/service/circuit_breaker.go:50-128 | every run of the process behaves so if and only if no request of the route is in the gap at the reset |
| CircuitBreaker.RestartForgets | services/backend/internal/service/circuit_breaker.go:223-245 | a failing run: after four failures a restart without a row and one more failure leave the breaker closed |
| CircuitBreaker.RestartKeepsCountIff | services/backend/internal/service/circuit_breaker.go:223-245 | the exact form: every run of the new process opens after what was left of the five failures if and only if the reload found a closed row with the count of memory, or found none and there was nothing to forget |
| CircuitBreaker.ForceSettled | services/backend/internal/service/circuit_breaker.go:161-201 | a force followed at once by its own write changes memory and, if the write succeeds, the store, and leaves no pending write |
| CircuitBreaker.CircuitBreakerState.Succeed | services/backend/internal/service/circuit_breaker.go:89-95 | a half-open, unlocked breaker closes with count 0, and nothing but the time of the success changes otherwise |
| CircuitBreaker.CircuitBreakerState.Fail | services/backend/internal/service/circuit_breaker.go:114-125 | the field updates of a failure |
| CircuitBreaker.CircuitBreakerState.Override | services/backend/internal/service/circuit_breaker.go:171-183 | the field updates of a forced state |
| CircuitBreaker.CircuitBreakerManager.AllowRequest | services/backend/internal/service/circuit_breaker.go:50-77 | run without interruption it is the Allow step, and answers true for an unknown route |
| CircuitBreaker.CircuitBreakerManager.RecordSuccess | services/backend/internal/service/circuit_breaker.go:80-98 | it is the Success step: one breaker changes, in the fields `CircuitBreaker.SuccessMeans` names, and one snapshot becomes pending |
| CircuitBreaker.CircuitBreakerManager.RecordFailure | services/backend/internal/service/circuit_breaker.go:101-128 | it is the Failure step, creating the breaker when absent |
| CircuitBreaker.CircuitBreakerManager.GetLocked | services/backend/internal/service/circuit_breaker.go:131-139 | the lock flag, false for an unknown route |
| CircuitBreaker.CircuitBreakerManager.GetState | services/backend/internal/service/circuit_breaker.go:142-156 | the reported state, closed for an unknown route |
| CircuitBreaker.CircuitBreakerManager.ForceState | services/backend/internal/service/circuit_breaker.go:161-201 | memory always changes, the store only when the write succeeds, nothing else does |
| CircuitBreaker.CircuitBreakerManager.LoadFromStore | services/backend/internal/service/circuit_breaker.go:223-245 | stored breakers replace those in memory, others stay; a failed list changes nothing |
| TenantStore.RunConsistent | services/backend/internal/service/sql_store.go:197-455 | every run of tenant, route, token and organisation operations keeps IDs, tenantIDs, slugs and hashes unique and every route and token on an existing tenant |
| TenantStore.CreateTenantConsistent | services/backend/internal/service/sql_store.go:197-214 | creating a tenant keeps the invariant, refused duplicates included |
| TenantStore.UpdateTenantConsistent | services/backend/internal/service/sql_store.go:216-252 | a rename with its cascade keeps the invariant |
| TenantStore.DeleteTenantConsistent | services/backend/internal/service/sql_store.go:254-292 | the two reference checks are enough to delete a tenant safely |
| TenantStore.CreateRouteConsistent | services/backend/internal/service/sql_store.go:294-329 | the tenant check and the unique slug keep the invariant |
| TenantStore.UpdateRouteConsistent | services/backend/internal/service/sql_store.go:331-371 | moving a route to another tenant or slug keeps the invariant |
| TenantStore.CreateTokenConsistent | services/backend/internal/service/sql_store.go:389-422 | the tenant check and the unique hash keep the invariant |
| TenantStore.DeleteOrgConsistent | services/backend/internal/service/sql_store.go:1021-1073 | an organisation takes all routes and tokens of its tenants along, so no reference dangles |
| TenantStore.CreateTenantMeans | services/backend/internal/service/sql_store.go:197-214 | refused exactly when the ID or tenantID is taken; otherwise one row with the caller's organisation is appended |
| TenantStore.UpdateTenantMeans | services/backend/internal/service/sql_store.go:216-252 | refused exactly for an unknown ID or a tenantID that another tenant has; otherwise the row, its routes and its tokens change, and position by position nothing else |
| TenantStore.DeleteTenantMeans | services/backend/internal/service/sql_store.go:254-292 | the three refusals in order, each by its rows; otherwise exactly this tenant goes |
| TenantStore.CreateRouteMeans | services/backend/internal/service/sql_store.go:294-329 | the two refusals in order, each by its rows; otherwise exactly this route is appended |
| TenantStore.UpdateRouteMeans | services/backend/internal/service/sql_store.go:331-371 | the three refusals in order, each by its rows; otherwise exactly the row with this ID is replaced |
| TenantStore.CreateTokenMeans | services/backend/internal/service/sql_store.go:389-422 | the refusals by their rows; otherwise the token is appended, active |
| TenantStore.ByIdMeans | services/backend/internal/service/sql_store.go:373-455 | deleting a route or a token, or setting a token's flag, changes exactly the row with that ID, and is refused when there is none |
| TenantStore.DeleteOrgMeans | services/backend/internal/service/sql_store.go:1021-1073 | a tenant, route or token survives exactly when it was there and does not belong to the organisation |
| TenantStore.RenamePreservesAccess | services/backend/internal/service/service.go:2291-2303 | across UpdateTenant every token may use every route exactly when it might before |
| TenantStore.GrantedIff | services/backend/internal/service/service.go:2281-2303 | a secret is admitted as a token exactly when that token is stored under its hash, active and not expired, of the route's tenant, and has the required scope if there is one |
| TenantStore.SwitchedOffStaysOut | services/backend/internal/service/sql_store.go:424-455 | a token switched off gets no access to any route in any run of operations that neither switches it on nor creates one with its hash |
| TenantStore.RenameKeepsAnswers | services/backend/internal/service/sql_store.go:216-252 | across UpdateTenant the whole check, from the secret, answers as before for every route and time |
| TenantStore.RenameSeparates | services/backend/internal/service/sql_store.go:216-252 | after UpdateTenant a token and a route name the same tenant exactly when they did before |
| TenantStore.JoinIsExact | services/backend/internal/service/sql_store.go:125-171 | the inner join on tenant_id yields each row of the organisation's tenants as often as the table has it, and no other |
| TenantStore.RouteListsPartition | services/backend/internal/service/sql_store.go:125-147 | each route is once in the unscoped list, at most in one organisation's, and exactly once in that of the tenant it names when that has an organisation |
| TenantStore.TokenListsPartition | services/backend/internal/service/sql_store.go:149-171 | the same for tokens |
| SqlStore.Store.CreateTenant | services/backend/internal/service/sql_store.go:197-214 | result and tables after the method are those of the one-step operation |
| SqlStore.Store.UpdateTenant | services/backend/internal/service/sql_store.go:216-252 | the row update followed by the two cascades is the one-step rename |
| SqlStore.Store.DeleteTenant | services/backend/internal/service/sql_store.go:254-292 | refusals in order: unknown, has routes, has tokens |
| SqlStore.Store.CreateRoute | services/backend/internal/service/sql_store.go:294-329 | refusals in order: unknown tenant, taken slug |
| SqlStore.Store.UpdateRoute | services/backend/internal/service/sql_store.go:331-371 | refusals in order: unknown tenant, unknown route, taken slug |
| SqlStore.Store.CreateToken | services/backend/internal/service/sql_store.go:389-422 | a token is stored active, under an existing tenant |
| SqlStore.Store.DeleteRoute | services/backend/internal/service/sql_store.go:373-387 | exactly the route with this ID goes, or not found |
| SqlStore.Store.SetTokenActive | services/backend/internal/service/sql_store.go:424-439 | only the flag of the token with this ID changes |
| SqlStore.Store.DeleteToken | services/backend/internal/service/sql_store.go:441-455 | exactly the token with this ID goes, or not found |
| SqlStore.Store.CheckAccess | services/backend/internal/service/service.go:2281-2303 | the lookup and the checks in the handler's order, each refusal by its cause |
| SqlStore.RenameGapIff | services/backend/internal/service/sql_store.go:225-243 | between the statements of a rename the tables are consistent exactly when the tenantID stays or nothing that still has to move names it |
| SqlStore.RenameResumesIff | services/backend/internal/service/sql_store.go:217-243 | repeating a rename that stopped between its statements changes nothing, and finishes it exactly when nothing was left to move |
| SqlStore.RenameGapAccess | services/backend/internal/service/service.go:2291-2303 | between the statements no token may use a route that it could not before; after the routes exactly the renamed tenant's tokens are shut out |
| SqlStore.DeleteOrgResumes | services/backend/internal/service/sql_store.go:1042-1055 | an organisation's deletion stopped anywhere in its loop leaves the tables consistent, and repeating it gives the result of an uninterrupted one |
| SqlStore.LeftIsFilter | services/backend/internal/service/sql_store.go:1042-1052 | deleting tenant by tenant leaves the rows that one NOT IN over all the tenants would |
| SqlStore.Store.DeleteTenantRows | services/backend/internal/service/sql_store.go:1042-1052 | the loop deletes exactly the routes and tokens of the listed tenants |
| SqlStore.Store.DeleteOrg | services/backend/internal/service/sql_store.go:1021-1073 | the loop and the final deletes together remove exactly what belongs to the organisation |
| Provisioning.GrantLimitHolds | services/backend/internal/service/service.go:3246-3303 | over all interleavings with grants created and deleted: tokens issued <= increments <= limit, increments = issued + failed + in flight, counters exact, records name issued tokens |
| Provisioning.InvariantRun | services/backend/internal/service/service.go:3246-3303 | the joint invariant survives every run from every state that satisfies it |
| Provisioning.CountsIff | services/backend/internal/service/service.go:3246-3273 | in every run an increment succeeds exactly when its grant is there, active, not expired at that moment, and has been counted less often than the limit it was created with, which is 10 when none was asked for |
| Provisioning.IndexedStep | services/backend/internal/service/migrations.go:390 | every step keeps the hash index naming exactly the grants that exist, so one hash leads to at most one grant |
| Provisioning.ProvisioningStore.ReadGrant | services/backend/internal/service/service.go:3246-3261 | found exactly when the hash leads to a grant that is active and expires later than now |
| Provisioning.ProvisioningStore.IncrementGrantUseCount | services/backend/internal/service/sql_store.go:2078-2091 | it counts exactly when the grant still exists, is active, expires later than now and is below the limit read; only its counter changes |
| Provisioning.ProvisioningStore.Redeem | services/backend/internal/service/service.go:3246-3273 | the part of a call that decides: a redeemable grant is counted, or there is none |
| Provisioning.ProvisioningStore.HandleProvision | services/backend/internal/service/service.go:3246-3303 | refused exactly when no grant of the hash is active, unexpired at both reads and below its limit, and then nothing changes; otherwise that grant is counted once, and one token is added and recorded unless issuing or recording fails; the call is a legal run of its steps |
| Traffic.CountsConserved | services/backend/internal/service/service.go:2463-2484 | for every landing order each row counts exactly the requests that `Traffic.KeyOfIff` gives it, by status class; errors = 4xx + 5xx; 2xx + errors <= requests |
| Traffic.KeyOfIff | services/backend/internal/service/service.go:2463-2473 | a request belongs to a key exactly when the bucket starts at a multiple of five minutes, the request lies in its five minutes, and route, tenant and token agree |
| Traffic.RowHoldsAverage | services/backend/internal/service/sql_store.go:1388-1391 | a row's average is that of its own key's latencies merged one by one |
| Traffic.AverageBounds | services/backend/internal/service/sql_store.go:1388-1391 | min <= average <= max and n * average <= S <= n * average + n(n-1)/2, for every order |
| Traffic.RowAverageBounds | services/backend/internal/service/sql_store.go:1381-1398 | those bounds for each row of the table, whatever other upserts land between |
| Traffic.BoundIsTight | services/backend/internal/service/sql_store.go:1391 | the error bound is attained for every n |
| Traffic.TrafficStore.UpsertTrafficStat | services/backend/internal/service/sql_store.go:1381-1398 | insert or merge of one row; all others unchanged |
| Traffic.TrafficStore.RecordTrafficStat | services/backend/internal/service/service.go:2463-2484 | recording a request takes the table of a request history to the table of the longer history, for every key |
| Traffic.TrafficStore.PurgeTrafficStats | services/backend/internal/service/sql_store.go:2284-2290 | exactly the rows older than the cut-off go, and are counted |
| Traffic.TrafficHeatmap | services/backend/internal/service/gateway_handlers.go:1003-1030 | cells are distinct, each sums its route and hour, every stat has a cell, and the cells sum to the total |
| Traffic.HourIff | services/backend/internal/service/gateway_handlers.go:1010-1013 | a bucket is in an hour exactly when its offset in its day lies in that hour |
| Traffic.CellList | services/backend/internal/service/gateway_handlers.go:1021-1028 | one output cell per map entry, in any iteration order |
| Dashboard.WindowIsSlots | services/frontend/components/admin/dashboard-charts.tsx:32-34 | the 288 slot times are exactly the aligned buckets of the window |
| Dashboard.InWindowIff | services/frontend/components/admin/dashboard-charts.tsx:32-34 | the window is the 24 hours of aligned buckets that end with the one holding now |
| Dashboard.PointMeans | services/frontend/components/admin/dashboard-charts.tsx:55-64 | a point has its slot's time, requests and errors, and the nearest integer to the mean of one latency per request |
| Dashboard.SeriesConserves | services/frontend/components/admin/dashboard-charts.tsx:26-67 | the points sum to the requests and errors of the stats in the window, each counted once |
| Dashboard.RoundIsNearest | services/frontend/components/admin/dashboard-charts.tsx:63 | the displayed latency is the nearest integer, halves up |
| Dashboard.MergeStats | services/frontend/components/admin/dashboard-charts.tsx:36-54 | the map holds each bucket's sums, and only buckets that occur |
| Dashboard.BuildTimeSeries | services/frontend/components/admin/dashboard-charts.tsx:28-67 | the counting loop yields the 288 points, oldest first, and conserves the window's totals |
| Broadcaster.NeverPanics | services/backend/internal/service/audit_broadcaster.go:24-57 | with one unsubscribe per channel, no interleaving sends on a closed channel or closes one twice |
| Broadcaster.PanicsIff | services/backend/internal/service/audit_broadcaster.go:24-57 | the exact form: however often callers unsubscribe, a run panics if and only if it closes some channel that is closed already |
| Broadcaster.SendsFindOpenChannels | services/backend/internal/service/audit_broadcaster.go:42-57 | however often callers unsubscribe, every send finds its channel open |
| Broadcaster.SecondUnsubscribePanics | services/backend/internal/service/audit_broadcaster.go:33-38 | from any unlocked state, unsubscribing one channel twice is such a run |
| Broadcaster.DeliversAlways | services/backend/internal/service/audit_broadcaster.go:42-57 | buffers hold at most 64, subscribers get accepted messages in send order, and each broadcast is tried exactly once per target |
| Broadcaster.FinishedBroadcastReaches | services/backend/internal/service/audit_broadcaster.go:42-57 | a finished broadcast is received or buffered by each target unless its one send found the buffer full |
| Broadcaster.BroadcastReaches | services/backend/internal/service/audit_broadcaster.go:42-57 | from the steps alone: a finished broadcast made one send to each channel subscribed when it began, and reached it if fewer than 64 messages were waiting there |
| Broadcaster.SubscribedIff | services/backend/internal/service/audit_broadcaster.go:24-38 | a channel is subscribed exactly when it was made and no step removed it |
| Broadcaster.AuditBroadcaster.Subscribe | services/backend/internal/service/audit_broadcaster.go:24-30 | a fresh empty channel joins the set |
| Broadcaster.AuditBroadcaster.Unsubscribe | services/backend/internal/service/audit_broadcaster.go:33-38 | the channel leaves the set and is closed with its buffer intact |
| Broadcaster.AuditBroadcaster.Broadcast | services/backend/internal/service/audit_broadcaster.go:42-57 | the send loop offers the message to each subscriber once |
| Migrations.AlwaysAPrefix | services/backend/internal/service/migrations.go:627-695 | after any history of failed, interrupted and completed runs, of older releases too, the database is the fold of a prefix with exactly that prefix recorded |
| Migrations.RunPrefix | services/backend/internal/service/migrations.go:627-695 | one run under any faults moves from a prefix to one at least as long, to the end if it completes |
| Migrations.CompletedRunIsCleanRun | services/backend/internal/service/migrations.go:627-695 | a completed run after any history leaves what one clean run would have, and further runs change nothing |
| Migrations.ConcurrentStartsKeepAPrefix | services/backend/internal/service/migrations.go:627-695 | any number of servers starting and failing at any time, each with its own list of applied versions, keep the database at a prefix; one that reaches its end finds all of its list there |
| Migrations.CleanRunFrom | services/backend/internal/service/migrations.go:653-692 | a fault-free run completes exactly when every migration applies in turn |
| Migrations.ExecuteIff | services/backend/internal/service/migrations.go:664-669 | statements execute to a schema exactly when a trace of schemas leads there, each by its own statement |
| Migrations.FailureStops | services/backend/internal/service/migrations.go:664-669 | a statement that fails on the schema its predecessors left makes the whole migration fail |
| Migrations.FoldIff | services/backend/internal/service/migrations.go:653-692 | the fold of the theorems is that trace through all statements of the prefix |
| Migrations.Database.ApplyMigration | services/backend/internal/service/migrations.go:658-692 | one transaction: the end of the trace through all statements with the version recorded, or, when a statement fails on what the previous ones left, schema and records as before and no success |
| Migrations.Database.RunMigrations | services/backend/internal/service/migrations.go:627-695 | the loop over the list is the run of the theorems, whose single migrations are traces |
| AuditLog.TopUnique | services/backend/internal/service/sql_store.go:511-516 | the largest k timestamps form one multiset however ties are broken |
| AuditLog.TopStep | services/backend/internal/service/sql_store.go:511-516 | keeping the k largest after each insert equals taking the k largest of everything |
| AuditLog.SelectionIsTop | services/backend/internal/service/sql_store.go:511-516 | the rows the delete spares carry the 2000 largest timestamps |
| AuditLog.InsertAndTrim | services/backend/internal/service/sql_store.go:502-517 | insert and trim keep the table the 2000 latest of all records |
| AuditLog.AlwaysCovers | services/backend/internal/service/sql_store.go:507-516 | with inserts and deletes of concurrent calls interleaved and deletes failing, the table holds at least min(n, 2000) rows with the 2000 latest among them, and is exact after each successful delete |
| AuditLog.TrimRestores | services/backend/internal/service/sql_store.go:511-516 | one successful delete restores the exact state however far the table had grown |
| AuditLog.Log.RecordAudit | services/backend/internal/service/sql_store.go:502-517 | the table refines the full log: size min(n, 2000) and the 2000 largest timestamps, for every arrival order; the insert fails exactly when the ID is in the table, and then changes nothing |
| Upstreams.UpstreamTable.Create | services/backend/internal/service/gateway_handlers.go:224-237 | a stored weight is always positive |
| Upstreams.UpstreamTable.Update | services/backend/internal/service/gateway_handlers.go:269-276 | an update keeps weights positive and touches the named row only |
| Upstreams.HealthStatus | services/backend/internal/service/service.go:2339-2346 | the map holds the last status recorded for each URL of this route |
| Upstreams.StatusIff | services/backend/internal/service/service.go:2339-2346 | an upstream's status is that of the latest record with its route and URL |
| Upstreams.DownIff | services/backend/internal/service/service.go:2355 | it counts as down exactly when that record says "down" |
| Upstreams.BuildPool | services/backend/internal/service/service.go:2348-2365 | the pool is the upstreams not known to be down, or the first one alone |
| Upstreams.ChoiceIff | services/backend/internal/service/service.go:2367-2374 | a residue chooses entry i exactly when it lies between its running totals |
| Upstreams.AlwaysChooses | services/backend/internal/service/service.go:2367-2374 | the loop selects an entry for every clock reading, negative ones included |
| Upstreams.ExactlyProportional | services/backend/internal/service/service.go:2366-2374 | of any total-weight consecutive clock readings each URL serves exactly as many as its weight |
| Upstreams.TrafficFollowsWeights | services/backend/internal/service/service.go:2337-2374 | while one upstream is up, each URL serves exactly its configured weight if up and nothing if down |
| Upstreams.DownOnlyWhenAllDown | services/backend/internal/service/service.go:2355-2365 | a down URL is chosen if and only if all upstreams are down |
| Upstreams.SelectUpstream | services/backend/internal/service/service.go:2337-2374 | the whole selection computes the chosen URL, or the route's own without upstreams |
| ConfigImport.DedupeNonEmpty | services/backend/internal/service/service.go:2772-2786 | the loop with its seen set computes the list of the next rows |
| ConfigImport.DedupeMeans | services/backend/internal/service/service.go:2772-2786 | the result holds exactly the trimmed non-blank items, each once |
| ConfigImport.DedupeExtends | services/backend/internal/service/service.go:2772-2786 | order is that of first occurrence: more input only appends |
| ConfigImport.DedupeTwice | services/backend/internal/service/service.go:2772-2786 | deduplication is idempotent |
| ConfigImport.NormalizeMethods | services/backend/internal/service/service.go:2788-2807 | the loop keeps the known methods and deduplicates them |
| ConfigImport.MethodsMean | services/backend/internal/service/service.go:2788-2807 | the result holds exactly the allowed methods that some item spells, once each, where spelling ignores letter case and surrounding space |
| ConfigImport.NoMethodIff | services/backend/internal/service/extra_handlers.go:382-386 | exactly when an imported route ends up without any method |
| ConfigImport.ImportedMethodsMean | services/backend/internal/service/service.go:2788-2807 | what an imported route answers to: GET when nothing is named, otherwise the seven methods named, in any case and spacing |
| ConfigImport.ItemsMean | services/backend/internal/service/service.go:2752-2770 | a list names its items, a text its comma-separated fields, anything else nothing |
| ConfigImport.NormalizeTenantAgainIff | services/backend/internal/service/service.go:1786-1803 | normalising twice is normalising once, exactly unless an untrimmed default header is used |
| ConfigImport.NormalizeTenantMeans | services/backend/internal/service/service.go:1786-1803 | field by field for trimmed text: refused without name or tenantID, defaults for blank header and mode, otherwise as submitted |
| ConfigImport.RefusedIff | services/backend/internal/service/extra_handlers.go:373-381 | an item is refused before the store exactly when a required field is blank |
| ConfigImport.NormalizeRouteAgain | services/backend/internal/service/extra_handlers.go:374-389 | a normalised route is trimmed, has an absolute target path, is otherwise unchanged and is a fixed point |
| ConfigImport.ImportedRows | services/backend/internal/service/extra_handlers.go:360-395 | every row an import adds is one normalised item of the body, in the caller's organisation |
| ConfigImport.TenantStepMeans | services/backend/internal/service/extra_handlers.go:361-372 | one tenant of the body: its row, or one error that names the item and the cause, and nothing else |
| ConfigImport.RouteStepMeans | services/backend/internal/service/extra_handlers.go:373-395 | the same for a route |
| ConfigImport.ImportAccounts | services/backend/internal/service/extra_handlers.go:360-395 | created + errors = items whatever fails, counters equal table growth, old rows stay, the database stays consistent |
| ConfigImport.ImportAchieves | services/backend/internal/service/extra_handlers.go:360-395 | the tenantIDs and slugs that exist afterwards, independent of item order |
| ConfigImport.ImportAgainChangesNothing | services/backend/internal/service/extra_handlers.go:360-395 | importing the same body again creates nothing and leaves the store as it is |
| ConfigImport.HandleImport | services/backend/internal/service/extra_handlers.go:347-399 | both loops on the store have the effect and counters of the import theorems |
| Paths.ResolveRoute | services/backend/internal/service/service.go:2185-2232 | the lookups in the handler's order compute the resolution |
| Paths.RouteBySlugMeans | services/backend/internal/service/sql_store.go:457-468 | a lookup finds a route that carries the slug asked for, and fails only if none does |
| Paths.LongestSlugWins | services/backend/internal/service/service.go:2196-2232 | slug + remaining path is what follows `/proxy/`, the route carries that slug, and no route has a longer one made of the first one or two segments; unknown only when none fits |
| Paths.RouteReachableIff | services/backend/internal/service/service.go:2196-2232 | a route answers at its own address, as a client and the mux deliver it, exactly when its slug has one or two segments, none a dot segment and the first not empty |
| UrlPaths.DotsBelow | services/backend/internal/service/app_proxy.go:249-262 | removing dot segments below a prefix keeps the prefix exactly as long as the segments do not climb |
| UrlPaths.MuxDotless | services/backend/internal/service/service.go:941-999 | on a path without dot segments the mux removes exactly doubled slashes |
| UrlPaths.ArrivesIs | services/backend/internal/service/service.go:941-999 | what a handler sees has no dot segment and no doubled slash, and no segment that was not sent |
| Paths.JoinURLPath | services/backend/internal/service/service.go:2707-2721 | the loop joins the kept trimmed parts |
| Paths.KeptMeans | services/backend/internal/service/service.go:2709-2716 | a part adds itself without the slashes around it, and an empty part or a lone slash adds nothing |
| Paths.JoinOfTwo | services/backend/internal/service/service.go:2707-2721 | base and path of an upstream are joined by one slash, however they are delimited |
| Paths.FlattensIff | services/backend/internal/service/service.go:2707-2721 | a nested join equals the flat one exactly when the kept ends are not bare slashes (or one bare part ends the path) |
| Paths.PlainFlattens | services/backend/internal/service/service.go:2707-2721 | hence it always does for parts that are empty, a slash, or hold something else |
| Paths.DoubleSlashIsLost | services/backend/internal/service/service.go:2707-2721 | a concrete nested join that differs |
| AppProxy.NoSlugIff | services/backend/internal/service/app_proxy.go:32-38 | the slug is missing exactly when nothing, or a slash, follows the prefix |
| AppProxy.AuthMeans | services/backend/internal/service/app_proxy.go:45-58 | an auth request's path is its slug, the auth prefix and its action |
| AppProxy.ForwardedMeans | services/backend/internal/service/app_proxy.go:32-58 | a forwarded request's path is its slug and its remaining path, which is no auth path |
| AppProxy.HandleAppIff | services/backend/internal/service/app_proxy.go:32-58 | the address built from slug and path splits back into them exactly for a one-segment slug outside the auth paths |
| AppProxy.RewrittenIs | services/backend/internal/service/app_proxy.go:249-262 | both forms of the rewriting put the application's prefix before the reference's path read from the root, keep the query and drop host and fragment |
| AppProxy.EqualFoldIff | services/backend/internal/service/app_proxy.go:254 | hosts are compared letter by letter up to ASCII case |
| AppProxy.ForeignHostIsDropped | services/backend/internal/service/app_proxy.go:258-260 | such a reference is redirected within the application as if it had no host |
| AppProxy.ClimbingLeaves | services/backend/internal/service/app_proxy.go:249-262 | a failing run: a followed `../other` arrives at the application `other`, though to the upstream it is a path of its own |
| AppProxy.RelativeIsMisread | services/backend/internal/service/app_proxy.go:258-260 | a failing run: a relative reference sent in answer to a path in a directory is forwarded as the root's |
| AppProxy.RedirectReentersIff | services/backend/internal/service/app_proxy.go:32-58 | the exact form, with references resolved against the path answered, dot segments removed by the client and paths cleaned by the mux: a redirect comes back to the same application at the upstream's own path, or is left alone when it points elsewhere, if and only if it names another host by a full URL, or names the upstream, has a one-segment slug that is no dot segment, is resolved by reading it from the root, never climbs above it, doubles no slash and is no auth path |
| Paths.RootJoinIff | services/backend/internal/service/service.go:2707-2721 | which paths an upstream at root receives unchanged |
| AppProxy.ReachesIff | services/backend/internal/service/app_proxy.go:197 | an upstream at root receives a path only from a request forwarded with it, and that without a trailing slash |
| AppProxy.RedirectReachesUpstreamIff | services/backend/internal/service/app_proxy.go:197-262 | the end-to-end form: a followed redirect is answered by the upstream at its own path exactly when, besides, that path has no trailing slash to lose |

## Left out

- HTTP, JSON, SSE, TLS, OIDC exchange, cookies and sessions: library and network plumbing.
- Cryptography: hashes, secrets and generated IDs are opaque values.
- SQL isolation: each store call is one atomic step in the runs. `UpdateTenant` and `DeleteOrg` are several statements without a transaction; what holds between them is proved for one call, not for interleavings with other writers.
- Memberships, invites and audit rows that `DeleteOrg` also deletes; `ConsumeOrgInvite`, whose limit depends on the isolation level.
- ORDER BY clauses: lists are in table order, and the weighted choice holds for any order.
- Migration statements: each is an abstract partial function on the schema; a statement outside the transaction's control is not part of this model.
- AuditLog.Log.RecordAudit: which of several rows with equal timestamps the subquery keeps is a parameter, and organisation deletion, which removes audit rows, is excluded; the failure of the trimming statement is shown by `AuditLog.AlwaysCovers`, not by the method.
- RateLimiter.MemoryRateLimiter.Allow: token counts are reals, so float64 rounding is not modelled; the default burst is taken without the float conversion.
- CircuitBreaker.CircuitBreakerManager.AllowRequest: the method runs without interruption; its split form is in the state machine only. There the three unlocked reads of state, lock flag and opening time are one step: a request that read the flag before a force and the time more than thirty seconds after it is not modelled. The states of one process at a time are modelled, not several instances on one database.
- Provisioning.ProvisioningStore.HandleProvision: rate limiting by address, validation of the agent's name, and failing lookups and increments, which end the call early, are not part of the method; an increment whose answer is lost is an increment followed by a failure in the state machine. The issuance log is written by a goroutine, which is its own step there.
- Traffic.CellList: a time zone other than UTC for the hour of a bucket.
- Dashboard.MergeStats: bucket keys are integers, so malformed dates, which make the original throw, are excluded; the locale formatting of slot times is left out.
- Dashboard.PointMeans: stats with a negative request count, for which the number of latencies means nothing.
- TenantStore.GrantedIff: the time of last use that validation also writes; a lookup or that write failing; the header without a bearer token.
- Upstreams.SelectUpstream: integer overflow of the total weight, and rows whose weight was not written by the two handlers.
- ConfigImport.HandleImport: the wording of error messages and the admin audit entry; unknown JSON fields are rejected before the import starts.
- ConfigImport.NormalizeMethods: upper-casing is exact for characters whose capital is an ASCII letter and the identity on others, which changes no membership in the allowed set.
- AppProxy.RedirectReentersIff: URL escaping, with `%2e` as a dot segment, and Unicode case folding of host names; queries and fragments take no part in where a request arrives; a client that sends dot segments as they are.
- Paths.ResolveRoute: the path is the one that arrives, already cleaned by the mux; lookups that fail.
- Paths.RouteReachableIff: URL escaping of slugs.
- CIDR allow and deny lists, header injection and stripping, base-tag injection: short computations without state.
