# Verified model of the gungho load balancer

gungho is an HTTP/1.1 reverse proxy and load balancer. This project models its stateful logic in Dafny and
proves what that logic promises: the Smooth Weighted Round Robin schedule and its 64-bit arithmetic, alone and
under interleaving; the health state machine over a pool; the request life cycle with connection guards and the
cached healthy list; the load Least Connections can give a backend; the IP hash; the `traceparent` check; and
the header rewriting. `dafny verify dfyconfig.toml` checks everything.

## The parts

- `SmoothWrr.dfy`, `SmoothWrrBounds.dfy`, `SmoothWrrPeriod.dfy`: the selection on unbounded integers and its theory
  on one slice. Write W for the total weight, n for the slice length and H(n) for 1 + 1/2 + ... + 1/n. Everything
  rests on the ledger `credit_i = t * w_i - W * picks_i`, on `credit_i > -W`, and on the bound
  `k * W * (H(n) - H(k))` for the credit of any k positions together.
- `SmoothWrrSwitching.dfy`: the same on slices that change with the health of the backends, where any k positions
  hold at most `W * k * (n - k) / 2`.
- `SmoothWrrRange.dfy`, `WeightedRoundRobin.dfy`: the selection in wrapping 64-bit arithmetic, and the strategy
  object, whose credit array is sized once and then updated in place. On one slice nothing wraps while
  `W * H(n) < 2^63` (so for up to 2^26 backends with 32-bit weights); through changing slices nothing wraps while
  `W * (n + 1) < 2^64` (up to 65535 such backends). A slice longer than the first one is modelled as the index
  panic it is.
- `WrrInterleaving.dfy`, `ConcurrentBounds.dfy`: any number of threads inside `select`, each on its own slice, one
  atomic operation at a time; and how far at most r calls in flight can make the credits and the shares stray.
- `RoundRobin.dfy`, `LeastConnections.dfy`, `Rotation.dfy`: the simpler strategies, the exact load ceiling of
  Least Connections, and the situation in which three strategies coincide.
- `LeastScan.dfy`, `LeastScanRace.dfy`: Least Connections reading one counter at a time while other requests come and
  go, and exactly when the ceiling survives that.
- `HealthHistory.dfy`, `BackendPool.dfy`, `HealthChecker.dfy`, `Backend.dfy`: the state machine of one backend
  over its whole history (32-bit counters that wrap), the pool with its cache, and the checker run.
- `RequestLifecycle.dfy`: requests, guards, 64-bit connection counters, the single health writer and its readers
  as one machine of atomic steps. An event that is not possible in a state changes nothing, so every sequence of
  events is an interleaving, and the theorems quantify over all of them.
- `LoadInService.dfy`: that machine with every backend healthy, under Least Connections, and the load model of
  `LeastConnections.dfy` simulate each other, so the load ceiling holds of its interleavings and is reached by one.
- `ScanInService.dfy`: the same for requests that scan one counter at a time and `LeastScan.dfy`.
- `RequestHandler.dfy`: one request through the proxy as a method, with the guard object and the header rewriting.
- `IpHash.dfy`, `Traceparent.dfy`, `Headers.dfy`: the exact smaller pieces.
- `Arithmetic.dfy`, `Sums.dfy`, `Words.dfy`: products, sums and machine words.

Each atomic operation is one sequentially consistent step. Machine widths are explicit: credits wrap in 64 bits,
`consecutive_*` in 32, `active_connections` and the Round Robin counter in 64 (`usize` on a 64-bit target).
Arithmetic that would panic in a debug build wraps here, as in a release build. Time, sockets and parsing are
replaced by their outcomes, which appear as parameters or as events.

## What the code does that its documentation does not say

- `Config::validate` accepts thresholds of 0. The documented meaning of the flag then fails
  (`FlagMeaningNeedsPositiveThresholds` says exactly when it holds). With `healthy_threshold = 0` no backend ever
  leaves rotation (`AlwaysUpIff`). With `unhealthy_threshold = 0` a successful check can take a backend out: the first
  one does when `healthy_threshold` is 2 or more; when it is 1, only the wrap of the 32-bit counter after 2^32 - 1
  successes in a row does (`SuccessMarksDownIff`). One result can then also mark a backend twice (`TwoMarksIff`).
- Two configured addresses may differ as text and parse to the same address. Only the first such backend is ever
  marked; the other stays in rotation whatever its checks say (`ShadowedBackendNeverMarked`), so the flags mean what
  they should exactly when the parsed addresses are distinct (`EveryFlagFollowsIffDistinct`).
- The gauge `gungho_backend_health` has no value for a backend until its first flip (`StateAfterRun`).
- A slice longer than the first one seen makes Smooth Weighted Round Robin panic after it has added weights, and
  what it added is never taken back (`PanicLeaksWeight`).
- Least Connections selects and takes its guard in two steps. With r requests between the two, a backend can be
  given `floor((K - r) / n) + r` of K requests in flight and no more (`ServiceLoadBound`, `ServiceLoadBoundIsTight`).
  That exceeds `ceil(K / n)` unless `(n - 1) * (r - 1)` is at most the remainder of K - r by n (`ServesEvenlyIff`).
- Its scan is not one step either: with three or more backends and three or more such requests a scan that is
  overtaken can, for some K, exceed even that (`RequestsBreakCeiling`, `RacesSafelyIff`), for instance with 3 backends,
  8 requests in flight and r = 3. It never exceeds `floor((K - r) / 2) + r` (`RacingServiceLoad`).
- A client's own `X-Forwarded-Host` is passed on when the request has no `Host` (`PipelineMeaning`), and any
  `traceparent` version other than 00 is treated as malformed (`AcceptedLanguage`).

## Model

| member | source | states |
|---|---|---|
| SmoothWrr.FirstMax | src/lb/weighted_round_robin.rs:58-67 | the compare loop ends at the first position that holds the maximum |
| SmoothWrr.SelectConservesSum | src/lb/weighted_round_robin.rs:58-71 | one selection leaves the sum of all credits unchanged, for any credits, weights and slice no longer than the credits |
| SmoothWrr.CreditsAlwaysSumToZero | src/lb/weighted_round_robin.rs:50-71 | over any sequence of slices, shrinking and growing, the credits sum to zero |
| SmoothWrr.Ledger | src/lb/weighted_round_robin.rs:58-71 | after t selections credit_i is t * w_i minus W times the picks of i |
| SmoothWrr.WinnerIsPositive | src/lb/weighted_round_robin.rs:63-71 | the chosen credit is positive before W is taken from it |
| SmoothWrr.CreditAboveMinusTotal | src/lb/weighted_round_robin.rs:58-71 | no credit of any run reaches -W |
| SmoothWrr.ZeroCreditsIffSharesAreWhole | src/lb/weighted_round_robin.rs:34-39 | the credits are all zero after t selections if and only if W divides every t * w_i |
| SmoothWrr.ExactShares | src/lb/weighted_round_robin.rs:34-39 | after k * W selections every backend was picked exactly k * w_i times and all credits are zero |
| SmoothWrr.RunRepeats | src/lb/weighted_round_robin.rs:34-39 | once the credits are zero again, credits and picks repeat for ever |
| SmoothWrr.ScaleInvariance | src/lb/weighted_round_robin.rs:58-71 | multiplying all weights by g > 0 scales the credits by g and changes no pick |
| SmoothWrr.ReducedPeriod | src/lb/weighted_round_robin.rs:58-71 | when g divides every weight the picks repeat after W / g |
| SmoothWrrPeriod.PeriodIffWholeShares | src/lb/weighted_round_robin.rs:58-71 | the picks repeat after P selections if and only if P selections give every backend a whole share |
| SmoothWrrPeriod.PeriodsAreMultiples | src/lb/weighted_round_robin.rs:58-71 | the periods of the picks are exactly the multiples of W divided by the greatest common divisor of the weights |
| SmoothWrr.ZeroWeightNeverPicked | src/lb/weighted_round_robin.rs:58-71 | a zero-weight backend is never picked while some weight is positive |
| SmoothWrr.AllZeroWeightsPickFirst | src/lb/weighted_round_robin.rs:54-67 | when every weight is zero every request goes to the first backend |
| SmoothWrr.ExampleNeverBursts | README.md:156-159 | weights 5, 1, 1 give the picks 0 0 1 0 2 0 0 for ever, so no five in a row go to the first backend |
| SmoothWrrBounds.HarmonicSubsetBound | src/lb/weighted_round_robin.rs:50-73 | every nonempty set of k positions holds at most k * W * (1/(k+1) + ... + 1/n) credit, after any number of selections |
| SmoothWrrBounds.CreditBound | src/lb/weighted_round_robin.rs:50-73 | no single credit exceeds W * (1/2 + ... + 1/n) |
| SmoothWrrBounds.WindowFairness | src/lb/weighted_round_robin.rs:58-73 | in any window of t selections of any run, W * picks_i - t * w_i lies strictly between -W * H(n) and W * H(n) |
| SmoothWrrBounds.NoStarvation | src/lb/weighted_round_robin.rs:58-73 | a backend unpicked for t selections in a row has t * w_i < W * H(n) |
| SmoothWrrBounds.BurstBound | src/lb/weighted_round_robin.rs:58-73 | a backend picked p times in a row has p * (W - w_i) < W * H(n) |
| Words.WordSizes | src/lb/weighted_round_robin.rs:54-71 | the word constants are the powers of two they stand for |
| SmoothWrrRange.WrappedTotalIsWrappedSum | src/lb/weighted_round_robin.rs:54-60 | the running total is the true sum of the weights, wrapped once |
| SmoothWrrRange.WrappedSelectConserves | src/lb/weighted_round_robin.rs:58-71 | in 64-bit arithmetic a selection conserves the sum of the credits modulo 2^64, whatever credits and weights |
| SmoothWrrRange.U32WeightsAreSupported | src/config.rs:45-49 | at most 2^26 backends with 32-bit weights keep W * H(n) below 2^63 |
| SmoothWrrRange.NothingWraps | src/lb/weighted_round_robin.rs:54-71 | in every run on one supported slice no credit, raised credit, lowered credit or running total leaves i64, and every raised credit beats the i64::MIN sentinel |
| SmoothWrrRange.BoundedRunIsExact | src/lb/weighted_round_robin.rs:54-71 | so each 64-bit selection of such a run picks and leaves what the unbounded one does |
| SmoothWrrRange.BoundedRunsAgree | src/lb/weighted_round_robin.rs:50-71 | the whole 64-bit run on one supported slice equals the unbounded run |
| SmoothWrrSwitching.SwitchingBound | src/lb/weighted_round_robin.rs:50-73 | over any sequence of slices of total at most W any k of the n positions hold at most W * k * (n - k) / 2 credit |
| SmoothWrrSwitching.SwitchingCreditBound | src/lb/weighted_round_robin.rs:50-73 | so no credit strays further than W * (n - 1) / 2 from zero, whatever health changes |
| SmoothWrrSwitching.SwitchingBoundIsNearlyReached | src/lb/weighted_round_robin.rs:50-73 | for every n and W some run over slices of total at most W lifts a credit to (W - 1) * (n - 1) / 2 |
| SmoothWrrSwitching.U32PoolsAreRoomy | src/config.rs:45-49 | up to 65535 backends with 32-bit weights keep W * (n + 1) below 2^64, whatever slices of them are healthy |
| SmoothWrrSwitching.SwitchingNeverWraps | src/lb/weighted_round_robin.rs:54-71 | while W * (n + 1) is below 2^64 no credit, raised credit, lowered credit or running total leaves i64, over any sequence of slices |
| SmoothWrrSwitching.SwitchingRunsAgree | src/lb/weighted_round_robin.rs:50-71 | so the whole 64-bit run over changing slices equals the unbounded one |
| WeightedRoundRobins.ScanStep | src/lb/weighted_round_robin.rs:54-66 | the sentinel start of the compare loop finds the first maximum even among credits equal to i64::MIN |
| WeightedRoundRobins.WeightedRoundRobin.GetOrInit | src/lb/weighted_round_robin.rs:50-52 | the credits are created once, all zero, with the length of the first slice |
| WeightedRoundRobins.WeightedRoundRobin.Select | src/lb/weighted_round_robin.rs:41-74 | the in-place loop returns the choice and leaves the credits of the 64-bit selection; an empty slice changes nothing; a slice longer than the credits panics after adding to every credit |
| WeightedRoundRobins.PanicAddsEverywhere | src/lb/weighted_round_robin.rs:58-62 | the panicking call has added its weight to every credit, wrapped, and taken nothing back |
| WeightedRoundRobins.PanicLeaksWeight | src/lb/weighted_round_robin.rs:58-62 | the panicking call leaves the sum of the credits higher by the weights it added |
| WeightedRoundRobins.NeverPanicsIff | src/lb/weighted_round_robin.rs:50-62 | a sequence of calls never panics if and only if no slice is longer than the first one that is not empty |
| WeightedRoundRobins.OutcomeOnStableSlice | src/lb/weighted_round_robin.rs:41-74 | on a stable supported slice call number t of the object returns pick number t of the unbounded schedule |
| WeightedRoundRobins.CallsOnChangingSlices | src/lb/weighted_round_robin.rs:41-74 | through any changes of a slice that never outgrows the first one, moments without a healthy backend included, the object picks and leaves what the unbounded schedule does on the slices that have one |
| WeightedRoundRobins.Distribution | src/lb/weighted_round_robin.rs:108-137 | a fresh strategy called repeatedly counts exactly the scheduled picks, as many as calls, and exactly rounds / W * w_i after whole cycles |
| WrrInterleaving.InterleavedLedger | src/lb/weighted_round_robin.rs:58-71 | in every interleaving of any number of calls, each on its own slice, a credit is the weights of the calls past it less the totals of the calls that picked it, modulo 2^64 |
| WrrInterleaving.OneSliceLedger | src/lb/weighted_round_robin.rs:58-71 | when all calls have one slice, credit_i is w_i times the calls past i minus W times the picks of i, modulo 2^64 |
| WrrInterleaving.InterleavedConservation | src/lb/weighted_round_robin.rs:58-71 | in every interleaving the credits sum, modulo 2^64, to what unfinished calls have added and not taken back |
| WrrInterleaving.QuiescentSum | src/lb/weighted_round_robin.rs:54-71 | with no call in flight the credits sum to zero modulo 2^64, and to exactly zero whenever no position is due more than 64 bits hold |
| WrrInterleaving.SoloCallSelects | src/lb/weighted_round_robin.rs:54-73 | from any state a call that is not interrupted performs exactly the 64-bit selection of the strategy object |
| ConcurrentBounds.Separated | src/lb/weighted_round_robin.rs:62-67 | while a set of positions holds nearly all it can, every credit in it exceeds every other one, so calls that started since then pick in it |
| ConcurrentBounds.BoundedInterleaving | src/lb/weighted_round_robin.rs:54-71 | with at most r calls in flight, on any slices of total at most W, and 3 * r * W * n below 2^64, every proper set of positions stays within its bound and every credit is exact, at every moment of every interleaving |
| ConcurrentBounds.ConcurrentCreditBound | src/lb/weighted_round_robin.rs:54-71 | in those runs no credit strays further than 3/2 * r * W * n from zero and the ledger holds without the modulus, however many calls were made |
| ConcurrentBounds.ConcurrentFairness | src/lb/weighted_round_robin.rs:34-39 | in those runs, with all calls on one slice, the picks of every backend stay within 3/2 * r * (n - 1) of its proportional share, at every moment of every interleaving |
| RoundRobins.RoundRobin.Select | src/lb/round_robin.rs:28-38 | returns the counter modulo the slice length and advances the wrapping counter; an empty slice changes nothing |
| RoundRobins.CounterIsCallCount | src/lb/round_robin.rs:36 | the counter is the number of calls modulo 2^64 |
| RoundRobins.RotationSurvivesWrap | src/lb/round_robin.rs:36 | pick k is k mod n for every k, beyond the wrap, if and only if n divides 2^64 |
| LeastConnections.Select | src/lb/least_connections.rs:23-42 | returns the first backend with the fewest connections, None on an empty slice; the usize::MAX sentinel is harmless |
| LeastConnections.LoadBound | src/proxy.rs:119-149 | with at most K requests in flight, at most r of them between selection and guard, and completions in any order, no backend is ever given more than floor((K - r) / n) + r |
| LeastConnections.LoadBoundIsTight | src/proxy.rs:119-149 | for every n, K and r some run within those limits gives one backend exactly that many |
| LeastConnections.AtomicCeiling | src/lb/least_connections.rs:28-41 | with r = 1 the ceiling is K / n rounded up |
| LeastConnections.StaysEvenIff | src/proxy.rs:119-149 | no run within the limits gives a backend more than K / n rounded up if and only if (n - 1) * (r - 1) is at most the remainder of K - r by n |
| LeastScan.RacingLoad | src/lb/least_connections.rs:31-39 | with the counters read one at a time no backend of two or more is given more than floor((K - r) / 2) + r, whatever races the scans |
| LeastScan.ScanCeiling | src/lb/least_connections.rs:31-39 | with the counters read one at a time, and anything happening between two reads, the ceiling holds for at most two backends and for r of at most two, scanning requests counted in r |
| LeastScanRace.EveryLoadIsScanned | src/lb/least_connections.rs:31-39 | every run with one-step selections is a run of the machine that reads one counter at a time |
| LeastScanRace.ScanCeilingIsTight | src/lb/least_connections.rs:31-39 | so there too some run gives one backend exactly the ceiling |
| LeastScanRace.RaceBreaksCeiling | src/lb/least_connections.rs:31-39 | with n >= 3, f = floor((K - r) / n) and s the remainder, if some d >= 1 has d <= f, d + 2 <= r and (n - 2) * d + s >= n, then a scan that is overtaken can choose a backend already at the ceiling |
| LeastScanRace.RaceIsOnAt | src/lb/least_connections.rs:31-39 | with at least three backends and r at least 3 that is so whenever K - r is m * n - 1 with m >= 2 |
| LeastScanRace.CeilingHoldsIff | src/lb/least_connections.rs:28-41 | the ceiling survives racing scans at every number K of requests if and only if there are at most two backends or r is at most two |
| Rotation.EqualWeightsRotate | src/lb/weighted_round_robin.rs:140-155 | with equal positive weights pick k is k mod n, with the credits of the rotation in closed form |
| Rotation.ArrivalsAreDealt | src/lb/least_connections.rs:31-41 | Least Connections without completions deals requests out in turn |
| Rotation.ThreeWayAgreement | src/lb/round_robin.rs:36 | Smooth WRR with equal weights, Least Connections without completions and Round Robin before its wrap all choose k mod n |
| HealthHistory.TrailingRunIsMaximal | src/health.rs:28-39 | the trailing run used below is the longest run of equal results at the end of the history |
| HealthHistory.CountersAreTrailingRuns | src/health.rs:28-39 | the two counters are the lengths of the trailing runs, modulo 2^32 |
| HealthHistory.FlagStep | src/health.rs:96-112 | each result moves the flag as the true run lengths say; the wrap of the counters is never seen |
| HealthHistory.FlagMeaning | src/health.rs:94-112 | for every history the flag is down if and only if some prefix ends in enough failures and no later prefix ends in enough successes |
| HealthHistory.FlagMeaningNeedsPositiveThresholds | src/config.rs:117-142 | that meaning holds for all histories if and only if both thresholds are at least 1 |
| HealthHistory.NoFlapping | README.md:122-124 | f flips need at least ceil(f/2) * unhealthy_threshold + floor(f/2) * healthy_threshold results |
| HealthHistory.NoFlappingIsTight | src/health.rs:94-112 | for every f a history of exactly that length flips f times |
| HealthHistory.FlipAtThreshold | src/health.rs:96-112 | a result flips the flag if and only if it makes the opposing run exactly as long as its threshold |
| HealthHistory.SuccessMarksDownIff | src/health.rs:96-112 | over all histories, a success can take a backend down if and only if unhealthy_threshold is 0 and healthy_threshold is not; before the 32-bit counter wraps this takes a healthy_threshold of 2 or more, and then the first success does it |
| HealthHistory.FailureNeverMarksUp | src/health.rs:105-112 | over all histories and thresholds a failure never brings a backend back |
| HealthHistory.AlwaysUpIff | src/health.rs:96-112 | no history ever takes a backend down if and only if healthy_threshold is 0 |
| HealthHistory.AtMostOneMark | src/health.rs:96-112 | with positive thresholds one result passes at most one of the two tests |
| HealthHistory.TwoMarksIff | src/health.rs:96-112 | some result of some history marks a backend down and up again if and only if healthy_threshold is 0, or unhealthy_threshold is 0 and healthy_threshold is not 2^32 - 1 |
| Backends.Backend.constructor | src/backend.rs:33-40 | a configured backend starts healthy with no connections |
| BackendPools.HealthyPositionsExact | src/backend.rs:97-103 | the filter keeps exactly the raised flags, each once, in order |
| BackendPools.HealthyOnlyInOrder | src/backend.rs:147-153 | the filtered list has the healthy backends in the order of the pool |
| BackendPools.HealthyOnlyMembers | src/backend.rs:147-153 | a backend is in the filtered list if and only if it is in the pool and healthy |
| BackendPools.FindAddr | src/backend.rs:133-138 | finds the first backend with the address, or none has it |
| BackendPools.BackendPool.constructor | src/backend.rs:96-108 | a new pool caches exactly the healthy backends |
| BackendPools.BackendPool.FromConfig | src/backend.rs:110-127 | empty and unparsable configurations are the two errors; otherwise every backend is new, healthy, idle, as configured, and cached |
| BackendPools.BackendPool.Mark | src/backend.rs:160-178 | sets exactly one flag and leaves the cache equal to the filter; an index out of range changes nothing |
| BackendPools.BackendPool.MarkByAddr | src/backend.rs:180-200 | the same for the first backend with the address; an unknown address changes nothing |
| HealthCheckers.HealthChecker.RecordResult | src/health.rs:87-113 | one result updates the status map, flags, cache and gauges as specified |
| HealthCheckers.HealthChecker.RunTick | src/health.rs:76-118 | a tick does to statuses, flags and gauges what Tick says, and leaves the cache coherent |
| HealthCheckers.ProcessedExact | src/health.rs:87 | exactly the results that join before a panicked task are processed, each once and in order |
| HealthCheckers.PrunedToPool | src/health.rs:115-117 | after a tick exactly the statuses of pool addresses are left, as the results made them |
| HealthCheckers.HealthChecker.Run | src/health.rs:69-121 | the run is the fold of its ticks over the state it starts from |
| HealthCheckers.BackendsAreIndependent | src/health.rs:87-113 | what an address sees depends only on the results for that address, in their order |
| HealthCheckers.ShadowedBackendNeverMarked | src/backend.rs:180-200 | a backend whose address an earlier one already has is never marked |
| HealthCheckers.OrderAcrossBackendsIsIrrelevant | src/health.rs:87-113 | result sequences that agree address by address leave the same status map, flags and gauges |
| HealthCheckers.CompletionOrderIsIrrelevant | src/health.rs:87-113 | any permutation of one tick's results, one per address, leaves the same state |
| HealthCheckers.JoinOrderIsIrrelevant | src/health.rs:87-117 | any permutation of the joined tasks of a tick, none panicked and one per address, makes the tick do the same |
| HealthCheckers.HistoryIsReportsOf | src/health.rs:87-113 | what is processed for an address over a run is what the raw ticks report for it |
| HealthCheckers.TicksAreOneFold | src/health.rs:115-117 | pruning never drops anything, so a run is the fold of all processed results |
| HealthCheckers.StateAfterRun | src/health.rs:69-121 | after any ticks flag and counters are the replay of what the raw ticks report for the backend; its gauge exists if and only if it has flipped, and then equals the flag |
| HealthCheckers.FlagAfterRun | src/health.rs:69-121 | after any ticks the pool's flag is down if and only if the raw ticks report enough failures in a row for the backend, not followed by enough successes in a row |
| HealthCheckers.FlagMeaningIffFirst | src/backend.rs:180-200 | the flag of a backend follows its own results in every run if and only if no earlier backend has its address |
| HealthCheckers.EveryFlagFollowsIffDistinct | src/config.rs:117-142 | the flags of all backends do if and only if the parsed addresses are distinct |
| HealthCheckers.ListedAfterRun | src/backend.rs:140-158 | after any ticks from a fresh start a backend is in the filtered list if and only if its own results do not have it down |
| HealthCheckers.Monitor | src/health.rs:69-121 | a configured pool watched by a fresh checker caches, after any ticks, exactly the backends that their own results do not have down |
| RequestLifecycle.RunIsOk | src/proxy.rs:116-131 | in every interleaving each request indexes within its own snapshot, even if the cache is swapped meanwhile |
| RequestLifecycle.ConnectionConservation | src/proxy.rs:23-38 | in every interleaving each counter equals the number of live guards of its backend, modulo 2^64 |
| RequestLifecycle.ExactCounters | src/proxy.rs:149-184 | a counter is exact while fewer than 2^64 guards are held at once, however many requests came and went, and zero when no request holds a guard |
| RequestLifecycle.ReleaseNeverUnderflows | src/backend.rs:66-68 | while fewer than 2^64 guards are held every guard drop finds a counter of at least one and lowers it by exactly one |
| RequestLifecycle.OutcomesExplained | src/proxy.rs:119-184 | 503 goes exactly to requests with an empty snapshot, 400 only after a selection and without a guard, and a response, 502 or 504 only to requests that held a guard |
| RequestLifecycle.RequestsRemember | src/proxy.rs:116-184 | in every interleaving a request keeps the list as it was when taken and the index selected for it, and ends exactly as it was told: 503, 400, the answer given, cancelled or by a panic |
| RequestLifecycle.CacheCoherence | src/backend.rs:140-200 | at every step of every mark the cached list is the filter of the flags, except possibly at the backend being marked, and exact when no mark is under way |
| RequestLifecycle.FlagsAreLastMarks | src/backend.rs:180-200 | in every run the flag of a backend is what its last mark says, and up if there was none |
| RequestLifecycle.ListedAsMarked | src/backend.rs:140-200 | whenever no mark is under way the list has exactly the backends whose last mark says healthy |
| RequestLifecycle.MarkCarriedThrough | src/backend.rs:147-178 | a mark, the scan of all flags and the swap set that flag and leave the filter of the new flags |
| RequestLifecycle.SnapshotsAreFresh | src/backend.rs:140-145 | every backend in a snapshot is up when the snapshot is taken, or is the one being marked |
| LoadInService.StepIsLoadStep | src/proxy.rs:119-184 | while all backends are healthy each step of a request moves the live guards and the selections without a guard exactly as the load model says |
| LoadInService.StaysInService | src/proxy.rs:116-184 | in every such run snapshots show every backend, and each counter is exactly the number of live guards |
| LoadInService.LimitsCarryOver | src/proxy.rs:119-149 | at most K requests in flight, r of them without a guard, if and only if the load is within the limits of the load model, each request counted once |
| LoadInService.ServiceLoadBound | src/lb/least_connections.rs:28-41 | in every interleaving of requests that stays within K in flight and r without a guard, the counter of a backend and its selections without a guard together stay within floor((K - r) / n) + r |
| LoadInService.EveryLoadIsServed | src/proxy.rs:119-184 | every run of the load model is the load of some interleaving of requests within the same limits |
| LoadInService.ServiceLoadBoundIsTight | src/proxy.rs:119-149 | for every n, K and r some interleaving of requests within the limits gives one backend exactly floor((K - r) / n) + r |
| LoadInService.ServesEvenlyIff | src/proxy.rs:119-149 | no interleaving of requests within the limits gives a backend more than K / n rounded up if and only if (n - 1) * (r - 1) is at most the remainder of K - r by n |
| ScanInService.ScanningIsARun | src/proxy.rs:116-131 | a run in which requests scan one counter at a time is a run of the request machine, so conservation and coherence hold of it |
| ScanInService.StepIsScanStep | src/proxy.rs:116-184 | while all backends are healthy each such step moves guards, selections and scans exactly as LeastScan says |
| ScanInService.RacingServiceLoad | src/lb/least_connections.rs:28-41 | in every such interleaving a backend is given at most floor((K - r) / 2) + r, and at most its ceiling with at most two backends or r at most two |
| ScanInService.EveryScanIsServed | src/proxy.rs:116-184 | every run of LeastScan is what some interleaving of requests within the same limits does |
| ScanInService.RequestsBreakCeiling | src/proxy.rs:116-131 | so some interleaving of requests gives a backend one more than the ceiling, at the K of RaceBreaksCeiling |
| ScanInService.RacesSafelyIff | src/proxy.rs:116-131 | at every number of requests the ceiling holds of interleavings that scan if and only if there are at most two backends or r is at most two |
| RequestHandlers.ConnectionGuard.constructor | src/proxy.rs:27-32 | a new guard counts one connection on its backend |
| RequestHandlers.AwaitReply | src/proxy.rs:149-184 | the response, 502, 504 or cancellation if and only if the reply is a response, an error, a timeout or abandoned; the backend counts one connection more meanwhile, and as many as before afterwards |
| RequestHandlers.HandleRequest | src/proxy.rs:111-184 | 503 if and only if nothing was selected, 400 if and only if the URI fails, and for a forwarded request the response, 502, 504 or cancellation if and only if the reply is a response, an error, a timeout or abandoned; it carries the specified headers, a refused one is untouched, and every counter ends as it began |
| IpHash.HashIp | src/lb/ip_hash.rs:16-31 | for any k octets the loop computes 89 * 113^k plus the sum of octet_i * 113^(k-1-i), modulo 6271, and no step reaches 708766 before it is reduced |
| IpHash.Select | src/lb/ip_hash.rs:41-49 | None only on an empty slice; an unknown client gets the first backend, a known one the hash modulo the slice length |
| IpHash.HashIsPolynomial | src/lb/ip_hash.rs:16-31 | reducing after every octet equals reducing the whole polynomial once |
| IpHash.HashIsClosedForm | src/lb/ip_hash.rs:16-31 | the hash is that closed form for any number of octets |
| IpHash.HashOfFour | src/lb/ip_hash.rs:16-31 | for an IPv4 address it is (89 * 163047361 + 1442897 * a + 12769 * b + 113 * c + d) modulo 6271 |
| IpHash.StepUndone | src/lb/ip_hash.rs:21 | a step is invertible, because 113 * 111 = 1 modulo 6271 |
| IpHash.OneOctetSeparates | src/lb/ip_hash.rs:16-31 | addresses of any equal length that differ in exactly one octet hash differently |
| IpHash.NeighboursCollideIff | src/lb/ip_hash.rs:16-31 | addresses that differ only in two neighbouring octets, by dx and dy, collide if and only if 6271 divides 113 * dx + dy |
| Traceparent.JoinOfSplit | src/proxy.rs:251 | joining undoes splitting, for every text |
| Traceparent.SplitOfJoin | src/proxy.rs:251 | splitting undoes joining when no part contains a dash |
| Traceparent.AcceptedLanguage | src/proxy.rs:235-263 | the check accepts exactly the printed version 00 contexts of section 3.2.2 of W3C Trace Context: 32, 16 and 2 characters out of 0123456789abcdef, the first two fields not all zeros |
| Traceparent.AcceptedUniquely | src/proxy.rs:251-262 | each accepted text is printed by exactly one context |
| Traceparent.AcceptedIsText | src/proxy.rs:248-250 | whatever the check accepts is 55 visible characters, so reading the value as text never rejects it |
| Headers.HeaderMap.RemoveAll | src/proxy.rs:230-232 | the removal loop removes exactly the listed names |
| Headers.InsertXForwardedHeaders | src/proxy.rs:194-215 | gives every name its forwarded value: the client, the scheme, the backend as host, the host that stood there before, and every other name as it was |
| Headers.StripHopByHopHeaders | src/proxy.rs:217-233 | leaves nothing under the eight hop-by-hop names of section 13.5.1 of RFC 2616 and every other name as it was |
| Headers.PropagateOrStripOtelContext | src/proxy.rs:273-277 | removes traceparent, tracestate and baggage unless the first traceparent is a well-formed context, and changes nothing else |
| Headers.RewriteRequest | src/proxy.rs:143-147 | the three edits in a row give every name its specified values |
| Headers.PipelineMeaning | src/proxy.rs:143-147 | for every multi-valued header map the pipeline equals one pointwise specification in terms of the client's headers |
| Headers.StripAndFilterCommute | src/proxy.rs:145-147 | stripping and trace filtering commute and each is idempotent |
| Headers.ChainedProxies | src/proxy.rs:206-214 | behind a second proxy only X-Forwarded-Host differs from the last proxy alone: it names the first proxy's backend |

## Left out

- Sockets, the HTTP client and server, timers and cancellation tokens: replaced by the outcome of each request and the results of each check.
- Admin routes, logging, Prometheus encoding and the request metrics: thin layers over libraries; the health gauge is a map.
- Parsing of TOML, of addresses and of forwarded URIs, and the checks of `Config::validate`: library behaviour; a failed parse is an input of the model.
- `Random::select`: any index in range, which is what the request machine allows every strategy.
- Relaxed, acquire and release orderings: every atomic operation is one sequentially consistent step.
- Overlapping writers of the healthy cache, and `Backend::set_health` after the pool is built: the code promises no coherence there; the model has the one writer that `HealthChecker::run` is.
- Shares of Smooth Weighted Round Robin across changing healthy slices: credits belong to positions, not to backends, so conservation and the bound on the credits are proved there, but no proportion.
- SmoothWrrRange.NothingWraps: slices whose W * H(n) reaches 2^63 are not covered, since there a credit may wrap and the schedule is no longer the proportional one; slices that change are covered by SmoothWrrSwitching.
- ConcurrentBounds.BoundedInterleaving: interleavings in which a call panics on a slice longer than the credits are outside its limits, since what that call added is never taken back; the ledger covers them.
- LeastConnections.Select: counters hold still during one call of the method; LeastScan models the scan one read at a time.
- LeastConnections.LoadBound: a selection is one step of this model; LeastScan and LeastScanRace say exactly when that makes a difference.
- LoadInService.ServiceLoadBound: a selection is one step there, as in LeastConnections.LoadBound; ScanInService has it read by read.
- LeastScanRace.RaceBreaksCeiling: with three or more backends and r of three or more, it is not proved that the ceiling holds at every K it does not name, nor which load between one more than the ceiling and floor((K - r) / 2) + r is the largest.
- SmoothWrrBounds.HarmonicSubsetBound and ConcurrentBounds.BoundedInterleaving: no run is given that comes near these two bounds; the one for changing slices has one.
- Status records are values kept in a map field, where the program updates them through a map entry; the pool's own index-based connection methods are not modelled, because nothing calls them.
- Header values are sequences of characters; the order between different names, which the header map does not promise, is not modelled.
- `reload.rs` and `shutdown.rs` are not part of this model.
