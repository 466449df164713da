# Verification of the load balancer's core

A Dafny model of the Go load balancer in `internal/lb`, with proofs about whole runs of it. One module
stands for each part of the program:

- `Pool.dfy` has the classes `Backend` and `BackendPool` with every selection strategy as a method over
  mutable `CurrentWeight`, `connections` and `current`. Whether a backend is healthy and its circuit not
  open is an arbitrary answer `seen[j]` at the j-th iteration of the selection loop, given anew at every call.
- `SmoothWrr.dfy` and `WrrGuarantees.dfy` give smooth weighted round-robin as a step on the vector of
  `CurrentWeight`s and prove what unbounded runs of it guarantee over a fixed eligible set: period, fair
  windows, quota, no starvation from any start, scaling. `WrrChurn.dfy` has what is kept when the eligible
  set differs at every call: conservation, a bound on every value, no overflow.
- `RoundRobin.dfy` treats the ticket counter with its 64-bit wrap: full cycles over any eligible subset
  and exactly when a wrap can hide a backend. `RoundRobinCallers.dfy` runs calls at the same time, each
  drawing its tickets one by one: their balance, and when one of them comes back empty.
- `LeastConns.dfy` runs any interleaving of the least-connections and weighted-least-connections loops,
  one counter read at a time, with the increments their callers make later, with callers that leave without
  counting and with departures, and bounds the spread. `Scores.dfy` has the floating-point scores and what
  rounding can change in a choice.
- `Connections.dfy` accounts for selections and connection counters over selections, increments, decrements
  and reloads in any order, runs a request on the pool objects as steps of that model, and accounts for a
  pool total read while they go on.
- `Routing.dfy` has the match test, the comparator, the unstable sort as any sorted permutation, and
  first-match dispatch: which routes can serve a request, and exactly when that is one.
- `Config.dfy` holds the configuration objects, whose lists of backends may contain null entries,
  `ConfigEdits.dfy` their in-place edits, `Admin.dfy` the operations on values and what sequences of them
  keep, `Tables.dfy` the building of pools and routing tables, `LoadBalancer.dfy` the class whose tables
  stay those of the configuration, and `AdminSession.dfy` whole runs: the start from a file and sequences of
  reloads and admin requests.
- `RateLimit.dfy` has the Redis limiter and its timed traces.
- `Sums.dfy`, `Uint64.dfy`, `Sequences.dfy` and `Options.dfy` hold shared definitions.

Where the code does not keep what one would expect of it, the model keeps the code and a lemma names the
input and the exact condition:

- Round-robin can answer "no backend" although one is healthy: a single call when its counter passes 2^64
  (`RoundRobin.NeverMissesIff`, `RoundRobin.WrapHidesBackend`), calls at the same time as soon as some
  backend is ineligible, within n^2 tickets or 2 n^2 across a wrap (`RoundRobinCallers.CanMissIff`; two calls
  over two backends need three, `RoundRobinCallers.TwoCallersMiss`), but away from a wrap only while others draw
  tickets (`RoundRobinCallers.MissNeedsOthers`).
- Under changing eligibility a `CurrentWeight` can fall below any bound in terms of the eligible total
  (`WrrChurn.ChurnBreaksLowerBound`; per call it stays above minus that total exactly as
  `WrrChurn.WinnerAboveIff` says); what bounds it then is `WrrChurn.ChurnMagnitude`.
- Departures widen the spread of least-connections, by one each and no more
  (`LeastConns.LeastConnsSpread`, `LeastConns.SpreadIsReached`).
- A posted route with a null backend entry is appended and then makes the rebuild panic, so the tables are
  no longer those of the configuration until that route is deleted (`Admin.NullEntryAccepted`,
  `Admin.CleanThroughoutIff`, `Admin.OnlyDeletionCleans`, `LoadBalancing.LoadBalancer.CurrentIff`).
- A successful weight update does not show in the pool when the address is configured twice with another
  weight in its last entry (`Admin.UpdateShowsIff`, `Admin.DuplicateHidesUpdate`).
- Dispatch depends on configuration order or on the sort when two routes share host and path and ask for
  headers one request can carry (`Routing.DeterministicIff`), as two routes written in the repository's own
  `config.yaml` would under one http listener (`Routing.ShippedConfigAmbiguous`; that file names its routes at
  top level, where the program does not read them).
- The rate limiter refuses a client that stays within the rate, because every request extends the life of
  the counter (`RateLimit.NeverRefusedIff`, `RateLimit.SteadyClientRefused`), and refuses everything exactly
  when the rate is below one per second and not zero; with a rate of zero there is no limiter and nothing is
  refused (`RateLimit.RefusesAllIff`, `RateLimit.HalfRateRefuses`).

Check everything with `dafny verify dfyconfig.toml`.

## Model

| member | source | states |
|---|---|---|
| Pool.BackendPool.GetNextBackendByWeightedRoundRobin | internal/lb/strategy.go:93-113 | the call is a smooth weighted round-robin step over the backends seen eligible, first maximum wins, and answers nil exactly when none was |
| Pool.BackendPool.RaiseEligible | internal/lb/strategy.go:98-107 | the loop raises exactly the eligible backends, totals their weights and finds the first maximum |
| Pool.BackendPool.ServeRun | internal/lb/lb_integration_test.go:456-475 | any number of calls on the pool object is a run of the step relation all guarantees below speak of |
| Pool.BackendPool.ServeOnePeriod | internal/lb/lb_integration_test.go:456-475 | on a pool whose weights stand at zero, W calls serve each eligible backend exactly Weight times and leave every CurrentWeight as it was |
| SmoothWrr.StepConserves | internal/lb/strategy.go:102-111 | a call keeps the sum over the eligible backends and leaves the others alone |
| SmoothWrr.StepDeterministic | internal/lb/strategy.go:102-112 | winner and new state are determined by the old state, the weights and the eligible set |
| SmoothWrr.StepExists | internal/lb/strategy.go:108-112 | whenever some backend is eligible a call answers one |
| SmoothWrr.WindowForm | internal/lb/strategy.go:102-111 | over any k calls CurrentWeight moves by k * Weight - W * picks |
| SmoothWrr.NeverBelow | internal/lb/strategy.go:96-112 | from any start, every eligible value stays at least min(start) - W + 1 for ever |
| SmoothWrr.Bounded | internal/lb/strategy.go:96-112 | two-sided bound on every eligible value of a run from any start |
| WrrGuarantees.Magnitude | internal/lb/strategy.go:102-111 | from zero, -W < CurrentWeight <= (W - 1) * (n - 1) at all times |
| WrrGuarantees.Quota | internal/lb/strategy.go:102-111 | after k calls picks are fewer than k * Weight / W + 1, and the lag behind k * Weight / W is bounded |
| WrrGuarantees.NoOverflowFixed | internal/lb/strategy.go:102-111 | over a fixed eligible set, while its size times its total fits in int64, so does every value a call forms |
| WrrGuarantees.ExactPeriod | internal/lb/strategy.go:93-113 | W calls from zero pick each eligible backend exactly Weight times and restore the state, for every order of the backends |
| WrrGuarantees.Periodic | internal/lb/strategy.go:93-113 | states and picks repeat with period W |
| WrrGuarantees.EveryWindowFair | internal/lb/strategy.go:93-113 | any W consecutive calls, at any offset, hold exactly Weight picks of each eligible backend |
| WrrGuarantees.NoStarvation | internal/lb/strategy.go:96-112 | from any values an eligible backend is chosen within a number of calls given by the start, n and W |
| WrrGuarantees.LongRunShare | internal/lb/strategy.go:96-112 | from any values W * picks follows k * Weight within a band that does not grow with k |
| WrrGuarantees.ScaleInvariant | internal/lb/strategy.go:102-111 | multiplying all weights by g > 0 keeps the picks and multiplies every CurrentWeight by g |
| WrrGuarantees.ReducedPeriod | internal/lb/strategy.go:102-111 | weights with a common factor g repeat their schedule every W / g calls |
| WrrChurn.CallConserves | internal/lb/strategy.go:93-113 | for any eligibility a call keeps the sum over all and over the eligible backends, leaves the others alone, and answers nil exactly when none was eligible |
| WrrChurn.ChurnConserves | internal/lb/strategy.go:93-113 | from a fresh pool all CurrentWeights add up to zero for ever, whatever eligibility each call sees |
| WrrChurn.ChurnWithinRoom | internal/lb/strategy.go:93-113 | from a fresh pool and under any eligibility, k of the n backends together never gain more than W * k * (n - k) |
| WrrChurn.ChurnMagnitude | internal/lb/strategy.go:93-113 | from a fresh pool and under any eligibility every CurrentWeight stays within W * (n - 1) of zero, W the total of all weights |
| WrrChurn.NoOverflow | internal/lb/strategy.go:102-111 | under any eligibility no value a call forms leaves int64 while n * W fits in it |
| WrrChurn.WinnerAboveIff | internal/lb/strategy.go:102-111 | a call leaves its winner above minus the eligible total if and only if some eligible backend reached 1 before the subtraction |
| WrrChurn.ChurnBreaksLowerBound | internal/lb/strategy.go:98-111 | for every d, among 2^d backends of weight 1 some run from zero with two of them eligible at each call takes a value down to -d |
| WrrGuarantees.ExpectedSchedule | internal/lb/lb_integration_test.go:456-475 | weights 5, 1, 1 give the schedule the integration test expects and no other |
| Pool.BackendPool.GetNextBackendByRoundRobin | internal/lb/strategy.go:77-90 | the call draws wrapped tickets until one falls on a backend seen eligible at that attempt, at most one per backend, and answers nil after that |
| Pool.BackendPool.ServeRoundRobin | internal/lb/lb_integration_test.go:439-455 | any number of calls on the pool object under steady eligibility is a run of RoundRobin |
| Pool.BackendPool.ServeOneCycle | internal/lb/lb_integration_test.go:439-455 | from a clean counter as many calls as there are eligible backends serve each of them exactly once and none comes back empty |
| RoundRobin.AllAnswered | internal/lb/strategy.go:77-90 | from a clean counter none of the first e calls comes back empty, e the number of eligible backends |
| RoundRobin.FullCycle | internal/lb/strategy.go:77-90 | e consecutive calls all answer, return each eligible backend exactly once and use at most n tickets, wherever the counter stands and the others lie |
| RoundRobin.CyclicOrder | internal/lb/strategy.go:77-90 | each pick of a cycle is the next eligible index after the previous one |
| RoundRobin.NextIsNearest | internal/lb/strategy.go:82-88 | the next index in the cycle is the eligible one fewest steps ahead, the index itself coming last |
| RoundRobin.ExpectedCycle | internal/lb/lb_integration_test.go:439-455 | three backends, the second ineligible, counter 1: third, first, third, first |
| RoundRobin.NeverMissesIff | internal/lb/strategy.go:82-89 | a call can never miss an eligible backend if and only if its n tickets do not cross 2^64, start at it, or n divides 2^64 |
| RoundRobin.WindowCovers | internal/lb/strategy.go:82-86 | where the window is clean, n attempts try every index |
| RoundRobin.WrapHidesBackend | internal/lb/strategy.go:82-89 | three backends and a counter at 2^64 - 2 answer nil although one is eligible |
| RoundRobinCallers.TicketsAccounted | internal/lb/strategy.go:82-86 | in any schedule of concurrent calls, across any wraps, every ticket on an eligible backend becomes an answer naming it and no ineligible backend is answered |
| RoundRobinCallers.ConcurrentSpread | internal/lb/strategy.go:82-86 | answers for any two eligible backends differ by at most one, plus one for each wrap of the counter that shifts the cycle |
| RoundRobinCallers.ConcurrentBalance | internal/lb/strategy.go:82-86 | with all backends eligible and no shifting wrap, m completed concurrent calls all answered, each backend floor(m/n) or ceil(m/n) times |
| RoundRobinCallers.MissNeedsOthers | internal/lb/strategy.go:82-89 | a concurrent call comes back empty only if others drew at least as many tickets meanwhile as there are eligible backends |
| RoundRobinCallers.CanMissIff | internal/lb/strategy.go:77-90 | some schedule of at most n^2 tickets, or 2 n^2 where the wrap shifts the cycle, makes a call come back empty if and only if some backend is ineligible; with more tickets nothing changes |
| RoundRobinCallers.TwoCallersMiss | internal/lb/strategy.go:77-90 | two calls over two backends, one eligible, draw three tickets: one call gets the eligible backend and the other none |
| Pool.BackendPool.GetNextBackendByLeastConns | internal/lb/strategy.go:60-74 | answers the first eligible backend of least load; nil when every eligible counter stands at 2^64 - 1 |
| Pool.BackendPool.GetNextBackendByWeightedLeastConns | internal/lb/strategy.go:116-135 | the first eligible backend of least score conns / weight as rounded to float64, weight 0 counting as 1; nil exactly when none is eligible |
| Pool.BackendPool.NearlyLeast | internal/lb/strategy.go:119-134 | the choice is of least exact score up to a factor of (2^51 + 1) / (2^51 - 1), and the first of least exact score while counters and weights are up to 2^25 |
| Pool.Backend.Score | internal/lb/strategy.go:123-128 | the score formed by two conversions and a division is the rounded quotient, with weight 0 taken for 1 |
| Scores.ScoreNear | internal/lb/strategy.go:123-128 | a rounded score is within 2^-51 of the exact quotient |
| Scores.NearlyLess | internal/lb/strategy.go:129-131 | a score not above another one exceeds it exactly by that factor at most |
| Scores.ComparesExactly | internal/lb/strategy.go:129-131 | for counters and weights up to 2^25, one score is below another if and only if the exact quotients are |
| LeastConns.InvHolds | internal/lb/strategy.go:60-74 | in any interleaving, the increments above a level plus the handlers still holding a backend from below it never exceed the handlers in flight |
| LeastConns.LeastConnsSpread | internal/lb/strategy.go:60-74 | at most K handlers between selection and increment: a load plus its pending handlers exceeds another eligible load by at most K plus the departures from that other |
| LeastConns.SpreadIsReached | internal/lb/strategy.go:60-74 | for every K and number D of departures some run ends with two loads K + D apart |
| LeastConns.WeightedSpread | internal/lb/strategy.go:116-135 | the same for weighted scores: no eligible backend exceeds its share against the arrivals at another by more than K |
| LeastConns.SequentialBalance | internal/lb/strategy.go:116-135 | one request at a time, every eligible pair keeps (conns_i - 1) * Weight_j <= arrivals_j * Weight_i, arrivals being conns where nothing departed |
| LeastConns.UndisturbedScan | internal/lb/strategy.go:119-134 | a scan during which no counter moves ends on the first eligible backend of least score, or on none if none is eligible |
| LeastConns.ExpectedChoices | internal/lb/lb_integration_test.go:408-506 | the choices for counters 2, 0, 1, and for weights 5, 1, 1 with counters 0, 0, 0, then 5, 2, 1, then 6, 2, 1 |
| Pool.BackendPool.GetNextBackendByIP | internal/lb/strategy.go:43-57 | answers the eligible backend whose rank among the eligible is hash modulo their number; nil exactly when none is |
| Pool.BackendPool.SameClientSameBackend | internal/lb/lb_integration_test.go:424-438 | the same address over the same eligible backends gets the same backend |
| Pool.BackendPool.GetNextBackend | internal/lb/strategy.go:15-38 | each strategy name gets its guarantee; every name but the four, also none, and ip-hash without an address are round-robin; under all but least-connections nil means exactly that no backend was seen eligible |
| Pool.BackendPool.GetTotalConnections | internal/lb/backend.go:299-305 | the sum of the counters modulo 2^64 |
| Pool.Backend.IncrementConnections | internal/lb/backend.go:39-41 | plus one modulo 2^64 |
| Pool.Backend.DecrementConnections | internal/lb/backend.go:42-44 | adding 2^64 - 1 is minus one, except at zero |
| Connections.Invariant | internal/lb/loadbalancer.go:180-194 | after any events, every counter is the number of handlers counted on its backend modulo 2^64, pools share no backend, and handlers keep the backend of the pool they selected from |
| Connections.SelectionsAccounted | internal/lb/loadbalancer.go:180-194 | after any events, the selections of a backend of a pool are the handlers that have it, those that left, and those that discounted themselves |
| Connections.WhoLeaves | internal/lb/loadbalancer.go:188-194 | a handler of a counting L7 strategy never ends without discounting itself, and one of another L7 strategy never discounts itself |
| Connections.PoolsAsBuilt | internal/lb/loadbalancer.go:66-74 | the pools are those that were built, with as many backends as each was built with |
| Connections.CountedLife | internal/lb/loadbalancer.go:188-194 | at any time a handler can select any backend of a counting pool; its counter and no other rises by one, and afterwards all is as before |
| Connections.UncountedLife | internal/lb/tcp_proxy.go:121-125 | a handler that does not count itself, or whose dial fails, moves no counter |
| Connections.SecondCounted | internal/lb/loadbalancer.go:180-194 | of two backends the second is selected: the counters are 0 and 1 |
| Connections.Counted | internal/lb/loadbalancer.go:188-194 | counting and discounting on a backend object are the steps of the model |
| Connections.ServeRequest | internal/lb/loadbalancer.go:180-194 | a request on a pool object is counted on the backend it selected and no other while it is served, exactly under the two least-connections strategies, and leaves all counters as they were |
| Connections.CounterIsHolders | internal/lb/loadbalancer.go:188-194 | counter and number of holding handlers agree exactly while the latter is below 2^64 |
| Connections.DecrementIsMinusOne | internal/lb/backend.go:42-44 | every deferred decrement meets a counter of at least one and takes one off it and nothing else |
| Connections.PoolTotal | internal/lb/backend.go:299-305 | in one state the pool total is the number of handlers counted on its backends |
| Connections.TotalWhileChanging | internal/lb/backend.go:299-305 | read counter by counter while handlers go on, the total misses the number of handlers at its start by at most the increments and decrements meanwhile |
| Connections.ReloadKeepsCounters | internal/lb/loadbalancer.go:66-74 | a reload moves no existing counter, keeps every handler on its old backend, and its new pools start at zero |
| Connections.UncountedStaysZero | internal/lb/loadbalancer.go:188-194 | under the L7 strategies that do not count, no counter of the pool ever leaves zero |
| Connections.QuietIsZero | internal/lb/tcp_proxy.go:137-138 | once no handler is left, every counter is zero |
| Routing.StrictWeakOrder | internal/lb/loadbalancer.go:256-272 | the comparator is a strict weak order |
| Routing.SortedIff | internal/lb/loadbalancer.go:256-272 | a table is sorted exactly if routes with a host come first, each part goes by falling path length, and equal ones by falling host length |
| Routing.EqualRankSameKey | internal/lb/loadbalancer.go:33-46 | two matches of equal rank have the same host and path |
| Routing.DispatchMostSpecific | internal/lb/loadbalancer.go:312-320 | for any sorted permutation the first match is a most specific match, and there is none exactly when no route matches |
| Routing.ServedPlainly | internal/lb/loadbalancer.go:33-46 | from any sorted table a request gets a route of its host or of none, whose path is a prefix of its path and whose headers it carries; one of its host if one fits, of those one with a longest path; nothing only if none fits |
| Routing.ExpectedMatches | internal/lb/loadbalancer_test.go:9-75 | prefix, host and header, matching and not |
| Routing.SameHeaderIff | internal/lb/loadbalancer.go:40-44 | two header names are the same header if and only if they differ in the case of letters only |
| Routing.CanonicalExamples | internal/lb/loadbalancer.go:40-44 | "user-agent" is "User-Agent", and a name with a blank stays as it is |
| Routing.ServedExactly | internal/lb/loadbalancer.go:256-320 | the routes that some outcome of the sort serves are exactly the most specific matches |
| Routing.DeterministicIff | internal/lb/loadbalancer.go:256-320 | one route is served whatever the sort if and only if no two different routes share host and path with compatible headers |
| Routing.ShippedConfigAmbiguous | config.yaml:56-72 | two of the routes written there, under one http listener, share host and path with compatible headers, so which serves depends on the sort |
| Routing.UniqueKeysDeterministic | internal/lb/loadbalancer.go:333-337 | with (host, path) unique, the served route is independent of configuration order and of ties |
| Routing.Dispatch | internal/lb/loadbalancer.go:312-320 | the loop answers the first match of the table |
| Tables.BuildPool | internal/lb/backend.go:116-162 | one backend per distinct address that parses, weight at least 1 from its last entry, in some order, all counters and CurrentWeights zero; panics exactly on a null entry |
| Tables.PoolPlainly | internal/lb/backend.go:116-162 | the pool has exactly the configured addresses that parse, each once, with the weight of its last entry or one if that is not positive |
| Tables.NewBackend | internal/lb/backend.go:60-113 | weight below one becomes one; no backend exactly when the address does not parse |
| Tables.BuildL7Routes | internal/lb/loadbalancer.go:130-275 | a sorted permutation of all http and https routes, each with a new pool for its backends, no two sharing a pool or a backend; panics exactly on a null entry |
| Tables.ApartInAnyOrder | internal/lb/loadbalancer.go:256-272 | no sort can make two routes share a pool |
| Tables.BuildL4Pools | internal/lb/loadbalancer.go:115-127 | one pool per tcp or udp listener name, the last listener of a name deciding, no two sharing a backend; panics exactly on a null entry |
| Tables.L4Plainly | internal/lb/loadbalancer.go:115-127 | a tcp or udp listener has the pool of its name, with its strategy, addresses and weights, unless a later one has that name; other names have none |
| Tables.L7Plainly | internal/lb/loadbalancer.go:130-135 | the routes of the table are those of the listeners with protocol http or https |
| Tables.DispatchInTable | internal/lb/loadbalancer.go:312-320 | dispatch in a table of the configuration is a most specific match among the configured routes |
| Tables.ServedConfig | internal/lb/loadbalancer.go:312-320 | the same law for the configured routes, and the pool of the route served is the one for its configuration |
| Tables.PrefixServed | internal/lb/loadbalancer.go:37-39 | with a configured route that has neither host nor headers, no request whose path goes on from its path is left unserved |
| Tables.TablesServeAlike | internal/lb/loadbalancer.go:256-320 | if dispatch over the configured routes is deterministic, two tables of them, configured and sorted in any order, serve every request by the same configured route |
| Tables.UniqueKeysSuffice | internal/lb/loadbalancer.go:333-337 | it is when no two configured routes share host and path |
| Tables.ReadyToServe | internal/lb/backend.go:116-162 | a built pool has positive weights, CurrentWeights of zero and a counter that no wrap disturbs, as the guarantees of both round-robins ask for |
| Tables.FirstPeriod | internal/lb/lb_integration_test.go:456-475 | the first W calls on a built pool serve every eligible address as often as its configured weight says |
| LoadBalancing.LoadBalancer.New | internal/lb/loadbalancer.go:86-112 | a new load balancer has the tables of its configuration, with unshared pools that start from zero, and the limiter that the first http or https listener asks for; it panics exactly on a null entry |
| LoadBalancing.LoadBalancer.ReloadConfig | internal/lb/loadbalancer.go:66-83 | afterwards the tables are those of the new configuration, every pool new, unshared and starting from zero, old pools untouched; a null entry panics and changes nothing |
| LoadBalancing.LoadBalancer.CurrentIff | internal/lb/loadbalancer.go:66-74 | the tables are those of the configuration if and only if no configured http or https route holds a null entry |
| LoadBalancing.LoadBalancer.ServeHTTP | internal/lb/loadbalancer.go:286-321 | refused exactly when the limiter says so, which counts every request; otherwise, while the table is current, served by a fitting configured route, of the request's host if one fits and with a longest path, through the pool of that route; not-found only when none fits |
| LoadBalancing.LoadBalancer.L4Current | internal/lb/loadbalancer.go:115-127 | while the tables are current, every tcp or udp listener finds the pool of its name |
| LoadBalancing.LoadBalancer.NothingSharedPlainly | internal/lb/loadbalancer.go:66-74 | no backend is in two pools of the tables, L7 and L4 together |
| LoadBalancing.LoadBalancer.AddRoute | internal/lb/loadbalancer.go:330-341 | appends unless (host, path) exists; refusal changes nothing; the rebuild succeeds exactly when no null entry is configured, and otherwise the route stays and the tables do not change |
| LoadBalancing.LoadBalancer.DeleteRoute | internal/lb/loadbalancer.go:342-351 | removes that route and no other, or refuses an index out of range and changes nothing |
| LoadBalancing.LoadBalancer.AddBackendToRoute | internal/lb/loadbalancer.go:352-370 | appends one entry to one route, weight 0 becoming 1, refuses a known address, or panics on a null entry before it; only the append changes anything |
| LoadBalancing.LoadBalancer.DeleteBackendFromRoute | internal/lb/loadbalancer.go:371-393 | drops all entries of the address from one route, or refuses, or panics on a null entry; only the first changes anything |
| LoadBalancing.LoadBalancer.UpdateBackendWeightInRoute | internal/lb/loadbalancer.go:394-417 | sets the first entry of the address in one route, or refuses, or panics on a null entry before it; only the first changes anything |
| ConfigEdits.SetBackends | internal/lb/loadbalancer.go:390-390 | assigning one route's backend list in place changes that route's value and no other |
| ConfigEdits.SetEntryWeight | internal/lb/loadbalancer.go:407-407 | assigning one entry's weight in place changes that entry and no other |
| AdminSession.StartUp | cmd/lb/main.go:131-136 | the program starts if and only if its file holds no null entry, with current tables and the limiter of the first http or https listener |
| AdminSession.FirstPlainly | internal/lb/admin.go:101-111 | the managed routes and the rate limit are those of the first listener with protocol http or https |
| AdminSession.BuildablePlainly | internal/lb/backend.go:116-131 | a file can be loaded exactly when no http or https route and no tcp or udp listener has a null entry |
| AdminSession.FromLastReload | internal/lb/admin.go:136-293 | after any commands, a loadable file and then requests in order leave what the requests make of the file |
| AdminSession.NothingChanges | internal/lb/admin.go:143-146 | a file with a null entry, a route without a path and a backend without an address change nothing |
| AdminSession.RunsPlainly | internal/lb/admin.go:101-111 | what the load balancer is configured with is what the commands say, and its routes are configured routes |
| AdminSession.LoadFile | cmd/lb/main.go:255-261 | a decoded configuration replaces the old one, or panics exactly on a null entry and leaves the load balancer as it was |
| AdminSession.Handle | internal/lb/admin.go:136-293 | an admin request is refused for an empty path or address or for want of an http or https listener, and otherwise does to the first such listener what the operation on values says |
| AdminSession.Session | internal/lb/admin.go:136-293 | after any sequence of reloads and admin requests, null entries included, the managed listener holds what the commands say, and the tables are current if and only if it holds no null entry |
| AdminSession.Program | internal/lb/admin.go:136-293 | the same for whole runs from a configuration file on, and the limiter stays the one that file gave |
| Admin.CleanStepIff | internal/lb/loadbalancer.go:330-417 | on a listener without null entries no operation panics, and it stays so unless an accepted route holds a null entry |
| Admin.AddRoutePlainly | internal/lb/loadbalancer.go:330-341 | a route is refused exactly when one with its host and its path is configured, and otherwise comes last |
| Admin.AddRouteAcceptedIff | internal/lb/loadbalancer.go:330-341 | on a listener with unique (host, path) a route is accepted if and only if they stay unique |
| Admin.OtherHostAccepted | internal/lb/loadbalancer.go:333-337 | the same path on another host is accepted |
| Admin.DeleteRoutePlainly | internal/lb/loadbalancer.go:342-351 | exactly an index in range is deleted; the routes before it stay and those behind it move up by one |
| Admin.AddBackendPlainly | internal/lb/loadbalancer.go:352-370 | accepted exactly by a route in range without null entries and without that address, as last entry with weight one for zero; otherwise what comes first decides between panic and refusal |
| Admin.DeleteBackendPlainly | internal/lb/loadbalancer.go:371-393 | panics exactly on a null entry; otherwise all entries of the address go, the others stay in order, and a missing address is refused |
| Admin.UpdateWeightPlainly | internal/lb/loadbalancer.go:394-417 | sets exactly a positive weight in the first entry of the address; an absent address is refused, a null entry before it panics |
| Admin.CleanThroughoutIff | internal/lb/loadbalancer.go:330-417 | a listener stays without null entries throughout a sequence if and only if no accepted route of it holds one |
| Admin.OnlyDeletionCleans | internal/lb/loadbalancer.go:330-417 | with a null entry configured, an operation removes it if and only if it deletes the only route that holds one |
| Admin.NullEntryAccepted | internal/lb/loadbalancer.go:330-341 | the body {"path":"/x","backends":[null]} is accepted and leaves a listener that cannot be built |
| Admin.UniqueKeysForEver | internal/lb/loadbalancer.go:330-417 | uniqueness of (host, path) survives every sequence of operations, refused ones included |
| Admin.UniqueKeysServeUniquely | internal/lb/loadbalancer.go:330-417 | after any such sequence the listener's routes serve each request by one route, however they are ordered and sorted |
| Admin.AddRouteUndone | internal/lb/loadbalancer.go:330-351 | add-route and then delete-last restores the listener |
| Admin.AddBackendUndone | internal/lb/loadbalancer.go:352-393 | add-backend and then delete by its address restores the listener |
| Admin.PoolTakesLast | internal/lb/backend.go:128-131 | the last entry of an address decides its weight in the pool |
| Admin.AddBackendInPool | internal/lb/loadbalancer.go:352-370 | an added backend appears in the rebuilt pool with its normalised weight and nothing else changes |
| Admin.DeleteBackendInPool | internal/lb/loadbalancer.go:371-393 | a deleted address, and only it, is gone from the rebuilt pool |
| Admin.UpdateShowsIff | internal/lb/loadbalancer.go:394-417 | an accepted weight update shows in the rebuilt pool if and only if the address is configured once or its last entry already has that weight; no other address changes |
| Admin.DuplicateHidesUpdate | internal/lb/loadbalancer.go:405-411 | an address configured twice keeps its old weight in the pool after an accepted update |
| RateLimit.RateLimiter.New | internal/lb/ratelimit.go:18-45 | no limiter without Redis or with a rate of zero or none; the limit is the rate truncated toward zero, if it fits into an int64 |
| RateLimit.LimitPlainly | internal/lb/ratelimit.go:18-45 | a rate from n up to n + 1 makes a limit of n, a negative one of minus n; no Redis, no rate or a rate of zero make no limiter |
| RateLimit.RateLimiter.Allow | internal/lb/ratelimit.go:48-66 | fails open on a Redis error, otherwise counts the request, extends the counter's life and allows up to the limit |
| RateLimit.AnsweredByPosition | internal/lb/ratelimit.go:48-66 | over any trace a client's answers depend on its own requests only, each by its place in its run of close requests |
| RateLimit.FirstOfRunAllowed | internal/lb/ratelimit.go:48-66 | in a run exactly the first limit requests are allowed, however long it lasts |
| RateLimit.RunIsGrantedLimit | internal/lb/ratelimit.go:48-66 | a run is granted min(limit, length) requests |
| RateLimit.WindowBound | internal/lb/ratelimit.go:48-66 | any stretch shorter than the window has at most limit allowed requests |
| RateLimit.NeverRefusedIff | internal/lb/ratelimit.go:54-63 | a client is never refused if and only if no run of its close requests is longer than the limit |
| RateLimit.SteadyClientRefused | internal/lb/ratelimit.go:54-63 | a client that sends one request every gap, with at most limit of them in any stretch shorter than the window, is refused for ever after its first limit requests, if gap is shorter than the window |
| RateLimit.SteadyExample | internal/lb/ratelimit.go:54-63 | one request every 0.6 seconds under a rate of two a second: allowed, allowed, refused, refused |
| RateLimit.SpacedClientAllowed | internal/lb/ratelimit.go:54-63 | a client that lets a whole window pass between its requests is never refused by a limit of one or more |
| RateLimit.Decide | internal/lb/ratelimit.go:18-66 | a limiter made from the settings decides a trace as the specification says, and without one all are allowed |
| RateLimit.RefusesAllIff | internal/lb/ratelimit.go:23-43 | every request of a non-empty trace is refused if and only if a limiter is made and its limit is zero or less, for a rate within int64 exactly when it is below one per second and not zero; without a limiter none is |
| RateLimit.HalfRateRefuses | internal/lb/ratelimit.go:43-43 | at half a request per second every request of every trace is refused |

## Left out

- Health checks, the circuit breaker's internals and when they change a backend's eligibility: every selection sees an arbitrary answer per iteration.
- `net.SplitHostPort`, FNV-1a and `url.Parse` are parameters; the hash is below 2^32 and `int` is taken to be 64 bits wide, so it is never negative.
- Pool.BackendPool.GetNextBackendByWeightedLeastConns: float64 is modelled by what rounding to nearest promises (relative error, exact integers up to 2^53), not bit by bit; which of two nearly equal scores above 2^25 rounds lower is left open.
- LeastConns.WeightedSpread: scores are compared exactly, as rounded scores compare while counters and weights are up to 2^25.
- Pool.BackendPool.GetTotalConnections: reads all counters in one state; Connections.TotalWhileChanging says what a total read counter by counter is worth.
- LeastConns.LeastConnsSpread: counters are unbounded, so it does not cover a counter at 2^64 - 1, which the least-connections loop skips; which backends are eligible does not change during a run.
- RoundRobinCallers.CanMissIff: eligibility does not change while the calls run.
- WrrGuarantees.Magnitude: a fixed eligible set; WrrChurn.ChurnMagnitude is the bound for a changing one.
- Connections.Invariant: UDP sessions are not included, because their reader can decrement before the increment; a reload's pools appear one by one, which allows more interleavings than the program has.
- LoadBalancing.LoadBalancer.ServeHTTP: it ends at the choice of the route; the chosen handler's cache lookup, proxying and status relay are not modelled.
- LoadBalancing.LoadBalancer.New: whether Redis is configured and answers is one boolean, and the cache it sets up is not modelled.
- Routing.DeterministicIff: requests range over all hosts, paths and header functions, also over ones that `net/http` never delivers (it takes Host out of the headers, and a path starts with a slash), so two routes that only such a request tells apart count as ambiguous.
- The admin operations and reloads run one at a time under the lock; a configuration swap between fetching the listener and taking the lock is not modelled, and neither is the decoding of bodies and files beyond its result.
- A null listener or a null route in a configuration file; a panic in a reload outside the admin server ends the program, which the model continues with the load balancer unchanged.
- ConfigEdits.SetBackends: the routes and entries of a listener are taken to be distinct objects, as decoding produces them; YAML aliases that share one object are not covered.
- The edits replace the lists of routes and backends as values held by mutable objects; the sharing of a backing array by Go's `append` is not modelled.
- RateLimit.RateLimiter.Allow: INCR and EXPIRE are one atomic step, a failed pipeline is taken not to have run, and the window is a number of clock ticks after whose passing the counter is gone.
- RateLimit.RefusesAllIff: a trace has no Redis errors; a rate is a real number, so infinities and NaN are not covered, and a rate that does not fit into an int64 converts to an arbitrary limit, as Go leaves it to the implementation.
- Strings are byte sequences without Unicode; header names follow the canonical form of `http.Header`.
- Response caching, metrics, TLS and autocert, listeners and proxies, YAML and environment loading, signal handling and the JSON layer: plumbing around the core.
