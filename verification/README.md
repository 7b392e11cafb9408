# KgLb, verified

KgLb decides what a Linux IPVS load balancer should look like (the control plane) and makes
it so (the data plane). This project models both in Dafny and proves what they keep: over
every run of the reconciler whichever module call fails, over every interleaving of the
control plane's components, and over every order in which Go walks a map.

Check everything with `dafny verify dfyconfig.toml`.

## How the model is laid out

| file | what it models |
|---|---|
| `Types.dfy`, `Text.dfy` | the messages; decimal printing |
| `Comparable.dfy` | the keyed diff of two arrays |
| `Comparators.dfy` | the printed comparator keys and the comparison of whole states |
| `Reconcile.dfy` | the kernel modules as abstract state, the calls a reconciliation may make, and what follows for every run of such calls |
| `Plan.dfy` | the calls of each phase as lists computed from a diff, and why each list is accepted and safe |
| `Attempts.dfy` | what holds of an attempt even when the kernel refuses a new service, and when trying again helps |
| `Manager.dfy` | the data plane manager: reading the modules, the name caches, `SetState`, its repetition, `Shutdown` |
| `IpvsTypes.dfy` | conversions to and from the IPVS library's types |
| `HealthStatus.dfy`, `Sweep.dfy`, `HealthManager.dfy` | rise/fall hysteresis, the concurrent sweep, the health manager |
| `FwmarkPool.dfy`, `SharedFwmarks.dfy` | the fwmark pool, and many balancers sharing it |
| `Balancer.dfy` | one balancer: weights, latch, failsafe, fwmark services |
| `Routes.dfy`, `Servicer.dfy` | route filtering and the generation of a data plane state |
| `FirstWins.dfy`, `AnyOrder.dfy` | what a generated state owes to the order of a map |
| `Pipeline.dfy` | health managers, balancers and servicer joined by lossy one-slot channels |

### The reconciler

A `World` is the IPVS table, the advertised routes with their hold times, the address table,
the manager's own books and a clock of the time waited. A `Call` is one module call; `Legal`
says when the kernel accepts it. `Safe(n, w, c)` says when a reconciliation towards `n` may
make call `c` in state `w`. A module failure is an arbitrary outcome of each call, and a state
is `Applicable` when the kernel can take its new services: no new balancer lists a real twice,
and no new service shares protocol, address and port with another.

From every starting state and whichever calls fail, `SetState`

- returns success only when services with their reals, routes and tracked addresses equal the
  desired state, and without a module failure succeeds exactly when the state is applicable;
- never widens the gap, keeps every resource set between old and new, and brings routes,
  services and addresses up and down in the promised order. This holds at every point of
  every attempt, refused ones included (`OrderlyRun`).

If the state is applicable, every call is safe, and the lemmas about safe runs give more: every
mutating call closes exactly one item of the gap, each real has its old or its new value, and
deletions wait for the hold times. Applicability survives failed attempts, so repeated attempts
together are one safe run of exactly |gap| mutating calls (`Reapply`).

If it is not, the attempt ends while services are being added, having only withdrawn and added.
A real listed twice may have been written with the value that is not wanted
(`RepeatedRealMisplaced`), but its service is then there and the next attempt treats it as a
changed one. So without module failures repeated attempts succeed if and only if no services
clash, after exactly one extra attempt for each new service that lists a real twice; a clash is
never resolved (`Reapply`, `RunKeepsClash`).

### What the proofs found

- **A retry can skip the hold time.** If a withdrawal fails half way, the next attempt no
  longer lists the routes already withdrawn and does not wait for them
  (`RetrySkipsHold`). `DrainedAtDeletion` gives the exact condition.
- **Generated services can depend on map order.** Two balancers with different `weight_up`
  that share an upstream address publish different services for one mark, and whichever is
  read first wins (`DifferentWeightsFlap`, exact condition in `ServicesInEveryOrder`); the same
  holds for routes of one network with different attributes (`DifferentAttributesFlap`, exact
  condition in `RoutesInEveryOrder`).
- **One balancer without BGP attributes silences all others.** Generation then fails in
  every order as soon as one allowed route is in nobody's prohibited network; if every allowed
  route is, success depends on the order; and a generation that succeeds announces nothing
  (`UnreadableSilencesAll`, `GeneratesInSomeOrder`, `GeneratesInEveryOrder`, input in
  `OrderDecides`).
- **A masquerading balancer with fwmarks on makes every generation fail.** Its health-check
  services carry port 0, which validation accepts only for tunnelling ones
  (`FwmarkServiceValid`, `MasqueradingRefused`).
- **A changed scheduler or flag on a live service is never applied.** New services are added
  before old ones are deleted and the kernel does not tell the two apart, so every attempt
  fails (`RescheduledIsStuck`).
- **An exhausted pool, a closed balancer, or an address listed twice breaks the reference
  counts** (`CallKeepsIffMark`, `CloseKeepsIffEmpty`, `UpdateCountsOnce`; inputs in
  `EmptyPoolBreaksBooks` and `RepeatedAddressLeaks`).
- **A pool range that reaches 2^32 is empty** (the constructor of `FwmarkPool.Manager`).
- **A host discovered twice can leave a stale snapshot published** (`DuplicateHostsGoStale`;
  exact condition in `QuietRefit`).
- **A colon in a link name can make two addresses share a key** (`LinkKeyClash`; exact
  condition, for whatever texts are addresses, in `LinkKeyExact`).
- **A prohibited network longer than an allowed one does not suppress it**
  (`DisjointUnlessLonger`).

### Modelling decisions

- Addresses are canonical bit strings, so one address has one spelling. Printed keys are
  modelled as text only where the proof is about printing (`Comparators.dfy`); elsewhere an
  item's key is the tuple of the compared fields, which gives the same diffs for every
  printer that prints different addresses differently (`PrintedDiffs`,
  `PrintedUpstreamDiffs`). A service's key is its whole message.
- The IPVS table is keyed by the service that was asked for. The code lists what converts
  back, which is the same service exactly if that is canonical (`ServiceRoundTrip`, with the
  HASHED bit the kernel adds); desired services are taken to be.
- Module calls take their outcome from an arbitrary function of the call number; a call
  succeeds exactly if that function and the kernel's rules say so, and otherwise has no
  effect. A list of reals is one call per real, so it can stop in the middle.
- Ratios are reals. Ports, marks and reference counts wrap where the code's integers do.
- DNS, health checks and schedules are parameters; ticks and failures are steps that may
  happen at any time.
- Where Go walks a map the model picks an arbitrary next element, or quantifies over all
  orders.
- A 32-bit flag word is the set of positions of its one bits; the IPVS flag constants are
  distinct single bits.

## Model

| member | source | states |
|---|---|---|
| Comparable.FillKeys | kglb/utils/comparable/arrays.go:99-107 | the filled map holds, for each key, the item at the key's last position |
| Comparable.CompareArrays | kglb/utils/comparable/arrays.go:63-96 | the four lists are exactly the added, deleted, changed and unchanged keys, each once, in whatever order the maps are walked and with duplicate keys in the input |
| Comparable.DiffPartitions | kglb/utils/comparable/arrays.go:63-96 | the four lists split the keys of both arrays |
| Comparable.DiffIsPatch | kglb/utils/comparable/arrays.go:63-96 | applying a diff to the old map gives the new map: new items where a change was reported, items equal to them where none was |
| Comparable.NoChangeIffSame | kglb/utils/comparable/arrays.go:48-50 | a diff reports no change if and only if both arrays have the same keys with equal items |
| Comparators.RouteKeyExact | kglb/common/types_comparators.go:57-94 | two routes print the same key if and only if they compare equal, for every community (colons and quotes included) and every prefix |
| Comparable.SameDiffs | kglb/utils/comparable/arrays.go:63-96 | two keys that tell the same items apart give the same diffs |
| Comparators.NormalExact | kglb/common/types_comparators.go:60-66 | communities are the same once normalised if and only if they differ in nothing but commas for blanks |
| Comparators.LinkKeyExact | kglb/common/types_comparators.go:169-185 | whatever texts are addresses, link keys identify link and address if and only if neither name extends the other by a text that a colon joins to an address; colon-free names never do |
| Comparators.LinkKeyClash | kglb/common/types_comparators.go:169-185 | a colon in a link name makes two different addresses share a key |
| Comparators.UpstreamKeyExact | kglb/common/types_comparators.go:152-160 | an upstream key identifies address and port, although IPv6 addresses hold colons |
| Comparators.ChangedRoutesEmpty | kglb/data_plane/manager.go:218-220 | a diff of routes never reports a changed route, so ignoring that list loses nothing |
| Comparators.NoRouteChanges | kglb/data_plane/manager.go:218-220 | the same for routes as the reconciler compares them: another hold time is no change |
| Comparators.ChangedLinksEmpty | kglb/data_plane/manager.go:222-224 | nor does a diff of addresses on links whose names do not extend one another |
| Comparators.RouteKeysAgree | kglb/common/types_comparators.go:57-75 | printed route keys are equal if and only if the compared fields are, for every injective address printer |
| Comparators.PrintedDiffs | kglb/data_plane/manager.go:207-224 | the diffs of routes and addresses by compared fields are those by printed keys |
| Comparators.PrintedUpstreamDiffs | kglb/common/types_comparators.go:152-167 | so are the diffs of upstreams |
| Comparators.EqualIffNoDiff | kglb/common/types_comparators.go:20-53 | two states compare equal if and only if none of the three diffs reports a change |
| Comparators.BalancerEqualIffNoDiff | kglb/common/types_comparators.go:119-134 | two balancers compare equal if and only if their names agree and the diff of their upstreams reports no change |
| Comparators.StatesEqualEquivalence | kglb/common/types_comparators.go:14-54 | the nested comparison of states is reflexive, symmetric and transitive |
| Reconcile.GapEmptyIffConverged | kglb/data_plane/manager.go:207-233 | nothing differs if and only if services, reals, routes and addresses are the desired ones |
| Reconcile.StepShrinksGap | kglb/data_plane/manager.go:246-352 | a mutating call settles exactly one differing item and unsettles none |
| Reconcile.RunShrinksGap | kglb/data_plane/manager.go:246-352 | the mutating calls of a run and the gap left add up to the gap at the start; converged if and only if that many calls were made |
| Reconcile.RunStaysBetween | kglb/data_plane/manager.go:276-352 | at every point of a run each resource set is between old and new, and a surviving service has all its old or all its new reals, each with its old or its new value |
| Reconcile.NeverEmptied | kglb/data_plane/manager.go:276-322 | a service with reals before and after has some at every point |
| Reconcile.RunStaysOrdered | kglb/data_plane/manager.go:235-352 | a new route is up only when every desired service with exactly its reals and every desired address is; something obsolete is gone only when, besides, exactly the desired routes are up; addresses go last |
| Reconcile.RunKeepsValid | kglb/data_plane/manager_dynamic_routing.go:133-235 | the remembered hold time of an advertised route stays the one it was advertised with, given distinct prefixes |
| Reconcile.RunForgetsHolds | kglb/data_plane/manager_dynamic_routing.go:176-208 | and the hold time of a withdrawn route is forgotten |
| Reconcile.DrainedAtDeletion | kglb/data_plane/manager_dynamic_routing.go:176-208 | when something obsolete is deleted every withdrawn route has drained, if and only if the routes withdrawn before this reconciliation drain within its one wait |
| Reconcile.RetrySkipsHold | kglb/data_plane/manager_dynamic_routing.go:189-206 | after a half-failed withdrawal the retry deletes a service while a withdrawn route is within its hold time |
| Reconcile.ConvergedRunIsEmpty | kglb/data_plane/manager.go:226-233 | from the desired state a run that rewrites nothing makes no call |
| Reconcile.RetriesConverge | kglb/data_plane/manager.go:184-356 | any number of failing attempts and a successful one make exactly as many mutating calls as the gap has items, staying between old and new and in order throughout |
| Attempts.OrderlyRunKeeps | kglb/data_plane/manager.go:184-356 | at every point of every attempt, refused or not, the gap has not grown and routes, services and addresses are in the promised order |
| Attempts.OrderlyRunStaysBetween | kglb/data_plane/manager.go:246-352 | and every resource set is between old and new, a surviving service with all its old or all its new reals |
| Attempts.RunKeepsClash | kglb/data_plane/manager.go:254-262 | no attempt, however it ends, makes or removes a clash of service names |
| Attempts.RunKeepsApplicable | kglb/data_plane/manager.go:254-262 | nor does one make an applicable state inapplicable |
| Attempts.RescheduledIsStuck | kglb/data_plane/manager.go:254-343 | a service that is up with another scheduler or other flags stays, and the desired one never comes, through any number of attempts |
| Attempts.RefusedAtRepeat | kglb/data_plane/manager_balancer.go:67-98 | where nothing clashes the kernel refuses exactly the first balancer that lists a real twice, after taking its service |
| Attempts.StuckSettlesOne | kglb/data_plane/manager_balancer.go:91-95 | so the next attempt has one such service fewer |
| Attempts.RepeatedRealMisplaced | kglb/data_plane/manager_balancer.go:91-95 | a new real listed with two values is written with the unwanted one and then refused |
| Plan.AddRealsLegal | kglb/data_plane/manager_balancer.go:91-95 | the kernel accepts a raw list of new reals if and only if it names none twice |
| Plan.AddBalancersLegal | kglb/data_plane/manager_balancer.go:67-98 | the kernel accepts all new services if and only if none names a real twice and none shares its kernel name with another |
| Plan.ChangePatches | kglb/data_plane/manager.go:276-322 | adding, updating, then deleting turns the old reals into the new ones, with all new reals present before any is deleted |
| Plan.ChangeSafe | kglb/data_plane/manager.go:276-322 | every call of an upstream change is safe, in whatever order the diff lists came out |
| Plan.ChangeFresh | kglb/data_plane/cache_resolver.go:140-184 | an upstream update rewrites equal values only if a hostname differs from the one the cache gives back |
| Plan.MaxHold | kglb/data_plane/manager_dynamic_routing.go:187-201 | the wait is the longest hold time of the withdrawn routes |
| Manager.CacheKeyExact | kglb/data_plane/cache_resolver.go:199-223 | the service cache takes two services for one if and only if they are equal or fwmark services of one mark |
| Manager.CacheKeepsOld | kglb/data_plane/cache_resolver.go:140-184 | an update leaves the name of an address the state does not name |
| Manager.CacheKeepsLast | kglb/data_plane/cache_resolver.go:140-184 | and gives every other one the last non-empty name it has in the state |
| Manager.CacheKeepsLastName | kglb/data_plane/cache_resolver.go:122-137 | a service gets the name of the last balancer with its cache key, and keeps its old one if there is none |
| Manager.CacheGivesBack | kglb/data_plane/cache_resolver.go:139-184 | after the cache is updated from a state that names every address once, looking an upstream's address up gives its own hostname |
| Manager.CacheGivesNameBack | kglb/data_plane/cache_resolver.go:122-137 | and looking a service up gives its own name, if services the cache key does not tell apart share a name |
| Manager.ReadsBackEqual | kglb/data_plane/manager.go:193-215 | what is read back from a converged kernel compares equal to what was desired, balancer by balancer, names and hostnames included |
| Manager.Manager.UpdateCache | kglb/data_plane/cache_resolver.go:111-184 | both caches are the old ones overwritten by the state, the last name winning and empty hostnames skipped |
| Manager.Manager.Issue | kglb/data_plane/manager_address.go:58-76 | one call with the look-ups before it: applied if and only if every module call it takes succeeds and the kernel accepts it, otherwise without effect |
| Manager.Manager.GetBalancers | kglb/data_plane/manager_balancer.go:29-64 | lists every service once with its cached name, its reals and their cached hostnames, or fails with a module |
| Manager.Manager.ListRoutes | kglb/data_plane/manager_dynamic_routing.go:107-130 | lists every route once with the remembered hold time |
| Manager.Manager.ListLinks | kglb/data_plane/manager_address.go:182-212 | lists exactly the tracked addresses that are still in the table |
| Manager.Manager.WithdrawRoutes | kglb/data_plane/manager_dynamic_routing.go:178-208 | withdraws all routes, then waits once for the longest hold time; on failure it has only withdrawn |
| Manager.Manager.AddBalancers | kglb/data_plane/manager.go:254-262 | adds all new services with their reals; fails exactly when a module fails or the kernel must refuse |
| Manager.Manager.UpdateBalancer | kglb/data_plane/manager.go:276-321 | brings one changed service to exactly its desired reals by safe calls |
| Manager.Manager.SetState | kglb/data_plane/manager.go:184-356 | it succeeds if and only if every module call it made succeeded and the kernel can take the new services, and then has converged. Whatever fails, the gap does not grow and the order holds at every point. If the kernel can take them, every call is safe and withdrawals and their wait come first; if not, only withdrawals and additions are made, and without a clash or a module failure one service fewer stands in the way. With consistent hostnames a converged state costs no call |
| Manager.Manager.Reapply | kglb/control_plane/servicer.go:469-483 | attempts repeated on every tick: if every module call made succeeds, one attempt does if and only if no services clash and there are more attempts than new services listing a real twice; each failing module call delays it by at most one attempt; an applicable state takes one safe run of as many mutating calls as the gap has items |
| Manager.Manager.Shutdown | kglb/data_plane/manager.go:131-182 | takes everything down in the order of a reconciliation towards nothing, once; succeeds if and only if every module call made does |
| IpvsTypes.ToLibIpvsFlags | kglb/data_plane/ipvs_mqliang_types.go:31-45 | sets the bit of every flag under a full mask, and fails if and only if one is not supported |
| IpvsTypes.ToKglbFlags | kglb/data_plane/ipvs_mqliang_types.go:47-74 | the sorted list of the word's supported flags without HASHED, in whatever order the map is walked, and fails if and only if the mask is not full or an unsupported bit is left |
| IpvsTypes.FlagsRoundTrip | kglb/data_plane/ipvs_mqliang_types.go:31-74 | there, through a kernel that adds HASHED, and back, flags come out sorted, once each and without HASHED, exactly if all are supported |
| IpvsTypes.WordRoundTrip | kglb/data_plane/ipvs_mqliang_types.go:31-74 | back and there, flags only lose HASHED |
| IpvsTypes.NormalIffSurvives | kglb/data_plane/ipvs_mqliang_types.go:31-74 | a flag list survives the round trip if and only if it is in normal form |
| IpvsTypes.ToLibMeaning | kglb/data_plane/ipvs_mqliang_types.go:161-197 | scheduler name, flag bits, protocol number, address, port, family, mark and netmask of a converted service |
| IpvsTypes.ServiceRoundTrip | kglb/data_plane/ipvs_mqliang_types.go:91-197 | a service comes back unchanged if and only if its flags are in normal form, its port has 16 bits and its mark is not zero |
| IpvsTypes.DestinationRoundTrip | kglb/data_plane/ipvs_mqliang_types.go:131-159 | a destination has the family of its address and comes back without its hostname, otherwise unchanged if and only if its port has 16 bits |
| HealthStatus.HistoryMeetsTrace | kglb/utils/health_manager/health_status.go:37-78 | after any results under any thresholds the counter is the signed length of the trailing run and the status is the kind of the last position where a run reached its threshold |
| HealthStatus.HistoryContinues | kglb/utils/health_manager/health_manager.go:255-265 | a status that is kept carries its history on |
| HealthStatus.VerdictUnique | kglb/utils/health_manager/health_status.go:37-78 | the trace specification of the status admits one answer |
| HealthStatus.Entry.UpdateHealthCheckStatus | kglb/utils/health_manager/health_status.go:37-78 | one step of that history; true is returned exactly on a flip |
| Sweep.RangesPartition | kglb/utils/concurrency/concurrency.go:23-45 | for every number of tasks and workers there are as many workers as both permit, each task is in the range of exactly one, and no range exceeds the ceiling share |
| Sweep.AnyScheduleIsSequential | kglb/utils/concurrency/concurrency.go:29-56 | every schedule that finishes leaves each entry with exactly its own result and the flag telling whether any flipped |
| HealthManager.ConcurrentSweep | kglb/utils/health_manager/health_manager.go:377-434 | a concurrent sweep of a snapshot leaves what one sequential pass leaves, and reports a change exactly when it would |
| HealthManager.ViewMeaning | kglb/utils/health_manager/health_manager_state.go:107-127 | what a consumer sees is which hosts and ports are there, as enabled and as healthy |
| HealthManager.SameHostsMeaning | kglb/utils/health_manager/health_manager_state.go:107-127 | an update is announced if and only if it changes the hosts or the number of entries |
| HealthManager.QuietRefit | kglb/utils/health_manager/health_manager.go:239-282 | a resolver update that is not announced shows nothing new, if and only if first entries show all that duplicates show |
| HealthManager.DistinctShowAll | kglb/utils/health_manager/health_manager_state.go:44-54 | which they do when no host is listed twice |
| HealthManager.DuplicateHostsGoStale | kglb/utils/health_manager/health_manager_state.go:107-127 | with one host listed twice a sweep followed by an update of the same list changes what is live without being announced |
| HealthManager.QuietSweep | kglb/utils/health_manager/health_manager.go:327-331 | a sweep without a flip changes nothing a consumer can see |
| HealthManager.CloneView | kglb/utils/health_manager/health_manager_state.go:86-103 | a published copy shows what the original shows |
| HealthManager.Manager.Update | kglb/utils/health_manager/health_manager.go:161-200 | thresholds stay positive: both unset means the defaults, one unset is refused without effect |
| HealthManager.Manager.GetEntry | kglb/utils/health_manager/health_manager_state.go:44-54 | finds the first entry of the host, if there is one |
| HealthManager.Manager.ApplyResolverState | kglb/utils/health_manager/health_manager.go:239-282 | for any discovered list, hosts that stay keep the status object of their first entry, new ones start fresh, and an up-to-date published snapshot stays so if and only if it is published anew or first entries showed all that duplicates did, as they do when no host was listed twice |
| HealthManager.Manager.PerformHealthChecks | kglb/utils/health_manager/health_manager.go:377-434 | every entry gives its status one result, a disabled one a failure, a shared status seeing all of them; a change is reported exactly if some result flipped a status, and without one a consumer sees no difference |
| HealthManager.Manager.Tick | kglb/utils/health_manager/health_manager.go:307-332 | a tick keeps the published snapshot showing what is live, hosts listed twice included |
| FwmarkPool.RunConserves | kglb/utils/fwmark/fwmark_manager.go:39-86 | no call sequence loses or duplicates a mark; distinct addresses hold distinct marks |
| FwmarkPool.LeaseLasts | kglb/utils/fwmark/fwmark_manager.go:39-86 | an address keeps its lease through any calls exactly as long as fewer references were given back than taken, and then has the mark it had and an exact count |
| FwmarkPool.QueueLaw | kglb/utils/fwmark/fwmark_manager.go:48-83 | what the pool held and got back is what it handed out followed by what it holds |
| FwmarkPool.ReusedLast | kglb/utils/fwmark/fwmark_manager.go:48-83 | a released mark is handed out again only after every mark that was free at its release |
| FwmarkPool.Manager.constructor | kglb/utils/fwmark/fwmark_manager.go:25-36 | the pool holds exactly the range if and only if the range stays below 2^32, and is empty otherwise |
| FwmarkPool.Manager.AllocateFwmark | kglb/utils/fwmark/fwmark_manager.go:39-58 | one allocation step; fails if and only if the address is new and the pool is empty |
| FwmarkPool.Manager.ReleaseFwmark | kglb/utils/fwmark/fwmark_manager.go:73-86 | one release step; the mark is stable while references remain |
| SharedFwmarks.SharedCounts | kglb/control_plane/balancer.go:355-443 | after any interleaving of updates a count is the number of balancers holding the address, at rest those publishing it, and a balancer at rest has exactly one check per upstream through the mark its address has |
| SharedFwmarks.CallKeepsIffMark | kglb/control_plane/balancer.go:371-379 | a pool call keeps these counts if and only if it does not need a mark from an empty pool |
| SharedFwmarks.EmptyPoolBreaksBooks | kglb/control_plane/balancer.go:371-379 | such as the first call of the first update with an empty pool |
| SharedFwmarks.UpdateCountsOnce | kglb/control_plane/balancer.go:355-402 | an update moves the count of an address by one balancer if and only if an address that comes or goes is listed once |
| SharedFwmarks.RepeatedAddressLeaks | kglb/control_plane/balancer.go:355-402 | listed twice, then once, then not at all, an address keeps its mark for good |
| SharedFwmarks.CloseKeepsIffEmpty | kglb/control_plane/balancer.go:335-341 | closing a balancer keeps them if and only if it published no upstream |
| Balancer.RatioMeaning | kglb/common/utils.go:8-23 | the ratio is within 0 and 1, positive exactly if something has weight, 1 exactly if everything has |
| Balancer.RatioCounts | kglb/common/utils.go:8-23 | it is the share of positions with weight |
| Balancer.UpstreamsMeaning | kglb/control_plane/balancer.go:452-502 | a snapshot resolves if and only if every enabled host does; then its upstreams are the enabled hosts in order, each where it resolves to, with weight exactly if healthy |
| Balancer.LifeOfHosts | kglb/control_plane/balancer.go:446-549 | over any snapshots the latch is open exactly if an enabled host was ever healthy, and what is published serves the hosts of the last snapshot that resolved, all up exactly when none of them is healthy and one was before |
| Balancer.LifeMeetsTrace | kglb/control_plane/balancer.go:446-549 | after any updates the latch is open exactly if something was ever alive, and what is published is the last update that resolved, with all upstreams up exactly when none is alive in it and one was before |
| Balancer.ChecksAreServices | kglb/control_plane/balancer.go:551-568 | the fwmark services check the upstreams, one each in order, through the marks read for them: family, mark, name, one real with the upstream's address, hostname and forward method, port 0 and the weight up; different addresses through different marks |
| Balancer.Balancer.constructor | kglb/control_plane/balancer.go:114-194 | starts in the initial state with the configured weight, or 1000 for none, and nothing published |
| Balancer.Balancer.UpdateWeight | kglb/control_plane/balancer.go:314-329 | the weight is the configured one, or 1000 for none, and a regeneration is asked for exactly when it changes |
| Balancer.Balancer.AliveUpstreamsRatio | kglb/common/utils.go:8-23 | the fraction of upstreams with weight |
| Balancer.Balancer.ManageFwmarkAllocations | kglb/control_plane/balancer.go:355-402 | the pool sees exactly one allocation per new address, then one release per vanished one |
| Balancer.Balancer.Weigh | kglb/control_plane/balancer.go:495-526 | an initial state has all weights zero, any other with upstreams has one that is not; failsafe means ratio 1 |
| Balancer.Balancer.UpdateState | kglb/control_plane/balancer.go:446-583 | publishes if and only if every enabled host resolves: upstreams with weight exactly where healthy, or all up when none is and one ever was, the right ratio, and one fwmark service for each upstream with a mark; otherwise nothing changes |
| Balancer.Balancer.GenerateFwmarkServices | kglb/control_plane/balancer.go:404-443 | one service for each upstream that has a mark, in order, through that mark |
| Routes.ParseMeaning | kglb/control_plane/servicer.go:245-257 | a route parses if and only if its prefix is no longer than an address, and then contains exactly the addresses that agree with it on the prefix, bit by bit |
| Routes.BaseMeaning | kglb/control_plane/servicer.go:245-257 | its network address is the prefix followed by zeros |
| Routes.NestedOrDisjoint | kglb/control_plane/servicer.go:267-271 | two networks share an address if and only if one is inside the other (section 3.1 of RFC 4632) |
| Routes.DisjointUnlessLonger | kglb/control_plane/servicer.go:267-271 | a kept network is disjoint from a prohibited one, except exactly when the prohibited one is a longer prefix inside it |
| Routes.GenerateRoutes | kglb/control_plane/servicer.go:233-291 | keeps, in order, exactly the allowed routes that fit, are the first to their network and whose masked address differs from every prohibited prefix of their family within that prefix; fails exactly when an allowed route does not fit or meets a prohibited one without a readable network before one that blocks it |
| Routes.KeptIsSelection | kglb/control_plane/servicer.go:233-291 | the same about the specification that the generated state is compared with |
| Routes.SucceedsInEveryOrder | kglb/control_plane/servicer.go:389-391 | generation succeeds in every order of the prohibited routes if and only if all allowed routes parse and, if there are any, all prohibited ones do |
| Routes.SucceedsInSomeOrder | kglb/control_plane/servicer.go:247-271 | it succeeds in some order if and only if all allowed routes parse and either all prohibited ones do or every allowed one is covered |
| Routes.UnparsedAnnouncesNothing | kglb/control_plane/servicer.go:247-271 | a generation that succeeds with a prohibited route that does not parse announces nothing |
| Routes.OrderDecides | kglb/control_plane/servicer.go:389-391 | one allowed route, a network covering it and a balancer without attributes: one order succeeds and the other fails |
| Servicer.MergeOnePerMark | kglb/control_plane/servicer.go:342-355 | merged services have one per mark |
| Servicer.MergeMarks | kglb/control_plane/servicer.go:342-355 | merging loses no mark and invents no service |
| Servicer.MergeKeepsUnmarked | kglb/control_plane/servicer.go:342-355 | services without a mark are all kept |
| Servicer.AnnouncementIsSafe | kglb/control_plane/servicer.go:372-392 | an announced route is that of a balancer past its initial state, with a positive alive ratio that is at least its limit and an upstream that has weight, and its masked address is in no network of a balancer of which one of these fails |
| Servicer.AllReadyAnnounced | kglb/control_plane/servicer.go:372-392 | conversely the network of every such balancer is announced, unless one that is not ready holds it back |
| Servicer.FwmarkServiceValid | kglb/common/validate.go:45-52 | a fwmark service passes validation if and only if its upstream is named and tunnels |
| Servicer.MasqueradingRefused | kglb/control_plane/balancer.go:431-441 | so a balancer that masquerades and has fwmarks on makes generation fail, unless a tunnelling one has the same marks |
| Servicer.Servicer.SplitRoutes | kglb/control_plane/servicer.go:357-392 | splits the routes into allowed and prohibited and counts balancers without state |
| Servicer.Servicer.GenerateLinkAddrs | kglb/control_plane/servicer.go:196-229 | lists exactly the addresses of TCP and UDP services, each once and on the loopback, in any order |
| Servicer.Servicer.GenerateDataPlaneState | kglb/control_plane/servicer.go:320-429 | the state of two readings; refused exactly when a route fails or a balancer or upstream is malformed, never for a duplicate address; no ready balancer is forgotten; the initial flag drops once all balancers have state |
| Servicer.Servicer.OnBalancerUpdate | kglb/control_plane/servicer.go:484-501 | a failed generation sends nothing and keeps the last good state; otherwise the new state is sent and kept, every route in it is safe to announce and the network of every ready balancer is in it unless held back |
| Servicer.Servicer.OnTick | kglb/control_plane/servicer.go:464-483 | sends the last good state again |
| Servicer.Servicer.ApplyDataPlaneState | kglb/control_plane/servicer.go:432-444 | the handler for the end of initialisation is called at most once, at the first accepted state past the initial one |
| FirstWins.SameInEveryOrderIffAgree | kglb/control_plane/servicer.go:342-349 | keeping the first item of each key gives the same items in every order of the groups if and only if no two groups offer different items for one key |
| AnyOrder.ServicesInEveryOrder | kglb/control_plane/servicer.go:338-355 | the merged services are the same in every order of the balancers if and only if balancers sharing a mark publish the same service for it |
| AnyOrder.DifferentWeightsFlap | kglb/control_plane/balancer.go:431-441 | two balancers with different weights and a common upstream address make them depend on the order |
| AnyOrder.NetworksInEveryOrder | kglb/control_plane/servicer.go:338-403 | all orders in which generation succeeds announce the same networks |
| AnyOrder.RoutesInEveryOrder | kglb/control_plane/servicer.go:274-286 | all orders in which generation succeeds announce the same routes if and only if ready balancers with one network announce it with the same attributes, or some route does not parse |
| AnyOrder.GeneratesInSomeOrder | kglb/control_plane/servicer.go:338-403 | generation succeeds in some order of the balancers if and only if all allowed routes parse and either all prohibited ones do or every allowed one is covered |
| AnyOrder.GeneratesInEveryOrder | kglb/control_plane/servicer.go:338-403 | it succeeds in every order if and only if everything parses or nobody is ready |
| AnyOrder.OutcomeInEveryOrder | kglb/control_plane/servicer.go:338-403 | it comes out the same in every order, failure included, if and only if no order can succeed, or everything parses and ready balancers with one network agree on it |
| AnyOrder.UnreadableSilencesAll | kglb/control_plane/servicer.go:389-391 | with a balancer that is not ready and has no readable network nothing is announced in any order |
| AnyOrder.DifferentAttributesFlap | kglb/control_plane/servicer.go:274-286 | two ready balancers announcing one network with different attributes make the routes depend on the order |
| Pipeline.StepKeeps | kglb/control_plane/balancer.go:570-609 | every step of every component keeps: the newest snapshot is in the slot or received, a balancer's state is of the newest snapshot and setting or will be, the last generation saw the newest state twice or another one is due |
| Pipeline.SendNeverBlocks | kglb/utils/health_manager/health_manager.go:358-370 | the send after the drain always finds its slot free; an idle producer's newest value is in the slot or received |
| Pipeline.NoLostUpdates | kglb/control_plane/servicer.go:484-501 | at rest every balancer's state is of the last snapshot stored and the last setting given, and the last generation read it in both readings, whatever notifications were dropped |
| Pipeline.LastInForce | kglb/control_plane/balancer.go:314-330 | the snapshot and the setting in force are the last ones stored and given |
| Pipeline.NotStuck | kglb/control_plane/servicer.go:447-504 | while something is pending some component can step |
| Pipeline.ComesToRest | kglb/control_plane/servicer.go:447-504 | without new input the system makes a bounded number of steps, and can stop only at rest |

## Left out

- libipvs, netlink, the BGP speaker and the kernel: replaced by the contracts of `Reconcile.Legal` and `Reconcile.Apply`.
- Health checkers, fwmark sockets, DNS and discovery resolvers, configuration loading and the `kglbd` binary: network and file input.
- Metrics, gauges, state hashes and logging: reporting only.
- Context cancellation, channel closing and real time: only uncancelled runs, with time as a counter of waits.
- `updateConfig`: the set of balancers is fixed in `Pipeline`; creating, updating and closing balancers by key would only add easy members, except that closing leaks marks (`CloseKeepsIffEmpty`).
- `hostnameCache`, `Lookup` and `Cluster` of the cache resolver: they do not feed the diff.
- `validate.go`: only the checks made on a generated state, without those that canonical addresses always pass.
- Manager.Manager.SetState: takes desired services to be canonical (`IpvsTypes.CanonicalService`), so that the kernel lists them as they were asked for.
- HealthManager.Manager.ApplyResolverState: that the resolver's own `HostPort` objects are written in place, and may be the ones of an earlier list, is not modelled.
- HealthManager.Manager.PerformHealthChecks: runs the checks one after the other; that any concurrent schedule gives the same when no status is shared is `ConcurrentSweep`, and in which order a shared status sees its results is not modelled.
- SharedFwmarks.SharedCounts: fwmarks are always on, the addresses of one update are distinct (exactly why: `UpdateCountsOnce`), an allocation finds a mark (`CallKeepsIffMark`) and no balancer is closed (`CloseKeepsIffEmpty`); toggling `enable_fwmarks` is not modelled.
- Servicer.Servicer.OnBalancerUpdate: takes what each reading found, and the data plane's answer, as parameters; that readings interleave with updates is in `Pipeline`, where a balancer's configuration is not read.
- Configuration updates of a balancer other than the weight: replacing resolvers and checkers, and refusing a changed name or VIP, would only add easy members.
