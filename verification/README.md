# A verified model of the OnCall platform's coordination code

This project models, in Dafny, the parts of the OnCall back end that decide *order*,
*exclusion* and *history*, and proves what they promise for every input or every run:

- **Dependency ordering** (`Graph`, `KahnTheory`, `DependencyGraph`, `DependencyResolver`,
  `Closure`, `DeploymentPlanner`, `HostedServices`, `HostLifecycle`, `HostInterleaving`,
  `PlatformBuilder`). The loops of
  Kahn's algorithm and of two depth-first searches are proved against a plain graph
  theory of walks, cycles and topological orders; the planner, the host and the kernel
  builder are proved on top of the resulting contracts.
- **Promise-chain mutual exclusion** (`PromiseChain`) and two of its clients, the audit
  hash chain (`AuditChain`) and the driver approval transactions (`Approval`). A run is any
  sequence of moves at the `await` points, so a statement about `After(run)` is a statement about every
  interleaving.
- **Background jobs** (`Job`, `JobsService`, `JobsInterleaving`): the service with calls run
  to completion, and overlapping ticks, cancels and refused writes.
- **Limiters** (`RateLimiter`, `PhoneLimiter`), **configuration reload** (`ConfigReload`), the
  **hook bus** (`HookBus`) and the **driver-offer chain** (`DriverOffers` with its handlers one at a
  time, `OfferInterleaving` with their awaits interleaved).

Objects whose methods update their fields are classes; their methods are tied to a
function or predicate on values, and the whole-run theorems are lemmas about those. What a
handler, provider, database, clock or distance function answers is a parameter.

`dafny verify dfyconfig.toml` takes the whole project.

Where the code does less than its own comments or tests suggest, the model follows the
code, and the gap is a lemma with the exact condition:

- A ROLLBACK that fails is swallowed (`src/config/database.js:94-99`). If it leaves its
  transaction open, every later BEGIN is refused and nothing is ever committed again; a BEGIN meets an
  open transaction exactly then (`Approval.NestedExactlyWhenStuck`, `Approval.StuckExactlyAfterFailedRollback`,
  `Approval.StuckForGood`, `Approval.RollbackCanStick`).
- The limiters' cleanup keeps five minutes whatever the configured window or lock, so it is
  invisible exactly up to that length (`RateLimiter.CleanupHarmlessExactly`, `PhoneLimiter.CleanupInvisibleExactly`).
- A timeout or a rejection reads a trip as waiting and acts on that later. If no handler makes this check while another one
  may still ask, or while somebody else has the offer and is not on the list, nobody is asked twice and nobody on
  the list is asked (`OfferInterleaving.CarefulRunsAskOnce`); the first check that breaks the rule can make exactly that
  happen (`OfferInterleaving.GoesWrongExactly`), as when a driver's timeout meets his own rejection
  (`OfferInterleaving.ChecksCanBeRisky`). With handlers one at a time it takes a rejection by a driver who does not have
  the offer (`DriverOffers.ForeignRejectionAsksAgain`).
- An accepted trip can be taken over by another driver exactly when a driver of it has put it back to waiting, which the
  status route lets him do (`src/routes/taxi.js:380-389`; `OfferInterleaving.TakenOverExactly`, `OfferInterleaving.TakenTwice`).
- A handler past its check ends an accepted, finished or cancelled trip as `no_driver`, or offers it on; that can happen
  exactly while there is such a handler (`OfferInterleaving.LateHandlersExactly`, `OfferInterleaving.AcceptedTripCanBeLost`).
- A completion that is stored but reported as refused is written over as a failure, and only such a one
  (`JobsInterleaving.FinishedIsRewrittenExactly`, `JobsInterleaving.OverruledOnlyByRefusal`, `JobsInterleaving.CompletionCanBeOverruled`); a
  dead letter reported as refused is stored a second time (`JobsInterleaving.StoredAgainExactly`).
- A service whose start is awaited enters STARTED although a dependency has gone exactly when that one was left down in between
  (`HostInterleaving.EndsJustifiedExactly`, `HostInterleaving.StartedWithoutDependency`); without any new call this can happen exactly when a
  stop or another start of the dependency was under way already (`HostInterleaving.CanLoseExactly`).
- Deleting a settled lock is safe only because the tail is compared first
  (`PromiseChain.CleaningNeedsTheComparison`).
- A reload without changes refreshes the origins of the active snapshot but not of the copy in
  the history, so the newest history entry equals the current snapshot up to origins (`ConfigReload.RunsAreConsistent`).
- Checksums do not protect the end of an audit trail: every prefix of a valid trail is valid
  (`AuditChain.PrefixGood`).

## Model

| member | source | states |
|---|---|---|
| DependencyGraph.BuildDependencyGraph | src/platform/dependencyGraph.js:24-98 | `ok` exactly when names are distinct, every edge resolves and no node reaches itself; the order is then the topological order that is least by registration index, otherwise empty; a duplicate is reported for exactly the names registered twice and a missing dependency for exactly the kernels and names where one dangles; the reported cycle is a real one and exists whenever the graph is cyclic; shutdown order is the reverse |
| DependencyGraph.Register | src/platform/dependencyGraph.js:29-36 | the duplicate issues, registration index and name table in one pass, later registrations replacing earlier ones |
| DependencyGraph.LatestWins | src/platform/dependencyGraph.js:29-36 | index and descriptor of a name are those of its latest registration |
| DependencyGraph.DuplicatesAre | src/platform/dependencyGraph.js:29-36 | the duplicate issues name, in registration order, exactly the descriptors whose name was taken before |
| DependencyGraph.FindMissing | src/platform/dependencyGraph.js:39-45 | an issue for kernel and dependency exactly when a descriptor of that name depends on, or is ported to, that unregistered name |
| DependencyGraph.MissingInOrder | src/platform/dependencyGraph.js:39-45 | these issues come in the order in which their kernels were registered |
| DependencyGraph.UniqueInOrder | src/platform/dependencyGraph.js:19-22 | repeated dependencies and ports count once, where they are listed first |
| DependencyGraph.CheckNames | src/platform/dependencyGraph.js:25-45 | no issue exactly when names are distinct and every dependency and port resolves; otherwise exactly the duplicates and the dangling dependencies |
| DependencyGraph.EdgesExactly | src/platform/dependencyGraph.js:19-22 | a kernel's edges lead to exactly the registered kernels among its dependencies and ports |
| DependencyGraph.CountEdges | src/platform/dependencyGraph.js:49-61 | in-degrees and reverse adjacency count exactly the graph's edges |
| DependencyGraph.InsertByIndex | src/platform/dependencyGraph.js:73-77 | insertion keeps the ready list sorted by registration index |
| DependencyGraph.ReleaseDependents | src/platform/dependencyGraph.js:70-79 | after an emission the counters and the ready list again match what has not been emitted |
| DependencyGraph.Kahn | src/platform/dependencyGraph.js:63-81 | the loop is greedy: it always emits the available node with the least index, until none is available |
| KahnTheory.GreedyIsDependenciesFirst | src/platform/dependencyGraph.js:63-81 | a greedy order lists every node once and after all its dependencies |
| KahnTheory.GreedyIsLeast | src/platform/dependencyGraph.js:47-81 | a complete greedy order is the lexicographically least topological order by index |
| KahnTheory.SameEdgesSameOrder | src/platform/dependencyGraph.js:47-81 | the least order depends only on which edges exist |
| KahnTheory.GreedyOmitsExactlyCycleReaching | src/platform/dependencyGraph.js:83-86 | the loop leaves out exactly the nodes that reach a cycle |
| KahnTheory.StallMeansCycle | src/platform/dependencyGraph.js:83-86 | if a node is left out, the graph of left-out nodes has a cycle |
| DependencyGraph.OrderIgnoresListing | src/platform/dependencyGraph.js:19-22 | the order does not depend on how a descriptor lists its edges or splits them into dependencies and ports |
| DependencyGraph.RegistrationOrderKept | src/platform/dependencyGraph.js:47-81 | a registration order that already respects dependencies is returned unchanged |
| DependencyGraph.CycleSearch.Dfs | src/platform/dependencyGraph.js:107-126 | one node of the three-state search: all it reaches is finished, or a closed walk with distinct inner nodes has been found; ends on the unvisited nodes |
| DependencyGraph.DetectCycle | src/platform/dependencyGraph.js:101-133 | finds a cycle among the given nodes exactly when there is one, and what it returns is one |
| DependencyGraph.DiagnoseStall | src/platform/dependencyGraph.js:83-89 | a stall on distinct names always yields a cycle of un-emitted nodes |
| Graph.CycleIsReal | src/platform/dependencyGraph.js:101-133 | every node of a returned cycle reaches itself |
| Graph.TopologicalIsAcyclic | src/platform/dependencyGraph.js:63-81 | a dependencies-first listing of all nodes proves there is no cycle |
| DependencyResolver.Resolve | src/application/extensions/dependencyResolver.js:18-78 | succeeds exactly when ids are unique, versions fit and no manifest reaches itself; the order puts dependencies first; on a cyclic graph the last error is a real cycle after all other complaints |
| DependencyResolver.LoadOrder | src/application/extensions/dependencyResolver.js:46-73 | the coloured search reports a cycle exactly on cyclic graphs, a real one, and otherwise its post-order is a topological order |
| DependencyResolver.ColourSearch.Dfs | src/application/extensions/dependencyResolver.js:54-70 | one call of the coloured search: everything it reaches is black and ordered, or the path from the grey node is a cycle |
| DependencyResolver.ComplaintsAreExact | src/application/extensions/dependencyResolver.js:19-44 | there is no complaint exactly when the manifests are consistent |
| DependencyResolver.ComplaintsSay | src/application/extensions/dependencyResolver.js:19-44 | each complaint, with its id, dependency, range and version, is made exactly when it is the case |
| DependencyResolver.RequirementEdges | src/application/extensions/dependencyResolver.js:54-64 | edges lead to exactly the known extensions that the latest manifest requires |
| DependencyResolver.LatestWins | src/application/extensions/dependencyResolver.js:19-23 | of manifests with one id the latest counts |
| DependencyResolver.AgreesWithKahn | src/application/extensions/dependencyResolver.js:46-78 | the resolver and the kernel graph accept the same graphs and the same orders |
| Closure.Visitor.Visit | src/deployment/deploymentPlanner.js:123-133 | one recursive visit adds the node and only what it reaches, and closes what it added |
| Closure.Reachable | src/platform/platformBuilder.js:478-490 | visiting the roots collects exactly what some root reaches |
| Closure.KeepOnlyDependenciesFirst | src/deployment/deploymentPlanner.js:50-54 | filtering an order by a closed set keeps dependencies first |
| DeploymentPlanner.ClosureOf | src/deployment/deploymentPlanner.js:123-133 | the closure is the reflexive-transitive dependencies of the target |
| DeploymentPlanner.PlanNodesAre | src/deployment/deploymentPlanner.js:36-40 | the plan's nodes are the services other than the target's namesakes, each once and in the host's order, and then the target |
| DeploymentPlanner.PlanEdges | src/deployment/deploymentPlanner.js:36-40 | edges lead from each of them to the known services it depends on |
| DeploymentPlanner.MakePlan | src/deployment/deploymentPlanner.js:25-83 | on a valid graph the deploy order is exactly the target's dependencies in least order and ends with the target, rollback is its reverse and begins with it, and the two order checks cannot fail; on an invalid one the plan is refused; missing are exactly the declared dependencies that neither a service nor the target provides |
| DeploymentPlanner.NeededEndsWithTarget | src/deployment/deploymentPlanner.js:50-64 | nothing the target needs comes after it, so the restricted order ends with it |
| HostLifecycle.Host.Graph | src/host/hostLifecycle.js:29-48 | the start order is the least topological order of the registered services, or the graph is refused |
| HostLifecycle.Host.StartServices | src/host/hostLifecycle.js:50-68 | services start one by one up to the first failure; each enters STARTED only with all its dependencies STARTED |
| HostLifecycle.Host.StopServices | src/host/hostLifecycle.js:70-90 | every listed service is attempted once; stopped and failed partition the list |
| HostLifecycle.StatesAfterStart | src/host/hostLifecycle.js:50-68 | after a start pass: STARTED before the failure, FAILED at it, untouched after it |
| HostLifecycle.StatesAfterStop | src/host/hostLifecycle.js:70-90 | after a stop pass: STOPPED, or FAILED where the stop threw, untouched elsewhere |
| HostLifecycle.Host.StartAll | src/host/hostLifecycle.js:92-108 | starting, then ready exactly when runtime, graph and every start succeed; otherwise the host has failed with the first of these errors, the service being the first in least order that throws, and only the services before it are STARTED |
| HostLifecycle.Host.Shutdown | src/host/hostLifecycle.js:110-131 | each registered service is attempted exactly once, on a valid graph after all its dependents, whatever throws; if the runtime goes down, `ok` holds exactly when every stop succeeded, and otherwise the call throws |
| HostLifecycle.Host.Register | src/host/host.js:51-67 | on a ready host a service starts only if all its dependencies are STARTED; duplicates change nothing |
| HostLifecycle.Host.Unregister | src/host/host.js:69-81 | the service leaves the registry, stopped if it was started |
| HostLifecycle.Host.Restart | src/host/host.js:94-111 | the log shows a stop attempt of each service after those of its dependents and then the starts in least order up to the first failure; result and states when the graph, the runtime or a service fails |
| HostInterleaving.RegisteredOnce | src/host/host.js:51-67 | a known id changes nothing; a new service is being started if its dependencies are STARTED, and otherwise only joins |
| HostInterleaving.LeavesWhenStopped | src/host/host.js:69-80 | a service leaves the registry at once, or when its stop has ended and it is STOPPED |
| HostInterleaving.EndsJustifiedExactly | src/host/host.js:51-80 | in every run, a start that ends well was begun by a registration that found all dependencies STARTED, and the service enters STARTED with all of them STARTED exactly when none was left down in between |
| HostInterleaving.CanLoseExactly | src/host/host.js:51-80 | without a new call, a service that begins to start can enter STARTED without a dependency exactly when a stop or another start of that dependency is under way |
| HostInterleaving.StartedWithoutDependency | src/host/host.js:51-80 | a run of six moves that ends with a service STARTED and its dependency stopped |
| HostLifecycle.StopEventsJustified | src/host/hostLifecycle.js:70-90 | in reverse start order every stop comes after a stop attempt of each dependent |
| HostLifecycle.RemoveFromRegistry | src/host/hostRegistry.js:82-88 | removing an id keeps list and map of the registry in step |
| PlatformBuilder.SelectKernels | src/platform/platformBuilder.js:478-490 | keeps exactly the requested kernels and what they reach, a closed set |
| PlatformBuilder.CatalogEdges | src/platform/platformBuilder.js:478-490 | a kernel needs exactly the kernels of the catalog among its dependencies and ports |
| PlatformBuilder.ChosenIsWellFormed | src/platform/platformBuilder.js:478-490 | a closed choice of a well-formed catalog is well formed |
| PlatformBuilder.OnlyFactoriesFail | src/platform/platformBuilder.js:305-344 | in dependency order every port and injected service is already composed, so only a factory can fail |
| PlatformBuilder.KernelErrorSays | src/platform/platformBuilder.js:305-344 | a kernel is refused for its first port, else its first injection that is not composed, else for its factory, and composes exactly if there is none |
| PlatformBuilder.ComposeInOrder | src/platform/platformBuilder.js:305-344 | the loop composes everything, or reports the complaint of the first kernel in order that has one: an injection not composed by then, else its own factory |
| PlatformBuilder.PortsAreComposed | src/platform/platformBuilder.js:309-316 | in dependency order no kernel ever misses a port, whatever it injects |
| PlatformBuilder.DeclaredInjectionsCompose | src/platform/platformBuilder.js:318-336 | if injections are declared as dependencies or ports, composition succeeds exactly when no factory fails, and otherwise reports the first that does |
| PlatformBuilder.Compose | src/platform/platformBuilder.js:265-349 | for any catalog and any request: which kernels, which order, and which error: duplicates, then missing dependencies, then a cycle, then the complaint of the first kernel in least order that misses an injection or whose factory fails |
| PromiseChain.RunsAreSound | src/platform/platformContext.js:20-39 | every interleaving keeps: tasks follow the latest earlier task of their key, and the recorded tail is the latest task |
| PromiseChain.MutualExclusion | src/platform/platformContext.js:20-39 | two tasks of one key never run at the same time |
| PromiseChain.RunsAreSerial | src/platform/platformContext.js:20-39 | per key, begins and ends are a prefix of running the tasks one by one in submission order |
| PromiseChain.NeverStuck | src/config/database.js:114-128 | an unfinished key always has a task that is running or may start, whether predecessors succeeded or failed |
| PromiseChain.EveryTaskCanEnd | src/config/database.js:114-128 | after every run every unfinished task can still begin, and then succeed or fail |
| PromiseChain.CleanKeepsSound | src/routes/admin.js:215-228 | deleting a settled tail never breaks the chain |
| PromiseChain.CleanForgetsExactly | src/routes/admin.js:223-226 | it forgets a key exactly when the settled task is its latest, and touches no other |
| PromiseChain.CleaningNeedsTheComparison | src/routes/admin.js:224-226 | without the comparison two tasks of one phone can run together |
| PromiseChain.Mutex.RunExclusive | src/platform/platformContext.js:23-33 | queues the callback behind its key's tail and becomes the tail |
| PromiseChain.Mutex.Forget | src/routes/admin.js:223-226 | drops the tail only while it belongs to the settled task |
| AuditChain.Verify | src/application/audit/auditService.js:151-187 | accepts exactly the valid chains, and reports exactly the wrong checksums, broken links and gaps, each under its record's id and sequence |
| AuditChain.ValidChainSays | src/domain/audit/record.js:29-50 | a valid chain counts from zero, hashes every record and links it to the one before, the first to 64 zeros |
| AuditChain.Reconcile | src/application/audit/auditService.js:258-279 | `lastGoodSequence + 1` is the length of the longest valid prefix; the break is the record after it; no break exactly when `verify` accepts |
| AuditChain.SameTipSameTrail | src/domain/audit/record.js:29-50 | with an injective checksum two accepted chains ending in the same checksum are identical |
| AuditChain.PrefixGood | src/application/audit/auditService.js:258-279 | a record is as good in a prefix as in the whole, so a prefix of a valid chain is valid |
| AuditChain.AppendedIsValid | src/application/audit/auditService.js:93-98 | a record created from the tail extends a valid chain |
| AuditChain.TrailsStayValid | src/application/audit/auditService.js:53-118 | under every interleaving of `record` calls, failing ones included, each namespace holds a valid chain of its calls' records in call order, with every successful call among them |
| AuditChain.AcceptedCallsHaveActions | src/application/audit/auditService.js:82-85 | in every run only calls with an action have been accepted |
| AuditChain.EveryActionCanBeRecorded | src/application/audit/auditService.js:82-118 | after every run a call with an action can be made for any namespace and succeed, its record then being the last of the namespace |
| Approval.StatusIsReplayOfLog | src/routes/admin.js:233-460 | in every run a driver's status is the replay of the approval log, and neighbouring entries of a driver target different statuses |
| Approval.StatusFollowsLastDecision | src/routes/admin.js:233-460 | in every run a driver is approved, rejected or suspended as the last logged decision about him says, or as he was at the start |
| Approval.LoggedExactlyOnce | src/routes/admin.js:245-260 | a request is in the log exactly when it was answered without a conflict, and once |
| Approval.OnePerPhone | src/routes/admin.js:215-228 | at most one request per phone is inside the driver lock |
| Approval.OneInTransaction | src/config/database.js:104-131 | at most one request is between its first BEGIN and the end of its transaction |
| Approval.RunsAreOrderly | src/config/database.js:68-131 | every interleaving keeps locks, transaction and books in step, and no body runs twice |
| Approval.SweepForgetsExactly | src/routes/admin.js:223-226 | the clean-up after a request forgets its phone exactly if no later request has asked for it |
| Approval.NestedExactlyWhenStuck | src/config/database.js:68-103 | a BEGIN is issued inside an open transaction exactly when a ROLLBACK has left one open |
| Approval.StuckExactlyAfterFailedRollback | src/config/database.js:94-99 | that state is entered exactly by a failing ROLLBACK |
| Approval.StuckForGood | src/config/database.js:94-99 | from then on every BEGIN is refused and the committed data never changes |
| Approval.RollbackCanStick | src/config/database.js:88-99 | such a run exists |
| Approval.NeighboursDiffer | src/domain/drivers/driverPolicies.js:17-46 | in a legal log consecutive entries of a driver never target the same status |
| Approval.ReactivatedAfterRefusal | src/routes/admin.js:434-453 | a driver is reactivated only after a rejection or a suspension |
| Approval.ObjectionExactly | src/domain/drivers/driverPolicies.js:17-46 | a request conflicts exactly if it would change nothing or would skip a pending review |
| Approval.ConflictNamesStatus | src/domain/drivers/driverPolicies.js:17-46 | the conflict names the status that the driver has |
| Approval.OnlyBusyIsRetried | src/config/database.js:72-92 | a BEGIN refused for another reason is final at once; exactly a successful one starts the body |
| Approval.SomeoneCanMove | src/config/database.js:114-131 | while a request is unanswered some request can move: no deadlock between the two locks |
| Approval.MoveIsProgress | src/config/database.js:68-103 | every move brings a request nearer to its answer; BEGIN is retried boundedly often |
| Approval.AllCanBeAnswered | src/config/database.js:68-131 | from every reachable state all pending requests can be answered within a stated number of moves |
| Approval.EveryDecisionCanBeMade | src/routes/admin.js:233-460 | from every reachable state whose connection is not stuck, any decision about any driver with an acceptable reason can be asked for and is then written and logged, or meets the objection to the driver's status |
| Approval.AskedExactly | src/routes/admin.js:281-290 | a request is taken on exactly for a known driver, refusals and suspensions with a reason of 5 to 500 characters |
| Approval.BusyTenTimes | src/config/database.js:68-86 | a busy BEGIN is tried again ten times, and the next failure is final |
| Approval.EveryScheduleAnswers | src/config/database.js:68-131 | whatever the schedule and the database's answers, the requests at hand make at most a stated number of moves, and exactly when none can move has every one been answered |
| Approval.MovesAreBounded | src/config/database.js:68-131 | the same bound with requests still arriving: each adds the moves of one request |
| Job.BackoffIsGeometric | src/domain/jobs/retryPolicy.js:36-45 | delays grow by the factor from the base delay, never shrink, and stop at the cap |
| Job.RetriedExactlyAfterBackoff | src/application/jobs/jobsService.js:244-280 | a failed job is due again exactly if attempts are left and its delay has passed |
| Job.CompletedExactlyInTime | src/application/jobs/jobsService.js:286-335 | an execution completes exactly when a handler exists and returns within the timeout |
| Job.DueFromThenOn | src/application/jobs/jobsService.js:376-381 | a pending job becomes due at one time, not before, and stays due |
| Job.DueOnlyInTime | src/application/jobs/jobsService.js:376-381 | only pending jobs are due, a scheduled or retrying one only once its time has come |
| Job.RecoveredExactly | src/application/jobs/jobsService.js:351-367 | an unfinished execution is given up exactly when its timeout has passed, and no other job is |
| JobsService.Service.Enqueue | src/application/jobs/jobsService.js:191-212 | refusals change nothing, a recorded idempotency key or a live duplicate returns the existing job, otherwise one queued job is filed; the books stay consistent |
| JobsService.Service.Schedule | src/application/jobs/jobsService.js:214-242 | the same for a job at a given time or after a delay, and an error without either |
| JobsService.Service.Create | src/application/jobs/jobsService.js:146-188 | the order of the checks, and which of them use up a sequence number or change the bucket |
| JobsService.Service.FindRival | src/application/jobs/jobsService.js:171-186 | the bucket finds a live job with the de-duplication key exactly if there is one |
| JobsService.Service.Cancel | src/application/jobs/jobsService.js:399-414 | cancels exactly the jobs that are neither over nor running |
| JobsService.Service.RunJob | src/application/jobs/jobsService.js:282-336 | a pending job goes through one attempt and, if it completes, is recorded under its idempotency key; any other is left alone |
| JobsService.Service.Recover | src/application/jobs/jobsService.js:351-367 | exactly the running jobs past their timeout become failures, and are counted |
| JobsService.TimedOutAreGivenUp | src/application/jobs/jobsService.js:351-367 | the summary counts exactly the jobs that the recovery pass takes out of the running state |
| JobsService.Service.CollectDue | src/application/jobs/jobsService.js:369-383 | collects exactly the due jobs, each once |
| JobsService.SortDue | src/application/jobs/jobsService.js:384 | a permutation in strictly decreasing precedence: priority, then age |
| JobsService.Service.Tick | src/application/jobs/jobsService.js:339-396 | every job is recovered and, if due, run exactly once in precedence order; all completed jobs are recorded under their idempotency keys and no other record changes; `processed` is completed plus retried plus dead-lettered |
| JobsService.OneLiveJobPerKey | src/application/jobs/jobsService.js:171-186 | at most one live job per namespace and de-duplication key |
| JobsService.PersistKeeps | src/application/jobs/jobsService.js:114-117 | a state change of a live job, its completion being recorded, keeps index, listing, buckets, idempotency records and numbering right |
| JobsService.CompleteKeeps | src/application/jobs/jobsService.js:317-321 | ending a job and recording its idempotency key keeps the recorded keys those of the completed jobs |
| JobsService.RecordedExactly | src/application/jobs/jobsService.js:155-163 | at any time a key is recorded exactly when some completed job of the namespace carries it |
| JobsService.DoneWorkIsRecalled | src/application/jobs/jobsService.js:155-163 | a request with the key of a completed job is answered with a completed job of that key, and changes nothing |
| JobsService.FiledExactly | src/application/jobs/jobsService.js:146-188 | a job is filed exactly for a known type with a valid policy when neither its work is done nor a live job stands for it |
| JobsService.LiveWorkIsNotFiledTwice | src/application/jobs/jobsService.js:171-186 | while a job lives, a request with its de-duplication key is answered with that very job |
| JobsService.FiledUnderItsKeys | src/application/jobs/jobsService.js:163-188 | a filed job has the keys, type and status it was asked for, no attempts and a number of its own |
| JobsService.AskedTimeoutHolds | src/application/jobs/jobsService.js:163-169 | a new job completes exactly within the timeout of its spec, or else of its type |
| JobsService.AskedPriorityDecides | src/application/jobs/jobsService.js:163-169 | a new job runs before another exactly if its spec, or else its type, gives it more priority, or as much and it is older |
| JobsService.AskedTimeDecides | src/application/jobs/jobsService.js:376-381 | a new job is due from the time it was asked for on, and at once without one |
| JobsService.PendingJobsComeDue | src/application/jobs/jobsService.js:376-381 | no pending job is forgotten: each is due from some time on |
| JobsService.AskedPolicyDecides | src/application/jobs/jobsService.js:163-169 | its first failure is retried as the policy of its spec, or else of its type, says |
| JobsService.OverForGood | src/application/jobs/jobsService.js:282-285 | no tick touches a job that is over, so a recorded completion stays |
| JobsService.LateTicksUseAttempts | src/application/jobs/jobsService.js:244-336 | after n late ticks a job is over or has used n attempts and may try again |
| JobsService.EveryJobEnds | src/application/jobs/jobsService.js:244-396 | with at most K attempts allowed, K late ticks complete or dead-letter a pending job |
| JobsService.Service.TickRepeatedly | src/application/jobs/jobsService.js:339-396 | a series of ticks takes every job of the service where its own series takes it; if K ticks find every job late and no job allows more than K attempts, all that were pending are completed or dead-lettered |
| JobsService.GivenUpOnlyAtTheEnd | src/application/jobs/jobsService.js:244-280 | over any ticks a job never uses more attempts than allowed, and is dead-lettered only with all of them used |
| JobsService.AsManyAttemptsAsAsked | src/domain/jobs/job.js:93-100 | without a retry policy a new job makes at most as many attempts as its spec, or else its type, or else the default of one allows; that many late ticks end it, and it is given up only after exactly that many |
| JobsService.EndingsAddUp | src/application/jobs/jobsService.js:385-394 | every execution completes, is retried or is dead-lettered |
| JobsInterleaving.RunsAreCoherent | src/application/jobs/jobsService.js:78-90 | in every interleaving of ticks, recoveries, cancels and writes that are refused with or without effect, the job a task holds is the stored one, one step further |
| JobsInterleaving.OneHandlerPerJob | src/application/jobs/jobsService.js:282-336 | a job is in at most one handler at a time |
| JobsInterleaving.WritesFollowTheLife | src/application/jobs/jobsService.js:244-336 | short of overruling a completion, every write takes a job from pending to running or cancelled, or from running to completed, retrying or dead-lettered, or repeats a retry |
| JobsInterleaving.FinishedIsRewrittenExactly | src/application/jobs/jobsService.js:282-336 | the status, attempts and times of a completed, cancelled or dead-lettered job can change exactly when it is a completion whose task still holds a failure to write |
| JobsInterleaving.FinishedStays | src/application/jobs/jobsService.js:282-336 | otherwise they never change, whatever follows |
| JobsInterleaving.StoredAgainExactly | src/application/jobs/jobsService.js:330-333 | a finished job can be stored again, changed or not, exactly while a task holds an end of its execution |
| JobsInterleaving.WhatIsStoredAgain | src/application/jobs/jobsService.js:330-333 | that end is the failure over a completion, or the dead letter that is stored already |
| JobsInterleaving.OverruledOnlyByRefusal | src/application/jobs/jobsService.js:317-333 | such a task has had its completion stored and reported as refused |
| JobsInterleaving.CompletionCanBeOverruled | src/application/jobs/jobsService.js:317-333 | a run in which a stored completion becomes a dead letter |
| JobsInterleaving.DeadLetterCanBeStoredAgain | src/application/jobs/jobsService.js:330-333 | a run in which a stored dead letter is about to be stored again |
| JobsInterleaving.HandlerCallsBounded | src/application/jobs/jobsService.js:244-280 | a handler is called at most as often as the policy allows attempts |
| JobsInterleaving.ActsOnWhatItFinds | src/application/jobs/jobsService.js:282-414 | under its lock an execution starts a pending job, a recovery fails a running one and a cancellation cancels a pending one; otherwise nothing happens |
| JobsInterleaving.StoresWhatItHolds | src/application/jobs/jobsService.js:114-117 | a write stores what the task holds unless it is lost, and nothing else is stored |
| JobsInterleaving.EveryTaskCanFinish | src/application/jobs/jobsService.js:78-90 | after every run every task can still be brought to its end |
| JobsInterleaving.EndsAsWritten | src/application/jobs/jobsService.js:282-336 | a task succeeds unless its last write was refused, and only the end of a handler is written twice |
| RateLimiter.Limiter.Handle | src/middleware/rateLimiter.js:59-95 | with a window of at most five minutes a request is allowed exactly if fewer than the allowed number of its client's requests came within the window before it |
| RateLimiter.Limiter.Sweep | src/middleware/rateLimiter.js:184-193 | the cleanup prunes every list and drops the empty ones |
| RateLimiter.StoredIsHistory | src/middleware/rateLimiter.js:59-95 | within the window the stored times are the whole history |
| RateLimiter.AllowedExactly | src/middleware/rateLimiter.js:59-95 | the same for what is stored after any run of requests and cleanups |
| RateLimiter.CleanupHarmlessExactly | src/middleware/rateLimiter.js:184-193 | no cleanup schedule can change a decision exactly when the window is at most five minutes or nothing is allowed anyway |
| RateLimiter.WindowBound | src/middleware/rateLimiter.js:59-95 | no stretch of one window's length holds more than the allowed number of accepted requests |
| PhoneLimiter.Limiter.Attempt | src/middleware/rateLimiter.js:106-168 | an attempt passes or is refused as the record says; the record and the saved row are right, and the stated wait is the least number of seconds after which the lock is over |
| PhoneLimiter.Limiter.Cleanup | src/middleware/rateLimiter.js:194-206 | drops exactly the idle records and the rows of locks that are over |
| PhoneLimiter.Limiter.Restart | src/middleware/rateLimiter.js:30-49 | after a restart exactly the saved locks that are still due are held, with no attempt counted; each ends less than a second early and never late |
| PhoneLimiter.SweptExactly | src/middleware/rateLimiter.js:194-199 | a record is dropped exactly when its lock is over and its period began more than five minutes ago |
| PhoneLimiter.DueRowExactly | src/middleware/rateLimiter.js:200-206 | a saved lock is dropped exactly once it is over |
| PhoneLimiter.LockHolds | src/middleware/rateLimiter.js:114-133 | until its end nothing passes a lock, and neither attempts nor cleanups touch it |
| PhoneLimiter.RefusalLocks | src/middleware/rateLimiter.js:140-150 | the attempt over the limit locks the phone for `lockMs`, whatever else happens meanwhile |
| PhoneLimiter.PassesAgain | src/middleware/rateLimiter.js:135-138 | after any run, more than `lockMs` without an attempt lets the phone in again |
| PhoneLimiter.PassesExactlyUpTo | src/middleware/rateLimiter.js:135-166 | in a fresh period exactly the first `maxAttempts` attempts get through |
| PhoneLimiter.LockEndsExactly | src/middleware/rateLimiter.js:114-142 | a lock ends after `lockMs`, not before and not later |
| PhoneLimiter.CleanupInvisibleExactly | src/middleware/rateLimiter.js:194-199 | no cleanup schedule can change a decision exactly when the lock is at most five minutes or no attempt is allowed |
| PhoneLimiter.TwiceBound | src/middleware/rateLimiter.js:135-166 | no closed stretch of `lockMs` lets more than twice the allowed attempts through |
| PhoneLimiter.ReloadedLock | src/middleware/rateLimiter.js:36-43 | flooring to seconds and back ends a lock less than a second early, never late |
| ConfigReload.FirstLayerWins | src/domain/config/precedence.js:40-71 | a key's value and origin come from the highest layer that has it |
| ConfigReload.NothingInvented | src/domain/config/precedence.js:40-71 | a key that no layer has gets neither value nor origin |
| ConfigReload.Diff | src/application/config/configService.js:177-186 | the changed keys, each once, with old and new value |
| ConfigReload.DiffRebuilds | src/application/config/configService.js:177-186 | applying the reported changes to the old values gives the new ones |
| ConfigReload.RunsAreConsistent | src/application/config/configService.js:213-274 | over any sequence of overlapping reloads versions are 1, 2, 3 and so on, each unlike its predecessor; history is the last `historyLimit` activations; the cache has the current version and values |
| ConfigReload.ActivationIsItsDiff | src/application/config/configService.js:236-259 | the new values are the old ones with the reported changes applied; no changes exactly when the version stays |
| ConfigReload.AcceptedIsInForce | src/application/config/configService.js:213-274 | after an accepted reload its values and origins are in force in snapshot and cache, with a new version exactly if a value changed; a rejected one leaves everything |
| ConfigReload.ConfigService.Reload | src/application/config/configService.js:213-274 | an invalid result changes nothing and rolls back or fails; a valid one activates and reports exactly its differences |
| ConfigReload.ConfigService.SnapshotAt | src/application/config/configService.js:389-399 | finds exactly the retained versions, and what was activated under that number |
| ConfigReload.ConfigService.VerifyCache | src/application/config/configService.js:401-406 | never fails while only reloads write the cache |
| HookBus.OpenExactly | src/application/extensions/hookBus.js:83-100 | the breaker is open exactly while the last of at least `threshold` failures in a row is more recent than the cooldown |
| HookBus.Bus.Run | src/application/extensions/hookBus.js:105-147 | handlers run in order up to the first veto; each is skipped, called or failed by its own breaker and call; cancelled exactly by a veto |
| HookBus.OnlyVetoesCancel | src/application/extensions/hookBus.js:105-147 | failures, timeouts and observational hooks never cancel, and every handler gets its turn |
| HookBus.ReportSays | src/application/extensions/hookBus.js:105-147 | each handler is reported skipped exactly while its extension's failure streak is long and recent enough, else succeeded, or failed with its message or a timeout |
| HookBus.VetoSays | src/application/extensions/hookBus.js:105-147 | cancelled exactly if the last handler, called on a `Before` hook, asked for it; the reason is its own or names its extension |
| HookBus.TurnsAreRecorded | src/application/extensions/hookBus.js:88-98 | a called handler leaves one outcome, at the time it ended; a skipped one none |
| HookBus.Bus.Register | src/application/extensions/hookBus.js:62-74 | a handler joins at the end of a known hook |
| HookBus.Bus.RemoveExtension | src/application/extensions/hookBus.js:76-81 | every hook loses exactly the extension's handlers and its breaker is forgotten |
| HookBus.Bus.RecordOutcome | src/application/extensions/hookBus.js:88-98 | the breaker follows the history of outcomes |
| DriverOffers.FindNearestDriver | src/services/driverMatcher.js:52-81 | the first among the nearest rows of approved drivers who are online with their taxi and not excluded, or the first such row without a position; nobody only if there is none |
| DriverOffers.PassesOnToChoice | src/services/driverMatcher.js:119-157 | a timeout or rejection puts its driver on the list of a waiting trip, and the choice among the others gets the offer; only if nobody is left the trip ends |
| DriverOffers.RequestGoesToChoice | src/routes/taxi.js:116-129 | a new trip goes to the choice among all, and waits if there is nobody |
| DriverOffers.CancelledExactly | src/routes/taxi.js:360-379 | every trip can be cancelled except a completed one and one that ended without a driver |
| DriverOffers.NeverOfferedToRejected | src/services/driverMatcher.js:119-149 | handled one at a time, no move offers the trip to a driver in its rejected list |
| DriverOffers.NobodyAskedTwice | src/services/driverMatcher.js:119-149 | timeouts and own rejections, handled one at a time, ask no driver twice, so at most every driver once |
| DriverOffers.SearchEnds | src/services/driverMatcher.js:136-157 | after as many of those as there are drivers a trip that was offered is `no_driver` |
| DriverOffers.ForeignRejectionAsksAgain | src/routes/taxi.js:138-163 | handled one at a time, a rejection can repeat an offer exactly when it comes from a driver without the offer |
| DriverOffers.Matcher.PassOn | src/routes/taxi.js:153-172 | the driver is out, the next one is asked, or the trip ends |
| DriverOffers.Matcher.TimeoutFires | src/services/driverMatcher.js:119-157 | a timeout passes a waiting trip on and otherwise only ends |
| DriverOffers.Matcher.RejectBy | src/routes/taxi.js:138-173 | a rejection stops the timer and passes a waiting trip on, and is refused otherwise |
| DriverOffers.Matcher.AcceptBy | src/repositories/TripRepository.js:215-220 | the conditional update changes one row or none |
| OfferInterleaving.CarefulRunsAskOnce | src/services/driverMatcher.js:119-161 | with every await interleaved: while no check is risky, no driver is asked twice, at most every driver is asked once, and no handler is about to ask a rejected one |
| OfferInterleaving.GoesWrongExactly | src/routes/taxi.js:138-173 | after careful checks, the next check can lead to a repeated offer or one to a rejected driver exactly when another handler may still ask or somebody not on the list has the offer |
| OfferInterleaving.ChecksCanBeRisky | src/routes/taxi.js:138-173 | a run in which a driver's timeout and his own rejection lead to a repeated offer |
| OfferInterleaving.TakenOverExactly | src/repositories/TripRepository.js:215-220 | another driver can take an accepted trip exactly when a driver of it had it put back to waiting and it has waited since |
| OfferInterleaving.DriverLostWhenOpenAgain | src/routes/taxi.js:245-276 | whenever a trip has lost its driver, an acceptance took it while it was open again |
| OfferInterleaving.AskedExactly | src/routes/taxi.js:223-389 | who may ask for which status: a passenger or the trip's driver to cancel a trip that has not ended, its driver alone for waiting, arrived, in progress and completed |
| OfferInterleaving.ChangesComeFromDriver | src/routes/taxi.js:277-389 | every status change under way but a cancellation was asked for by the trip's driver of that moment |
| OfferInterleaving.TakenTwice | src/routes/taxi.js:380-389 | a run of four moves in which a second driver takes an accepted trip |
| OfferInterleaving.LateHandlersExactly | src/services/driverMatcher.js:119-157 | without a status change, a trip that no longer waits is set to `no_driver`, or offered on, exactly when some handler is past its check |
| OfferInterleaving.AcceptedTripCanBeLost | src/services/driverMatcher.js:119-157 | a run that leads to an accepted trip which a late timeout can end or offer on |
| OfferInterleaving.LateCheckLeavesNoTrace | src/services/driverMatcher.js:119-124 | a timeout or rejection that finds the trip no longer waiting leaves no trace in anything that follows |
| OfferInterleaving.FiresOnce | src/services/driverMatcher.js:121-124 | each timer wakes one handler at most, with the driver it was set for |
| OfferInterleaving.AcceptanceStopsTimer | src/routes/taxi.js:272-276 | after an acceptance the timeout of the latest offer can no longer fire |
| OfferInterleaving.RejectionStopsTimer | src/routes/taxi.js:150-154 | a rejection stops exactly the latest timer, a timeout none |
| OfferInterleaving.AloneIsAtomic | src/services/driverMatcher.js:119-157 | a handler whose moves follow each other without a gap does what the one move of the sequential model does |

## Left out

- HostLifecycle.Host.StartAll: only `register` and `unregister` are interleaved at their awaits, in HostInterleaving; service contract validation, health and verification reports, events and metrics are left out.
- PlatformBuilder.Compose: option merging, scoping of the context and lifecycle registration are left out; a kernel that exposes no service counts as a failing factory.
- DeploymentPlanner.MakePlan: the version and resource checks of other kernels are two Boolean inputs.
- DependencyResolver.Resolve: the semver and compatibility checks are parameters.
- PromiseChain.RunsAreSerial: microtask order between different promises is not modelled; any task whose turn has come may start next.
- AuditChain.TrailsStayValid: assumes that an append takes effect, if at all, before its promise settles and that the tail read is the last stored record; the checksum is a parameter that never yields the empty string, and query, snapshot, events and metrics are left out.
- Approval.RunsAreOrderly: other statements on the shared SQLite connection, a COMMIT that reports an error after succeeding, the PostgreSQL adapter, session revocation after a suspension, the driver `toggle` endpoint and the start-up migration are left out; the use-case path in src/application/drivers/useCases.js takes the same steps and has no separate model.
- JobsService.Service.Tick: provider writes succeed and handlers do not call the service; job ids are fresh and not empty, a caller-supplied attempt count is left out, and a spec key that is present but undefined counts as absent; the index lists jobs in one insertion order instead of per namespace, which no result depends on.
- JobsService.EveryJobEnds: jobs already running are excluded, since a running job without a timeout is never recovered.
- JobsInterleaving.FinishedStays: a record's history, failure reason and time, version and checksum are not modelled; storing a dead letter again changes only these, and JobsInterleaving.StoredAgainExactly says when that happens.
- JobsInterleaving.RunsAreCoherent: de-duplication, idempotency and the due times are not part of the interleaved model.
- RateLimiter.Limiter.Handle: deriving the client key from headers is left out, and the clock never runs backwards.
- PhoneLimiter.Limiter.Attempt: saving a lock succeeds at once, and one instance owns the records.
- ConfigReload.ConfigService.Reload: provider loading with timeouts and last-known-good values, the coalescing of queued reloads, watchers, events and redaction are left out; values are compared as primitives, and the layers arrive assembled.
- HookBus.Bus.Run: no other run is interleaved with this one; the breaker's history in HookBus.OpenExactly is over outcomes in any order.
- DriverOffers.SearchEnds: handlers run one at a time, and the trip gets no other status meanwhile.
- OfferInterleaving.CarefulRunsAskOnce: writing an offer and starting its timer are one move; database errors, the admin's cancellation, the start-up sweep of old trips, sockets and push messages are left out; the use-case path in src/application/trips/useCases.js has no separate model.
- Left out entirely: HTTP and socket plumbing, JWT, SHA-256, distances, fares and payments, backups, logging, thin ports and adapters.
