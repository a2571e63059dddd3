# Service orchestration kernel, modelled in Dafny

This project models the core of a small service-orchestration library. An `Environment`
holds services that declare dependencies on one another. Each service is wrapped in a
`ServiceController` that tracks which of its dependencies have not started yet. A
`ServiceGraph` records the dependency edges and rejects a dependency that closes a cycle.

Starting the environment works like this:
- Only the services without dependencies are started directly.
- Every other service starts once its last dependency announces that it started.
- The start resolves once every service has registered its metadata in the shared context.
- The first failed start stops everything, then rejects the start.

Stopping the environment issues the stop of every controller at once, in shutdown order (dependents before their dependencies), and never fails as a whole. A controller with no start in flight acts at once. One whose start is in flight waits for that start to settle, so its stop may come after the stop of one of its dependencies.

## How the model is built

- **Values and classes.** `Orchestration` describes the environment as a value (`EnvState`). Each step of registration, startup and shutdown is a function on that value. The classes (`Controller.ServiceController`, `Env.ServiceGraph`, `Env.Environment`) keep the source's mutable fields. Each method is proved to perform exactly one of these steps: `Abs() == Orchestration.X(old(Abs()))`. `Startup`, `Shutdown` and `Registration` prove the properties of the steps.
- **Per-controller rules.** `Lifecycle` holds the rules for one controller as a value. `ServiceController.View()` ties the class to it.
- **Asynchrony.** A service start is split in two:
  - the call, after which the controller is `Starting` (the source's pending `startPromise`);
  - its settlement: `Resolve` during startup, the awaited start inside `StopOne` during shutdown.

  During startup the settlement order is left open. `Environment.StartAndAwait` delivers the settlements one at a time, in whichever order the verifier is given. Its postcondition therefore holds for every schedule. During shutdown the order is fixed, as described next.
- **The concurrent stops of shutdown.** They are issued at once by `Promise.allSettled`. They are modelled as two passes in shutdown order:
  1. controllers without a start in flight, which act at once;
  2. those that wait for their start, which act after those starts settle. The model settles these starts in shutdown order. This is one of the orders `Promise.allSettled` allows, not all of them.

  A ghost stop log records the order in which the services' stop operations are invoked.
- **What the services do.** This comes in as two functions: `startOutcome(x)` (success with metadata, or failure) and `stopOutcome(x)`. `Types.WellBehaved` is the assumption that a service publishes metadata under its own id. The registry count at lib/Environment.ts:64 relies on this.
- **Events.** Events emitted by a controller are returned to the caller, which runs the listeners the source attaches: the startup listeners and the dependents' `onDependencyStarted`. There is one exception. A start can fail while a shutdown waits for it and its startup 'error' listener is still attached. As written, that listener then runs a second shutdown (lib/Environment.ts:52-56). The model's shutdown detaches the listener and rejects the startup, but runs no second shutdown. `Orchestration.StopNestedAsWritten` models the source's behaviour; see Findings.
- **The context.** The two files use different context types. The controller calls `ctx.register` and reads `ctx.shuttingDown`. The environment's context has only `name` and a `services` map, and nothing ever sets a shutting-down flag. The model uses one context record following `RuntimeContext` in lib/types.ts: a name, a registry of metadata, and `shuttingDown`.
  - The registration at lib/ServiceController.ts:55 and the one at lib/Environment.ts:63 write the same entry, so the model performs them as one step.
- **The graph.** lib/DirectedGraph.ts is not part of this model. `DirectedGraph` is a small graph over service ids written for it:
  - nodes are kept in insertion order;
  - acyclicity is defined by the existence of a topological order found by repeatedly peeling off a node with no remaining dependency;
  - the shutdown order is the reverse of that order.

## Model

| member | source | states |
|---|---|---|
| DirectedGraph.Empty | lib/Environment.ts:85 | a new graph is valid and has no nodes and no edges |
| DirectedGraph.AddNode | lib/Environment.ts:87-89 | the nodes become the old nodes plus n; the edges are unchanged; validity (no duplicate node, edges between nodes) is kept |
| DirectedGraph.AddNodeKeepsAcyclic | lib/Environment.ts:87-89 | adding a node never creates a cycle |
| DirectedGraph.AddEdge | lib/Environment.ts:95-97 | the edge set grows by exactly the new edge; both ends become nodes; the target's dependencies and the source's dependents grow by exactly the other end; no other node's neighbours change |
| DirectedGraph.Roots | lib/Environment.ts:113-115 | contains exactly the nodes without an incoming edge, each once |
| DirectedGraph.ReverseTopologicalSort | lib/Environment.ts:117-119 | for an acyclic graph, returns every node exactly once with each dependent before its dependencies |
| DirectedGraph.AcyclicHasOrder | lib/Environment.ts:101 | an acyclic graph has a topological order covering every node |
| DirectedGraph.OrderMeansAcyclic | lib/Environment.ts:101 | conversely, a graph with a topological order is acyclic |
| DirectedGraph.StuckSet | lib/Environment.ts:101 | when the sort gets stuck, there is a non-empty set of nodes each of which has a dependency inside the set |
| DirectedGraph.ClosedBlocksOrder | lib/Environment.ts:101 | no order respecting the edges can contain such a set, so a stuck sort means no order exists |
| DirectedGraph.MutualDependencyIsCycle | lib/Environment.ts:101-103 | two services depending on each other (or one on itself) make the graph cyclic |
| DirectedGraph.MinimalMember | lib/Environment.ts:104-106 | in an acyclic graph, every non-empty set of nodes has a member none of whose dependencies lies in the set |
| DirectedGraph.AcyclicHasRoot | lib/Environment.ts:113-115 | a non-empty acyclic graph has at least one root to bootstrap |
| Controller.ServiceController.constructor | lib/ServiceController.ts:15-18 | a new controller keeps its service, is idle, has nothing pending, no started dependency and no call made |
| Controller.ServiceController.AddDependency | lib/ServiceController.ts:24-26 | the pending set gains exactly the dependency's id and nothing else changes |
| Controller.ServiceController.OnDependencyStarted | lib/ServiceController.ts:28-42 | the metadata is recorded under its id, which leaves the pending set; the broken-state report fires exactly when the controller is not idle; the start is invoked exactly when the controller was idle, nothing is pending any more and the context is not shutting down; otherwise the phase is unchanged |
| Controller.ServiceController.Start | lib/ServiceController.ts:44-50 | the service's start is invoked exactly when the controller is idle; a started controller and one with a start in flight are left unchanged |
| Controller.ServiceController.CompleteStart | lib/ServiceController.ts:52-65 | a successful start leaves the controller started with the returned metadata and emits 'started' with it; a failed one leaves it idle, with no start in flight, and emits 'error' |
| Controller.ServiceController.Stop | lib/ServiceController.ts:67-89 | an idle controller returns at once without failure; a start in flight is awaited and its event delivered; a failed awaited start is rethrown; otherwise the service's stop is invoked once, and the controller is left idle on success, or started with the stop's error rethrown on failure; never left with a start in flight |
| Lifecycle.StartIdempotent | lib/ServiceController.ts:44-50 | a second start changes nothing; one start leaves the controller starting or started, with at most one more invocation |
| Lifecycle.StopIdleIsNoop | lib/ServiceController.ts:69-71 | stopping an idle controller changes nothing and invokes no stop |
| Lifecycle.Resume | lib/ServiceController.ts:74-82 | a stop that waited for a start invokes the service's stop exactly when that start succeeded, whatever the controller's phase by then; it leaves the controller idle exactly when that stop also succeeds |
| Orchestration.RootSet | lib/Environment.ts:113-115 | exactly the services without a dependency |
| Orchestration.Split | lib/Environment.ts:76 | the services of the shutdown order whose stop acts at once, or those that wait for a start in flight, in shutdown order |
| Orchestration.StopEachListening | lib/Environment.ts:59-62 | a shutdown pass attaches no startup listener; it can only detach them |
| Registration.InitialIsWired | lib/Environment.ts:18-25 | a new environment is consistently wired: no services, an empty acyclic graph |
| Registration.AddServiceWired | lib/Environment.ts:87-89 | adding a service keeps every controller's pending set equal to its dependencies in the graph, and keeps acyclicity |
| Registration.AddDependencyWired | lib/Environment.ts:95-103 | the edge dep→id is added (and dep's node if new); id's pending set gains dep; the error is reported exactly when the new graph is cyclic, and it names both ids |
| Registration.AddDependenciesWired | lib/Environment.ts:31-33 | adding the dependencies one by one keeps every pending set equal to the declared dependencies |
| Registration.AddDependenciesGraph | lib/Environment.ts:31-33 | the dependencies are added in list order until the first one that closes a cycle. With no error, the graph gains exactly one edge per dependency and is acyclic. On error, the error names the first dependency whose edge closes a cycle: the edges of the dependencies before it leave the graph acyclic, and its edge makes it cyclic. The graph gains exactly the edges of the dependencies up to and including that one, so the closing edge stays and later dependencies are not added |
| Registration.RegisterCorrect | lib/Environment.ts:27-34 | registering a service adds its node and one edge per dependency and reports a cycle exactly when one was formed. On error, the error names the first cycle-closing dependency (the earlier edges leave the graph acyclic, its edge makes it cyclic), and only the edges up to and including it are added. Every pending set stays equal to the declared dependencies |
| Registration.SelfDependencyRejected | lib/Environment.ts:101-103 | a service depending on itself is rejected with a cycle error |
| Registration.MutualDependencyRejected | lib/Environment.ts:101-103 | declaring a dependency on one of one's own dependents is rejected with a cycle error naming both |
| Startup.CountMeansComplete | lib/Environment.ts:64 | the registry count equals the number of services exactly when every service is registered |
| Startup.BeginStartHealthy | lib/Environment.ts:48-72 | beginning the startup of a registered acyclic environment starts exactly the services without dependencies and reaches the startup invariant |
| Startup.BeginStartFields | lib/Environment.ts:58-70 | right after the start begins, every service's listeners are attached, nothing is started yet, and the start is settled only for an empty environment |
| Startup.AnnounceHealthy | lib/Environment.ts:60-67 | a successful start keeps the startup invariant and adds exactly that service to the started ones |
| Startup.AnnounceState | lib/Environment.ts:60-66 | after a 'started' event that service's error listener is detached, and the start resolves exactly when every service is started |
| Startup.AnnounceRegistryOk | lib/Environment.ts:63 | the registry holds the metadata of exactly the started services, each under its own id |
| Startup.SuccessKeepsHealthy | lib/ServiceController.ts:52-56 | a settled successful start keeps the startup invariant: pending sets are the unstarted dependencies, a service starts only after all its dependencies, each start is invoked once |
| Startup.InFlight | lib/Environment.ts:104-106 | while the start has not resolved, some start is in flight, so the cascade cannot get stuck |
| Startup.ResolvedMeansComplete | lib/Environment.ts:64-66 | the start resolves exactly when every controller is started, each started once and registered under its own id |
| Startup.StopRollsBack | lib/Environment.ts:52-56 | stopping an environment none of whose services has been stopped leaves no start in flight, stops every service that ever started exactly once, in stop order, and leaves started only those whose stop failed |
| Startup.FailedStartRejects | lib/Environment.ts:52-55 | the first failed start rejects the start with that error before anything is stopped |
| Startup.FailureRollsBack | lib/Environment.ts:52-56 | a failed start rejects the start with its error and rolls the environment back |
| Startup.StopAfterHealthy | lib/Environment.ts:74-79 | stopping during or after a successful startup rolls the environment back as well |
| Startup.HealthyIsAwaiting | lib/Environment.ts:50-71 | a startup under way or resolved satisfies the awaiting invariant |
| Startup.SettleStep | lib/Environment.ts:50-71 | settling any in-flight start keeps the awaiting invariant and the set of services. If the start is still unsettled, there are strictly fewer unstarted services afterwards. If it is rejected, the settled start failed with that error, and the rollback waited for exactly the other starts that were in flight |
| Startup.SuccessProgresses | lib/Environment.ts:60-67 | a successful settlement keeps the startup invariant, adds a started service and keeps the awaiting invariant |
| Startup.FailureConcludes | lib/Environment.ts:52-56 | a failed settlement rejects the start with that start's error, after a rollback that waited for exactly the other starts that were in flight |
| Shutdown.StopOneEffect | lib/ServiceController.ts:67-89 | with shutdown marked, stopping one controller changes that controller exactly as its own stop does, changes no other controller's lifecycle, and logs the service when its stop is invoked |
| Shutdown.StopEachEffect | lib/Environment.ts:76 | stopping the controllers of a sequence in turn stops each of them once and logs their invoked stops in sequence order |
| Shutdown.StopSettles | lib/ServiceController.ts:67-89 | after a stop no start is in flight; the controller is still started exactly when the service's stop was invoked and failed; the stop is invoked at most once; no start is invoked |
| Shutdown.TwoPassEffect | lib/Environment.ts:74-79 | the two passes of shutdown act on every controller exactly as its own stop does |
| Shutdown.TwoPassLog | lib/Environment.ts:74-79 | the stops invoked by the two passes are distinct, in stop order, and exactly those of the started or starting-to-succeed services |
| Shutdown.StopLogGrows | lib/Environment.ts:74-79 | a shutdown appends exactly the invoked stops to the stop log |
| Shutdown.StopsInvokedOrder | lib/Environment.ts:117-119 | the invoked stops come first for the services without a start in flight, and dependents come before their dependencies within each group |
| Shutdown.ShutdownLog | lib/Environment.ts:74-79 | a shutdown invokes the stop of exactly the services that are or become started, once each, in stop order |
| Shutdown.StopShutsDown | lib/Environment.ts:74-79 | after a shutdown no start is in flight and no start was invoked; a controller stays started exactly when its stop failed; the shutdown itself never fails |
| Env.ServiceGraph.constructor | lib/Environment.ts:85 | a new service graph is empty |
| Env.ServiceGraph.GetService | lib/Environment.ts:91-93 | returns the controller registered under the id, if and only if one is |
| Env.ServiceGraph.AddService | lib/Environment.ts:87-89 | adds the controller's node and maps its id to it; other controllers are untouched |
| Env.ServiceGraph.AddDependency | lib/Environment.ts:95-107 | adds the edge dependency→service and the dependency's id to the service's pending set; reports the cycle error exactly when the graph became cyclic, without undoing the edge |
| Env.ServiceGraph.GetServices | lib/Environment.ts:109-111 | the controllers of all nodes, in node order |
| Env.ServiceGraph.GetBootstrapServices | lib/Environment.ts:113-115 | the controllers of exactly the services without dependencies |
| Env.ServiceGraph.GetShutdownSequence | lib/Environment.ts:117-119 | every controller exactly once, each dependent before its dependencies |
| Env.Environment.constructor | lib/Environment.ts:18-25 | the id is the given name when non-empty, otherwise "env-" followed by a generated string; the environment starts empty with an empty registry |
| Env.Environment.GetOrCreateControllerFor | lib/Environment.ts:44-46 | returns the registered controller for the id when there is one, otherwise a fresh idle controller, so each id has at most one controller |
| Env.Environment.AddServiceOf | lib/Environment.ts:29-30 | the service's controller is registered under its id; an existing one is reused |
| Env.Environment.AddDependencyOf | lib/Environment.ts:32 | performs exactly the dependency step of the environment model, including its cycle error |
| Env.Environment.Register | lib/Environment.ts:27-34 | performs exactly the registration step of the model (node, then one edge per dependency in order, stopping at a cycle error) |
| Env.Environment.StartCtrl | lib/Environment.ts:70 | starts one controller and changes no other |
| Env.Environment.StartRoots | lib/Environment.ts:70 | starts exactly the services without dependencies |
| Env.Environment.Attach | lib/Environment.ts:58-68 | every service gets the startup listeners |
| Env.Environment.BeginStart | lib/Environment.ts:48-72 | performs exactly the corrected start step of the model |
| Env.Environment.NotifyCtrl | lib/Environment.ts:104-106 | delivers one dependency-started notification to one controller |
| Env.Environment.NotifyDependents | lib/Environment.ts:104-106 | delivers the notification to exactly the dependents of the service |
| Env.Environment.Announce | lib/Environment.ts:60-67 | performs exactly the 'started' step of the model: register, detach, maybe resolve, notify dependents |
| Env.Environment.OnError | lib/Environment.ts:52-56 | performs exactly the 'error' listener step: a still-attached listener detaches and rejects an unsettled start |
| Env.Environment.CompleteCtrl | lib/ServiceController.ts:52-65 | settles one controller's start and returns the event it emits |
| Env.Environment.Settle | lib/Environment.ts:52-67 | performs exactly the model's settlement of one in-flight start during startup |
| Env.Environment.StartAndAwait | lib/Environment.ts:36-72 | for every settlement order, the start resolves exactly when every service's start succeeds; then every service is started once and registered. Otherwise it is rejected with the error of a service `failed` whose start was in flight in a healthy startup `at`. That settlement is the step that ends the startup. Its rollback leaves no start in flight and invokes the stop of every service that ever started exactly once, in stop order, waiting for exactly the other starts in flight in `at` |
| Env.Environment.HaltCtrl | lib/ServiceController.ts:67-89 | stops one controller and returns the event of an awaited start |
| Env.Environment.Halt | lib/Environment.ts:76 | stops one controller and logs its invoked stop |
| Env.Environment.StopOne | lib/Environment.ts:76 | performs exactly the model's stop of one controller, delivering an awaited start's event |
| Env.Environment.StopEach | lib/Environment.ts:76 | performs exactly the model's stops of a sequence of controllers in turn |
| Env.Environment.ShutdownPasses | lib/Environment.ts:76 | splits the shutdown sequence into the stops that act at once and those that wait for a start |
| Env.Environment.Partition | lib/ServiceController.ts:74-77 | the split of a sequence of controllers by whether a start is in flight |
| Env.Environment.StopAsWritten | lib/Environment.ts:74-79 | performs exactly the model of the shutdown as written |
| Env.Environment.Stop | lib/Environment.ts:74-79 | performs exactly the corrected shutdown, which marks the context as shutting down first |
| Findings.PairRegisteredIsWired | lib/Environment.ts:27-34 | the two-service example is consistently wired and acyclic |
| Findings.PairShutdownOrder | lib/Environment.ts:117-119 | its shutdown order stops the dependent first |
| Findings.PairStartingThenStopped | lib/Environment.ts:70-76 | after the start begins only the dependency is starting, and both shutdown variants stop the dependent, then the dependency |
| Findings.ShutdownAsWrittenStartsDependent | lib/Environment.ts:74-79 | as written, stopping while the dependency's start is in flight leaves the dependent starting, with its start invoked and its stop never invoked |
| Findings.IdleStopChangesNothing | lib/ServiceController.ts:69-71 | stopping an idle controller leaves the environment unchanged |
| Findings.AwaitedStartNotifies | lib/Environment.ts:104-106 | an awaited start that succeeds during shutdown still notifies the dependents |
| Findings.ShutdownLeavesDependentIdle | lib/ServiceController.ts:38 | with the context marked as shutting down, the dependent stays idle and its start is never invoked |
| Findings.EmptyStartAsWrittenNeverSettles | lib/Environment.ts:58-70 | as written, the start of an environment without services never settles |
| Findings.EmptyStartResolves | lib/Environment.ts:64-66 | with the completion check also made up front, it resolves at once |
| Findings.LooseShutdownOrder | lib/Environment.ts:117-119 | two services with no dependencies shut down in the reverse of their registration order |
| Findings.LooseStarting | lib/Environment.ts:58-70 | once their startup begins, both starts are in flight and both startup 'error' listeners are attached |
| Findings.FailedWaiter | lib/Environment.ts:52-56 | as written, a waited-for start that fails with its listener still attached issues every stop again: the ones not waiting act, and the waiting ones join the queue |
| Findings.SettledWaiter | lib/ServiceController.ts:74-82 | as written, a second stop waiting on a start that succeeded invokes the service's stop again |
| Findings.ShutdownAsWrittenStopsTwice | lib/Environment.ts:52-56 | as written, stopping two independent services a, b with both starts in flight, where b's fails and a's succeeds, invokes a's stop twice |
| Findings.ShutdownStopsOnce | lib/ServiceController.ts:67-89 | the model's shutdown on the same input invokes a's stop once and b's never |

## Left out

- Logging: every logger call is left out. It has no effect on the state.
- The generated default id: it is a parameter of the constructor (`generated`) rather than a random uuid.
- The event-loop interleaving of promises: `EventEmitter` is replaced by listeners run as synchronous steps in the order the source attaches them. The exception is the second shutdown run by a startup 'error' listener; see Findings. During startup, the order in which starts in flight settle is left open. During shutdown it is fixed to the shutdown order.
- Starting an environment a second time, and registering after starting: no property is proved about these. The `once` listeners of lib/Environment.ts:104-106 are modelled as attached for every startup instead of only the first.
- The broken-state assertion of lib/ServiceController.ts:33-36: it is reported as `violated`, and the controller does not start. In the source the assertion throws and the throw is only logged (lib/Environment.ts:105), and a non-idle controller does not start there either.
- The second 'error' emit in stop's catch (lib/ServiceController.ts:84): it can reach no startup listener, because that listener is attached once and already fired or detached. Stop failures are swallowed by `allSettled` (lib/Environment.ts:76), so the model returns them but nothing observes them.
- The constructor's dependency arguments (lib/ServiceController.ts:17): controllers are created with an empty pending set, as every call site does.
- The real implementation of lib/DirectedGraph.ts, which is not part of this model: `DirectedGraph` above takes its place.
- The demo, examples and test harnesses.
- Startup.FailureRollsBack: its "each ever-started service stopped exactly once" holds for a rollback that runs no second shutdown. As written, a start that fails while the rollback waits for it runs one from its still-attached 'error' listener (lib/Environment.ts:52-56). A stop waiting on a start that then succeeds is invoked twice (see Findings).
- Startup.StopRollsBack: the same gap; the stop counts are those of a shutdown that runs no second shutdown.
- Startup.StopAfterHealthy: the same gap as Startup.FailureRollsBack.
- Startup.FailureConcludes: the same gap as Startup.FailureRollsBack.
- Shutdown.StopOneEffect: a waited-for start's failure only detaches the startup 'error' listener. It does not run the second shutdown that listener runs as written.
- Shutdown.StopEachEffect: each stop is invoked once only because no second shutdown is run; as written, a failing waited-for start runs one (see Findings).
- Shutdown.TwoPassEffect: the same gap as Shutdown.StopEachEffect.
- Shutdown.StopLogGrows: the log covers the model's two passes only, not the stops of a second shutdown run from a startup 'error' listener.
- Shutdown.ShutdownLog: "once each" holds for the shutdown that runs no second shutdown; as written, a stop can be invoked twice (see Findings).
- Shutdown.StopShutsDown: the same gap as Shutdown.ShutdownLog.
- Env.Environment.OnError: the listener detaches and rejects an unsettled start. When it fires during a shutdown, it does not run the second shutdown of lib/Environment.ts:53.
- Env.Environment.StopOne: a failed awaited start goes to the 'error' listener without the second shutdown it runs as written.
- Orchestration.StopAsWritten: the stops that wait for a start act in shutdown order, one of the schedules `Promise.allSettled` allows. That choice, not the source, fixes the order of their invoked stops and which waited-for failure reaches its listener first.
- Orchestration.Stop: the same fixed order of the waiting stops as Orchestration.StopAsWritten.
- Env.Environment.Stop: the same fixed order of the waiting stops as Orchestration.StopAsWritten.
- Env.Environment.StopAsWritten: the same fixed order of the waiting stops as Orchestration.StopAsWritten.
- Orchestration.StopAsWritten: requires an acyclic graph. The source also accepts a stop after a cycle error, because the closing edge stays in the graph. The shutdown order of a cyclic graph is decided by lib/DirectedGraph.ts, which is not part of this model.
- Orchestration.Stop: requires an acyclic graph, for the same reason as Orchestration.StopAsWritten.
- Env.Environment.Stop: requires an acyclic graph, for the same reason as Orchestration.StopAsWritten.
- Env.Environment.StopAsWritten: requires an acyclic graph, for the same reason as Orchestration.StopAsWritten.
- Env.Environment.StartAndAwait: its rollback runs no second shutdown when another start fails while the rollback waits for it (lib/Environment.ts:52-56). As written, that second shutdown can invoke a service's stop twice; see Findings.
- Env.Environment.StartAndAwait: requires a registration that ended without a cycle error, and services that publish metadata under their own id. The source also lets a cyclic graph or a mismatched id reach startup. In that case the registry count at lib/Environment.ts:64 can be off, which this model does not analyse.

## Findings

| source | as written | input that shows it | evidently intended | confidence | as-written member | corrected member |
|---|---|---|---|---|---|---|
| lib/Environment.ts:74-79 | the shutdown never marks the context as shutting down, so the check at lib/ServiceController.ts:38 never fires | b depends on a; a's start is in flight and succeeds while the environment stops | a service whose dependency starts during shutdown is not started; every started service is stopped | not executed | Findings.ShutdownAsWrittenStartsDependent | Findings.ShutdownLeavesDependentIdle |
| lib/Environment.ts:52-56 | the startup's 'error' listener is detached only by 'started' (lib/Environment.ts:62). So a start that fails while a shutdown waits for it runs a second shutdown. That shutdown's stops wait again on the starts still in flight, and the stop of each one whose start succeeds is invoked twice | a and b registered in that order without dependencies, both starts in flight, the environment stopped, b's start fails, a's succeeds | each service's stop is invoked at most once per shutdown | not executed | Findings.ShutdownAsWrittenStopsTwice | Findings.ShutdownStopsOnce |
| lib/Environment.ts:58-70 | the completion check runs only in 'started' listeners | an environment with no registered service is started | the start of an environment with nothing to start resolves | not executed | Findings.EmptyStartAsWrittenNeverSettles | Findings.EmptyStartResolves |

The corrected shutdown is `Orchestration.Stop` (proved in `Shutdown.StopShutsDown`). It marks the context as shutting down, and it runs no second shutdown from a startup 'error' listener; `Orchestration.StopNestedAsWritten` is the source's shutdown with that second shutdown. The corrected start is `Orchestration.BeginStart`. Both are what the rest of the model uses.
