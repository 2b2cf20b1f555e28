# Sagittarius engine: verified model

A Dafny model of six components of the Sagittarius engine, with proofs of what they promise.
`dafny verify dfyconfig.toml` checks all of it.

| component | modules |
|---|---|
| constructor injection (`StdLibContainer`) and the wiring inspector | `Container`, `Constructible`, `Singletons`, `Injection`, `Availability`, `SelfDependence`, `StdLibContainers`, `Graphs`, `Inspector`, `Agreement` |
| extension manager | `StableSort`, `ExtensionOrder`, `EagerOrder`, `ExtensionManagers` |
| trace pipeline: traced dispatch, ring buffer, OpenTelemetry replay | `Records`, `Recorder`, `Interleavings`, `CallRuns`, `Dispatching`, `Middlewares`, `CallTrees`, `Dispatchers`, `Otel`, `Reconstruction` |
| declarative state machine | `StateMachines` |
| scheduler | `JobLives`, `JobRuns`, `Schedulers` |
| event buses | `EventBuses` |

Code that updates state in place is a class or a method with a loop, proved equal to a function of the
old state or to meet a property outright; the theorems are lemmas about those functions.

The main results:

- **The solver decides constructibility.** With bindings and ready instances, `_resolve` succeeds
  exactly on the least fixed point of "ready, or a non-abstract annotated class whose parameters without
  default are constructible", although it cuts off on a shared `resolving` set, swallows failures
  behind defaults, and meets cycles (`Constructible.ResolveDecides`, `ConstructibleUnfolds`,
  `ConstructibleIsLeast`). What it returns is wired as registered (`ResolveWires`).
- **Injection with singletons waiting.** In every state of the stores each parameter gets what its annotation
  resolves to in its turn, a singleton's stored object included, and its default only if that fails
  (`Injection.ConstructorReceives`). Over every run each object handed out is explained by earlier ones, and
  each error names a real obstacle (`EveryObjectIsExplained`, `ErrorsAreTrue`). What can be resolved from the
  registrations alone is; if no singleton depends on itself nothing else is, so history never decides what
  resolves (`Availability.AvailableSucceeds`, `ResolveSucceedsIff`, `HistoryDoesNotMatter`).
- **The inspector agrees with the container.** A container without C1, C2 and C3 finding resolves
  everything registered if and only if its bound classes are non-abstract and annotated; owners of a C1
  finding and abstracts on a C3 cycle raise (`Agreement`).
- **A class singleton is one object** over every run of resolutions, failed ones and rebinding included, if
  it does not depend on itself, however many wait at once (`Singletons.SingletonIsOneObject`). The only one
  waiting is one object over every run if and only if the constructor calls its class sets off never come
  to resolve it again (`SelfDependence.SingletonIsOneObjectIff`); the condition is read from the
  registrations, at any depth, whether the class itself can be built or not.
- **The cycle search is complete** despite its `seen` cut-off (`Inspector.Cycles`).
- **The topological sort** succeeds exactly when nothing is missing and the graph is acyclic, and only
  dependency overrides priority (`ExtensionOrder.BuildAndSort`). Eager initialisation computes a least
  fixed point whatever the order of registration, in passes by priority that only an unmet dependency
  overrides; every operation ends as its hooks do (`EagerOrder`, `ExtensionManagers`).
- **Middlewares mean what the list says**: the first runs around all that follow, the handler runs as often as
  the calls multiply, and behind one that does not call on nothing runs (`Dispatching.ChainMeans`,
  `Middlewares`).
- **Traces are faithful.** Traced dispatch is transparent for any middleware and adds exactly its own
  call tree: one total span without a caller, and every middleware or handler span called by the span
  just outside it. From what any eviction or draining leaves, the replay gives each surviving closed span
  its true caller (`Dispatchers`, `CallTrees`, `CallRuns`, `Otel`, `Reconstruction.ReplayRecorder`,
  `Reconstruction.ReplayDispatches`).
- **The recorder loses nothing it does not count**, under every interleaving (`Recorder`,
  `Interleavings`).
- **Re-entrant dispatch is a fold** of the matrix over the events in order of arrival
  (`StateMachines.DispatchIsFold`).
- **Scheduler**: over every life of a job, with jobs added any number of times and a clock that may step
  back, `max_runs` can never be exceeded if and only if each `add_job` finds the job unlisted with runs to go
  (or dead), and the k-th run of an interval job can never come earlier than k intervals after its creation
  if and only if no `add_job` leaves it off its schedule (`JobLives`). A job scheduled once keeps its interval,
  and its limit exactly when that is at least one; it runs at every first iteration that finds its planned
  time reached, and no later than the pace of the iterations allows (`JobRuns`).
- **No delivery is lost** by the resilient bus over any run if and only if `max_retries >= 0`. Every emit makes
  one pass for each subscribed handler in order, and the outcomes of the calls alone decide what each pass
  calls, how often, and what is parked (`EventBuses`).

Four promises are false in general and have their exact condition:

- one object for a class singleton: broken when building its class resolves the singleton itself, directly
  or deeper, and plain construction answers (`SelfDependence.SingletonIsOneObjectIff`, `DirectRequestIff`);
- `max_runs`: exceeded when a job is added with no run to go, as a limit below one makes every addition,
  or while it is listed (`JobLives.LimitBindsIffAddsRespectIt`, `LimitBindsFromOne`);
- the interval: broken when a finished job is added again with its stale planned run, or a job is listed
  several times, which under a limit takes a planned run before a deadline and without a limit happens in
  any case (`JobLives.RunsKeepTheInterval`, `UnlistedAddStaysOnTimeIff`, `LimitedStaysOnTimeIff`,
  `ListedTwiceFallsBehind`);
- the dead-letter queue: a negative `max_retries` makes no attempt and parks nothing
  (`EventBuses.NoDeliveryIsLostIffRetriesNotNegative`).

## Model

| member | source | states |
|---|---|---|
| Container.FirstUnannotated | sagittarius_engine/infrastructure/container/std_container.py:289-306 | the parameter named in the missing-hint error is unannotated and everything before it is annotated |
| Container.Resolve | sagittarius_engine/infrastructure/container/std_container.py:236-337 | terminates for every finite registration by (factories, classes not in `resolving`); nothing registered or built is lost or replaced, a factory can only have turned into an instance, and a success is on record; what it hands out is said by `Injection` |
| Container.ResolveParams | sagittarius_engine/infrastructure/container/std_container.py:318-337 | the argument loop, with failures swallowed by defaults, changes the stores only in those ways |
| Constructible.ConstructibleUnfolds | sagittarius_engine/infrastructure/container/std_container.py:236-337 | constructibility is a fixed point of the rule: ready, or bound to a non-abstract annotated class with all parameters without default constructible |
| Constructible.ConstructibleIsLeast | sagittarius_engine/infrastructure/container/std_container.py:236-337 | it lies within every set closed under the rule, so it is the least fixed point |
| Constructible.OwnClassIsNotNeeded | sagittarius_engine/infrastructure/container/std_container.py:257-272 | adding the class under construction to `resolving` loses nothing: its parameters are constructible exactly when they are without it |
| Constructible.ResolveDecides | sagittarius_engine/infrastructure/container/std_container.py:236-337 | `_resolve` succeeds if and only if the abstract is constructible without the classes in `resolving`, and leaves instances and factories as they were |
| Constructible.ParamsDecide | sagittarius_engine/infrastructure/container/std_container.py:318-337 | the argument loop succeeds if and only if every parameter without default is constructible |
| Constructible.ResolveWires | sagittarius_engine/infrastructure/container/std_container.py:236-337 | the object returned is the ready instance or has the bound class and arguments wired the same way all the way down; a default stands only where injection was impossible |
| Injection.ArgumentsInTurn | sagittarius_engine/infrastructure/container/std_container.py:318-335 | the argument loop takes the parameters in order, each in the stores the one before has left, and ends with an argument for each or on the first that can neither be resolved nor has a default, which it names |
| Injection.ConstructorReceives | sagittarius_engine/infrastructure/container/std_container.py:257-337 | in any state, an object built has the bound class, a new identity and for every parameter what its annotation resolved to in its turn, or the default if that failed; the argument for a singleton, waiting or stored, is the object stored in the end |
| Injection.ResolveExplains | sagittarius_engine/infrastructure/container/std_container.py:236-337 | a resolution, successful or not, keeps every record explained: an instance from the start, what the class of a waiting singleton was resolved to, or built of the bound class from objects recorded before |
| Injection.EveryObjectIsExplained | sagittarius_engine/infrastructure/container/std_container.py:173-186 | so does any run of resolutions, all the way down the arguments |
| Injection.ErrorsAreTrue | sagittarius_engine/infrastructure/container/std_container.py:257-335 | an error names a chain of required parameters that ends at a real obstacle: a class under construction, no class, an abstract class, or a missing hint |
| Availability.NothingWaiting | sagittarius_engine/infrastructure/container/std_container.py:236-337 | with no singleton waiting, being resolvable is the least fixed point |
| Availability.AvailableSucceeds | sagittarius_engine/infrastructure/container/std_container.py:236-337 | whatever waits, what the registrations say can be resolved is resolved, so such an annotation never gets its default |
| Availability.SuccessWasAvailable | sagittarius_engine/infrastructure/container/std_container.py:89-104 | if no singleton depends on itself, nothing else succeeds or is stored on the way |
| Availability.ResolveSucceedsIff | sagittarius_engine/infrastructure/container/std_container.py:236-337 | then `_resolve` succeeds if and only if the registrations say so |
| Availability.HistoryDoesNotMatter | sagittarius_engine/infrastructure/container/std_container.py:173-186 | then the same abstracts resolve whatever was resolved before, successfully or not |
| Availability.HistoryCanMatter | sagittarius_engine/infrastructure/container/std_container.py:89-104 | with a singleton that depends on itself an abstract can fail at first and resolve after a failed attempt at another |
| Singletons.ResolvingKeepsRegistrations | sagittarius_engine/infrastructure/container/std_container.py:112-186 | any run of resolutions keeps every registered abstract and its lifetime, and `instantiated` only turns true |
| Singletons.RegistrationTellsResolution | sagittarius_engine/infrastructure/container/std_container.py:133-171 | what `registrations()` reports is what a successful resolve does: hands out the instance, turns the waiting singleton into one, or builds anew the class reported or the abstract itself |
| Singletons.StaysWithin | sagittarius_engine/infrastructure/container/std_container.py:236-337 | resolving a member of a set closed under constructor use resolves only members of it |
| Singletons.ResolveKeepsOneObject | sagittarius_engine/infrastructure/container/std_container.py:81-104 | any resolution keeps the invariant that the singleton waits in its factory or is stored, and whoever asked got the stored object |
| Singletons.SingletonIsOneObject | sagittarius_engine/infrastructure/container/std_container.py:81-104 | over any run, with failures and rebinding, all successful resolves of a singleton that does not depend on itself return one object |
| Singletons.AcyclicSingletonsAreSingle | sagittarius_engine/infrastructure/container/std_container.py:81-104 | so on an acyclic constructor graph every class singleton is one object |
| SelfDependence.ResolveHandsOutIff | sagittarius_engine/infrastructure/container/std_container.py:236-337 | a resolution by plain construction hands out a new object for an abstract, successful or not, exactly when `HandsOut` says so: it is that abstract and can be constructed, or the argument loops reach a parameter that hands it out |
| SelfDependence.FactoryHandsOutOne | sagittarius_engine/infrastructure/container/std_container.py:89-104 | if building its class does not resolve the singleton, a run of its lazy factory hands out at most the object it returns and touches no other store |
| SelfDependence.ResolveKeepsSingle | sagittarius_engine/infrastructure/container/std_container.py:81-104 | and any resolution, successful or not, keeps it single: waiting, or stored with everyone holding the stored object |
| SelfDependence.FactoryHandsOutAnother | sagittarius_engine/infrastructure/container/std_container.py:89-104 | if it does, every run of the factory hands out an object it does not return: a successful one makes two, a failed one leaves the registration as it was and so makes another next time |
| SelfDependence.SingletonIsOneObjectIff | sagittarius_engine/infrastructure/container/std_container.py:81-104 | the only class singleton waiting is one object over every run of resolutions if and only if building its class does not resolve the singleton itself |
| SelfDependence.HandedOutIsConstructible | sagittarius_engine/infrastructure/container/std_container.py:236-337 | only an abstract that can be constructed at that point is handed out, at any depth |
| SelfDependence.DirectRequestIff | sagittarius_engine/infrastructure/container/std_container.py:318-337 | for a class that asks for its singleton in a parameter of its own, with nothing missing before it, the condition is that plain construction without the class can answer |
| StdLibContainers.StdLibContainer.Bind | sagittarius_engine/infrastructure/container/std_container.py:59-67 | changes the one binding and no other store |
| StdLibContainers.StdLibContainer.SingletonClass | sagittarius_engine/infrastructure/container/std_container.py:81-104 | registers a lazy factory for the class |
| StdLibContainers.StdLibContainer.SingletonInstance | sagittarius_engine/infrastructure/container/std_container.py:108-110 | stores the instance |
| StdLibContainers.StdLibContainer.Registered | sagittarius_engine/infrastructure/container/std_container.py:133-171 | the dictionary the four loops build holds exactly the registered abstracts, each described by the store that takes precedence: scope registry, instances, factories, bindings |
| StdLibContainers.StdLibContainer.ResolveTop | sagittarius_engine/infrastructure/container/std_container.py:173-186 | `resolve` without an active scope is `Container.Resolve` with nothing under construction |
| StdLibContainers.StdLibContainer.ResolveIn | sagittarius_engine/infrastructure/container/std_container.py:236-268 | result and new stores are those of `Container.Resolve`, and the shared `resolving` set is restored on every exit |
| StdLibContainers.StdLibContainer.Construct | sagittarius_engine/infrastructure/container/std_container.py:270-337 | the same for the construction between `resolving.add` and its `finally` |
| StdLibContainers.StdLibContainer.CachedDependencies | sagittarius_engine/infrastructure/container/std_container.py:280-316 | the dependency cache never changes an answer |
| StdLibContainers.StdLibContainer.LazyFactory | sagittarius_engine/infrastructure/container/std_container.py:89-104 | the factory removes itself, resolves its class with an empty `resolving` set, and is put back exactly on failure |
| StdLibContainers.StdLibContainer.BuildArguments | sagittarius_engine/infrastructure/container/std_container.py:318-337 | the in-place loop meets `Container.ResolveParams` and restores `resolving` |
| Inspector.ConstructorDependencies | sagittarius_engine/extensions/diagnostics/inspector.py:399-411 | exactly the annotated parameters without default |
| Inspector.UnbindableDependencies | sagittarius_engine/extensions/diagnostics/inspector.py:194-259 | exactly the required dependencies that are not registered, C1 for abstract ones and C2 for the rest |
| Inspector.Cycles | sagittarius_engine/extensions/diagnostics/inspector.py:318-363 | a finding if and only if the graph has a cycle; each finding is a closed walk along real edges repeating no inner node; no two have the same node set |
| Inspector.Walk | sagittarius_engine/extensions/diagnostics/inspector.py:334-358 | the recursive walk keeps that, and while nothing is found its `seen` set can be ordered with successors first |
| Inspector.WiringGraph | sagittarius_engine/extensions/diagnostics/inspector.py:320-329 | edges lead from each abstract with a known class to exactly its required dependencies that are classes |
| Inspector.InspectContainer | sagittarius_engine/extensions/diagnostics/inspector.py:161-192 | no finding if and only if nothing required is unregistered and the graph is acyclic; the unbound findings are exactly the true ones and the cycles are real |
| Agreement.RequiredIsEdge | sagittarius_engine/extensions/diagnostics/inspector.py:320-329 | a required dependency that is a class is an edge of the graph searched |
| Agreement.UnbuildableNeedsUnbuildable | sagittarius_engine/extensions/diagnostics/inspector.py:161-192 | without findings, a registered abstract that cannot be built has an edge to another such |
| Agreement.RegisteredIsConstructible | sagittarius_engine/extensions/diagnostics/inspector.py:161-192 | so, the graph being finite and acyclic, every registered abstract can be built |
| Agreement.CleanMeansResolvable | sagittarius_engine/extensions/diagnostics/inspector.py:161-192 | without C1, C2 and C3 finding, every registered abstract resolves if and only if the bound classes in force are non-abstract and annotated |
| Agreement.C1OwnerRaises | sagittarius_engine/extensions/diagnostics/inspector.py:217-236 | whatever is bound to the owner of a C1 finding raises |
| Agreement.C3CycleRaises | sagittarius_engine/extensions/diagnostics/inspector.py:334-353 | every abstract on a reported cycle without a ready instance on it raises |
| Agreement.EdgeNeedsLess | sagittarius_engine/extensions/diagnostics/inspector.py:320-329 | along an edge from a transient registration the depth of construction falls |
| Agreement.CycleRaisesIffNoInstance | sagittarius_engine/extensions/diagnostics/inspector.py:318-363 | all of a reported cycle raises if and only if no ready instance is on it |
| Graphs.OrderedIsAcyclic | sagittarius_engine/kernel/extension_manager.py:184-217 | a graph whose nodes can be listed with successors first has no cycle |
| Graphs.ReturnClosesWalk | sagittarius_engine/extensions/diagnostics/inspector.py:335-336 | a walk that returns to one of its nodes contains a closed walk, the slice of the path |
| StableSort.SortSorts | sagittarius_engine/kernel/extension_manager.py:220-222 | the sort used for priorities and intervals puts no element after one it must precede |
| StableSort.SortStable | sagittarius_engine/kernel/extension_manager.py:220-222 | elements with equal keys keep their order |
| ExtensionOrder.ByPriorityIsStable | sagittarius_engine/kernel/extension_manager.py:219-222 | descending priority, and registration order among equals |
| ExtensionOrder.OrderMatchesIndex | sagittarius_engine/kernel/extension_manager.py:179-182 | the priority list holds exactly the enabled extensions and the dictionary one of them for each of their names |
| ExtensionOrder.IndexHoldsTheLast | sagittarius_engine/kernel/extension_manager.py:182 | of several enabled extensions with one name the last registered is in force |
| ExtensionOrder.UniqueNamesAreInForce | sagittarius_engine/kernel/extension_manager.py:179-182 | with unique names exactly the enabled extensions are in force |
| ExtensionOrder.BuildAndSort | sagittarius_engine/kernel/extension_manager.py:175-226 | succeeds if and only if no required dependency is missing and the graph is acyclic; the error is a true one; the result lists every extension in force once, after all it depends on; and only dependency overrides priority |
| ExtensionOrder.VisitAll | sagittarius_engine/kernel/extension_manager.py:219-226 | the outer loop, for any list of roots that covers the index |
| ExtensionOrder.Visit | sagittarius_engine/kernel/extension_manager.py:188-217 | an error is a real cycle or a real gap; otherwise the list stays ordered, everything appended is reachable from the name, and the name is visited |
| ExtensionOrder.VisitRequired | sagittarius_engine/kernel/extension_manager.py:202-208 | after the loop all required dependencies are visited |
| ExtensionOrder.VisitOptional | sagittarius_engine/kernel/extension_manager.py:210-213 | after the loop all enabled optional dependencies are visited |
| ExtensionOrder.EarnedMeansOnlyDependencyOverrides | sagittarius_engine/kernel/extension_manager.py:219-226 | if A precedes B by priority but follows it in the result, an extension at or before A in priority order transitively depends on B |
| ExtensionOrder.AllOrderedSucceeds | sagittarius_engine/kernel/extension_manager.py:223-226 | a run without error proves that nothing is missing and the graph is acyclic |
| EagerOrder.WaitingByPriority | sagittarius_engine/kernel/extension_manager.py:121-132 | the pending list holds the enabled extensions not initialised, by descending priority and in registration order among equals |
| EagerOrder.PassTakesWhatIsMet | sagittarius_engine/kernel/extension_manager.py:134-173 | a pass takes, in that order, exactly those whose required and optional dependencies are initialised when it reaches them |
| EagerOrder.OnlyUnmetComesLater | sagittarius_engine/kernel/extension_manager.py:117-173 | an extension of higher priority is initialised later only if it still lacked a dependency when its turn came |
| ExtensionManagers.GroundedAndClosedIsEager | sagittarius_engine/kernel/extension_manager.py:134-173 | a sequence grown one satisfied extension at a time until none is left has the least fixed point as its names |
| ExtensionManagers.EagerSetIgnoresOrder | sagittarius_engine/kernel/extension_manager.py:117-173 | that set does not depend on the order of registration |
| ExtensionManagers.ExtensionManager.Register | sagittarius_engine/kernel/extension_manager.py:102-109 | the hooks are called in the eager order until one raises; it succeeds if and only if all of them did, and then exactly the least fixed point is initialised; after a handled failure everything initialised is disposed in reverse, after any other it stays |
| ExtensionManagers.ExtensionManager.CallInitialize | sagittarius_engine/kernel/extension_manager.py:164-167 | ends as the hook does: initialised, or raised with the kind of its exception |
| ExtensionManagers.ExtensionManager.InitializeNext | sagittarius_engine/kernel/extension_manager.py:248-259 | one more extension of an order is initialised, or the order stops there |
| ExtensionManagers.ExtensionManager.DependenciesMet | sagittarius_engine/kernel/extension_manager.py:144-156 | true if and only if every required and optional dependency is initialised |
| ExtensionManagers.ExtensionManager.TryInitializeAvailable | sagittarius_engine/kernel/extension_manager.py:117-173 | goes through the eager order of the waiting extensions, by priority and pass after pass, up to the first hook that raises; ends in dependency order and closed under the eager rule |
| ExtensionManagers.ExtensionManager.InitializePass | sagittarius_engine/kernel/extension_manager.py:134-173 | one pass initialises exactly what it takes, in order, and leaves the rest pending |
| ExtensionManagers.SequenceIsGrounded | sagittarius_engine/kernel/extension_manager.py:134-173 | at every point of the eager order each extension came after all it depends on |
| ExtensionManagers.SequenceCloses | sagittarius_engine/kernel/extension_manager.py:170-173 | the passes end only when nothing that waits can be initialised |
| ExtensionManagers.ExtensionManager.Rollback | sagittarius_engine/kernel/extension_manager.py:332-347 | disposes in reverse order of initialisation and forgets |
| ExtensionManagers.DisposalPlace | sagittarius_engine/kernel/extension_manager.py:332-347 | which extension is disposed at which place: the last initialised first |
| ExtensionManagers.ExtensionManager.InitializeAndStart | sagittarius_engine/kernel/extension_manager.py:228-287 | a failed sort changes nothing; otherwise what the boot order still misses is initialised in that order up to the first hook that raises, it succeeds if and only if none does, a handled failure disposes in reverse all that was initialised, and success starts every extension in force in dependency order |
| ExtensionManagers.ExtensionManager.InitializeRemaining | sagittarius_engine/kernel/extension_manager.py:235-270 | the initialise stage calls each hook left over once, in boot order, up to the first that raises, with rollback if the failure is handled; afterwards all of the order is initialised and in dependency order |
| ExtensionManagers.BootKeepsOrder | sagittarius_engine/kernel/extension_manager.py:235-255 | initialising what is missing in boot order keeps each extension after its required and enabled-optional dependencies |
| ExtensionManagers.NextNeedsMet | sagittarius_engine/kernel/extension_manager.py:235-255 | the next extension of the boot order finds all it depends on initialised |
| ExtensionManagers.GroundedIsInOrder | sagittarius_engine/kernel/extension_manager.py:117-173 | what the eager phase leaves is in dependency order |
| ExtensionManagers.ExtensionManager.StopAndDispose | sagittarius_engine/kernel/extension_manager.py:349-372 | stop then dispose for each sorted extension from last to first, and both lists are emptied |
| ExtensionManagers.TeardownPlace | sagittarius_engine/kernel/extension_manager.py:353-369 | which call comes at which place of the teardown |
| ExtensionManagers.DependentsTornDownFirst | sagittarius_engine/kernel/extension_manager.py:349-372 | every call on a dependent precedes every call on what it depends on |
| Recorder.TraceRecorder.Append | sagittarius_engine/extensions/audit/recorder.py:180-194 | what left plus what is buffered is the capture history; at most one row leaves and is counted as dropped exactly when the buffer was full; every tap gets the row |
| Recorder.TraceRecorder.NotifyTaps | sagittarius_engine/extensions/audit/recorder.py:140-160 | every tap is called in order even if one raises, and failures are counted |
| Recorder.TraceRecorder.Instant | sagittarius_engine/extensions/audit/recorder.py:164-194 | captures one instant row |
| Recorder.TraceRecorder.SpanBegin | sagittarius_engine/extensions/audit/recorder.py:196-230 | captures a begin row with duration 0 and returns its clock reading |
| Recorder.TraceRecorder.SpanEnd | sagittarius_engine/extensions/audit/recorder.py:232-259 | captures an end row whose start is the reading handed back |
| Recorder.TraceRecorder.NextCid | sagittarius_engine/extensions/audit/recorder.py:261-267 | a fresh correlation id, one above the last |
| Recorder.TraceRecorder.Drain | sagittarius_engine/extensions/audit/recorder.py:271-291 | removes the oldest rows in order, up to the limit, none lost |
| Recorder.TraceRecorder.Snapshot | sagittarius_engine/extensions/audit/recorder.py:293-297 | is the history without what was evicted or drained, and consumes nothing |
| Recorder.TraceRecorder.AddTap | sagittarius_engine/extensions/audit/recorder.py:108-120 | subscribes a tap at most once |
| Interleavings.EveryRunConserves | sagittarius_engine/extensions/audit/recorder.py:271-291 | under every interleaving of captures and `popleft` steps, removed rows then the buffer are the history, and `dropped` counts the evictions |
| Interleavings.TapThenSnapshotMissesNothing | sagittarius_engine/extensions/audit/recorder.py:108-120 | a client that taps first and then reads the backlog misses no row not evicted or drained before, under every interleaving |
| Interleavings.SnapshotThenTapCanMiss | sagittarius_engine/extensions/audit/recorder.py:112-117 | the other order can miss one, after any run |
| Dispatching.MiddlewarePipeline.Execute | sagittarius_engine/kernel/middleware_pipeline.py:25-69 | wrapping from last to first calls the chain with the first middleware outermost, and does to the application what the list of middlewares means, with spans or without |
| Dispatching.ChainMeans | sagittarius_engine/kernel/middleware_pipeline.py:47-69 | calling the chain of closures is running the list: the first middleware decides, each time it calls on the others run on its world, and without any the handler runs once |
| Middlewares.FirstRunAroundTheRest | sagittarius_engine/kernel/middleware_pipeline.py:25-69 | order: the middlewares that come first run around all that come later |
| Middlewares.HandlerRunsProduct | sagittarius_engine/kernel/middleware_pipeline.py:47-56 | the handler runs as often as the product of the calls the middlewares make |
| Middlewares.ShortCircuitHidesTheRest | sagittarius_engine/kernel/middleware_pipeline.py:47-56 | behind a middleware that does not call on, neither what comes later nor the handler runs or matters |
| Dispatching.MiddlewarePipeline.Add | sagittarius_engine/kernel/middleware_pipeline.py:21-23 | appends at the end of the chain |
| Dispatching.SpansAreTransparent | sagittarius_engine/kernel/middleware_pipeline.py:72-97 | for any middleware behaviour, calls with spans give the same state, result or error and number of handler calls as without |
| Dispatching.InvokeAppendsCalls | sagittarius_engine/kernel/middleware_pipeline.py:72-97 | calling a chain whose spans carry one correlation id appends a balanced, properly nested word of its rows, also when it raises |
| Dispatching.ChainErases | sagittarius_engine/kernel/middleware_pipeline.py:47-69 | the traced and the untraced branch build the same chain up to spans, all with one correlation id |
| CallTrees.InvokeClosesFrames | sagittarius_engine/kernel/middleware_pipeline.py:72-97 | every span closed while a chain runs is a call of one of its frames, and its caller is the open call of the frame just outside, out to the span that was open before |
| CallTrees.SpannedClosesTree | sagittarius_engine/kernel/middleware_pipeline.py:90-97 | a span around a chain is closed last and is the one call of the outermost frame |
| Dispatchers.TracedChainFrames | sagittarius_engine/kernel/dispatcher.py:98-112 | the frames of a traced dispatch: the total span, one span per middleware from first to last, the handler's span |
| Dispatchers.DispatchTraced | sagittarius_engine/kernel/dispatcher.py:77-114 | the traced dispatch is the chain of total, middleware and handler spans under a fresh correlation id, and does to the application what the middlewares mean |
| Dispatchers.TracedDispatchIsTransparent | sagittarius_engine/kernel/dispatcher.py:77-114 | it does to the application what the plain pipeline does and adds one finished nested run of calls |
| Dispatchers.TracedDispatchAddsItsTree | sagittarius_engine/kernel/dispatcher.py:77-114 | a history of finished dispatches, one per issued id, stays one; the new id's run has exactly one span without a caller, the total span, and every other span is called by the one just outside it |
| Dispatchers.UnissuedIsEmpty | sagittarius_engine/kernel/dispatcher.py:99-99 | a correlation id not issued yet has no calls |
| Dispatchers.DispatchHandler | sagittarius_engine/kernel/dispatcher.py:54-75 | with or without a recorder it does to the application what the middlewares around the handler mean; a traced one adds its call tree |
| Dispatching.ForeignRowsTakePlaces | sagittarius_engine/kernel/dispatcher.py:92-94 | rows of another correlation id leave a chain's run of calls as it was |
| CallRuns.RunIsSound | sagittarius_engine/extensions/audit/recorder.py:196-259 | every recorded history of nested calls is nested in time, and each closed span's caller is the innermost span around it |
| CallRuns.ClosedAreTheEndRows | sagittarius_engine/extensions/audit/recorder.py:232-259 | the closed spans of a run are exactly its rows of positive duration |
| Otel.ParentsWithinGroup | sagittarius_engine/extensions/audit/exporters/otel.py:262-292 | on any group a parent precedes its child in the shared order and is open when the child starts; on distinct nested-or-disjoint intervals it is the smallest span strictly enclosing the child |
| Otel.Sweep | sagittarius_engine/extensions/audit/exporters/otel.py:281-292 | the stack loop keeps exactly that for the spans visited so far |
| Otel.TopIsInnermost | sagittarius_engine/extensions/audit/exporters/otel.py:285-290 | after the pops the top of the stack is the innermost span around the next one |
| Otel.InnermostIsUnique | sagittarius_engine/extensions/audit/exporters/otel.py:266-267 | there is at most one innermost enclosing span |
| Otel.EmitGroup | sagittarius_engine/extensions/audit/exporters/otel.py:193-228 | each span is emitted once with its wall-clock interval, its parent's lookup never fails and points to an earlier span, on nested groups to the innermost one; spans end in reverse; its times are those of its row from the wall-clock epoch |
| Otel.GroupByCid | sagittarius_engine/extensions/audit/exporters/otel.py:106-111 | each correlation id with closed spans is mapped to exactly those, in record order |
| Otel.CountUnclosed | sagittarius_engine/extensions/audit/exporters/otel.py:127-150 | the begin markers in excess of end markers, key by key |
| Otel.OpenKeysBalance | sagittarius_engine/extensions/audit/exporters/otel.py:131-138 | in a recording, begins of a key are its ends plus the spans open with it |
| Otel.ExcessIsOpen | sagittarius_engine/extensions/audit/exporters/otel.py:131-138 | in any suffix, a key's begins exceed its ends by at most the spans open with it |
| Otel.UnclosedNeverOverstated | sagittarius_engine/extensions/audit/exporters/otel.py:127-150 | on any ring snapshot the count never exceeds the number of spans truly open, and equals it when nothing was evicted or drained |
| Reconstruction.SurvivorsAreLaminar | sagittarius_engine/extensions/audit/exporters/otel.py:269-271 | the closed spans left of one correlation id are distinct and nested or disjoint |
| Reconstruction.TrueCallerIsInnermost | sagittarius_engine/extensions/audit/exporters/otel.py:262-292 | the caller, if closed, is the innermost surviving span around a surviving span; otherwise none is around it |
| Reconstruction.SweepFindsTrueCallers | sagittarius_engine/extensions/audit/exporters/otel.py:262-292 | whatever the ring evicted, each surviving closed span gets its true caller if that has closed, and no parent otherwise |
| Reconstruction.DispatchedSpansFindTheirCallers | sagittarius_engine/extensions/audit/exporters/otel.py:193-228 | in a history of finished dispatches the total span alone has no parent, and any other surviving span gets the call of the frame just outside that called it |
| Reconstruction.EmittedSpansFindTrueCallers | sagittarius_engine/extensions/audit/exporters/otel.py:193-228 | the span emitted for a surviving closed span points to the emitted span of its true caller, or to none if that is open |
| Reconstruction.ReplayRecorder | sagittarius_engine/extensions/audit/exporters/otel.py:103-124 | snapshot, grouping, sweep and emission of a live recorder: each surviving span of every chain gets its true caller whatever was evicted or drained, and the unclosed count is never too high and exact if nothing left |
| Reconstruction.ReplayDispatches | sagittarius_engine/extensions/audit/exporters/otel.py:103-124 | replaying a recorder that holds finished dispatches emits each surviving span of each of them under the call of the frame just outside that called it, and the total span alone without a parent |
| StateMachines.DeclarativeStateMachine.AddTransition | sagittarius_engine/extensions/fsm/state_machine.py:51-58 | allows this transition besides those already allowed |
| StateMachines.DeclarativeStateMachine.AddEventTransition | sagittarius_engine/extensions/fsm/declarative_state_machine.py:49-71 | sets the matrix entry and keeps every entry an allowed transition |
| StateMachines.DeclarativeStateMachine.LoadMatrix | sagittarius_engine/extensions/fsm/declarative_state_machine.py:73-83 | merges the entries, new ones winning, and allows exactly their transitions in addition |
| StateMachines.DeclarativeStateMachine.DispatchEvent | sagittarius_engine/extensions/fsm/declarative_state_machine.py:133-222 | inside a dispatch the event only joins the queue; otherwise the machine ends as the loop function says, with the queue empty and the flag false on both exits |
| StateMachines.DeclarativeStateMachine.ProcessNext | sagittarius_engine/extensions/fsm/declarative_state_machine.py:155-171 | the oldest event makes its transition, or is undefined, clears the queue and raises |
| StateMachines.DeclarativeStateMachine.TransitionCallbacks | sagittarius_engine/extensions/fsm/declarative_state_machine.py:180-218 | exit callbacks see the old state, then global, event and enter callbacks the new one; what they dispatch is queued in call order |
| StateMachines.CallsAreThoseRegistered | sagittarius_engine/extensions/fsm/declarative_state_machine.py:180-218 | a transition calls every callback registered for it once, in order: exit, global, event, enter |
| StateMachines.DeclarativeStateMachine.TransitionTo | sagittarius_engine/extensions/fsm/state_machine.py:86-136 | succeeds exactly on allowed transitions and a rejected one changes nothing; outside a dispatch each event its callbacks dispatch is run to the end at once, inside one it joins the queue of the running dispatch |
| StateMachines.TransitionWithinQueues | sagittarius_engine/extensions/fsm/state_machine.py:86-136 | inside a dispatch it ends in the state asked for, after exit, global and enter callbacks in that order, with all they dispatch queued in that order |
| StateMachines.TransitionReaches | sagittarius_engine/extensions/fsm/state_machine.py:116-134 | a transition ends in the state asked for or where events of its later callbacks lead from there |
| StateMachines.TransitionRunsItsCallbacks | sagittarius_engine/extensions/fsm/state_machine.py:106-134 | outside a dispatch every callback runs once, in order, and dispatches its events one after the other, each run through the matrix with all it leads to, up to the first that is undefined |
| StateMachines.QuietTransition | sagittarius_engine/extensions/fsm/state_machine.py:106-134 | when no callback dispatches it ends in the state asked for, after exit, global and enter callbacks in that order |
| StateMachines.LoopIsFold | sagittarius_engine/extensions/fsm/declarative_state_machine.py:154-222 | events are processed first in, first out; the final state is the fold of the matrix over all that arrived, and it raises exactly where the fold is stuck |
| StateMachines.DispatchIsFold | sagittarius_engine/extensions/fsm/declarative_state_machine.py:133-222 | a whole dispatch: empty queue, success if and only if the fold is defined on all events, the state where it ended or got stuck, and the callbacks called |
| StateMachines.CallbacksFollowTheFold | sagittarius_engine/extensions/fsm/declarative_state_machine.py:180-218 | the callbacks called are those of the transitions made, each once and in order |
| StateMachines.TrajectoryIsAllowed | sagittarius_engine/extensions/fsm/declarative_state_machine.py:68-71 | every step of a dispatch is an allowed transition of the base class, and the walk ends in the fold's state |
| JobLives.CronIsNextMinute | sagittarius_engine/runtime/scheduler/triggers.py:38-40 | the first minute boundary strictly after the given time |
| JobLives.CancelledNeverRuns | sagittarius_engine/runtime/scheduler/scheduler.py:34-48 | after a cancellation a job is never spawned again, whatever follows, additions included |
| JobLives.StaysWithinLimit | sagittarius_engine/runtime/scheduler/scheduler.py:244-247 | a job listed at most once with runs to go (or dead) never exceeds its limit unless it is added again |
| JobLives.WillExceed | sagittarius_engine/runtime/scheduler/scheduler.py:244-247 | from any other state iterations alone exceed the limit |
| JobLives.LimitBindsIffAddsRespectIt | sagittarius_engine/runtime/scheduler/scheduler.py:168-174 | at every point of a life `max_runs` cannot be exceeded before the next addition, if and only if each addition finds the job unlisted with runs to go, or dead |
| JobLives.LimitBindsFromOne | sagittarius_engine/runtime/scheduler/scheduler.py:70-76 | a job scheduled once keeps `max_runs` if and only if that is at least one |
| JobLives.TickStaysOnTime | sagittarius_engine/runtime/scheduler/scheduler.py:211-249 | an iteration at any clock reading spawns a job that stays on time no earlier than its run numbers allow, and leaves it so |
| JobLives.WillRunEarly | sagittarius_engine/runtime/scheduler/scheduler.py:211-249 | from any other state iterations alone lead to a run that is too early |
| JobLives.RunsKeepTheInterval | sagittarius_engine/runtime/scheduler/scheduler.py:211-249 | at every point of a life and for every clock the k-th run cannot come earlier than creation plus k intervals before the next addition, if and only if each addition leaves a job that stays on time |
| JobLives.UnlistedAddStaysOnTimeIff | sagittarius_engine/runtime/scheduler/scheduler.py:168-174 | for an unlisted job that means that its planned run is not a stale one, or that it is dead |
| JobLives.LimitedStaysOnTimeIff | sagittarius_engine/runtime/scheduler/scheduler.py:211-249 | for a job with a limit and a positive interval, listed any number of times, staying on time is one comparison of its planned run with a deadline computed from limit, runs and listings |
| JobLives.NonPositiveStaysOnTimeIff | sagittarius_engine/runtime/scheduler/scheduler.py:211-249 | with an interval that is not positive only the planned run has to be on time |
| JobLives.ScheduledKeepsInterval | sagittarius_engine/runtime/scheduler/scheduler.py:70-76 | so a job scheduled once keeps its interval |
| JobLives.PaceIsProduct | sagittarius_engine/runtime/scheduler/triggers.py:26-27 | n intervals after the creation is creation plus n times the interval |
| JobLives.ListedTwiceFallsBehind | sagittarius_engine/runtime/scheduler/scheduler.py:211-249 | listed twice at once, a job without a limit runs too early in any case |
| JobRuns.AheadOfTheClockIsKept | sagittarius_engine/runtime/scheduler/scheduler.py:226-233 | a listed job whose next run is ahead of the clock is left alone by an iteration |
| JobRuns.ReachedIsSpawned | sagittarius_engine/runtime/scheduler/scheduler.py:226-249 | the first iteration that finds it reached spawns every listing; a job listed once stays listed, planned from this reading, unless that was its last run |
| JobRuns.UnlistedNeverRuns | sagittarius_engine/runtime/scheduler/scheduler.py:211-225 | a job not listed, cancelled or without a next run is not spawned until it is added |
| JobRuns.RunsAsExpected | sagittarius_engine/runtime/scheduler/scheduler.py:206-249 | a job listed once runs at the first reading not before its planned time, and again from there, until its limit is reached, it is cancelled or it loses its next run |
| JobRuns.RunsAreNotLate | sagittarius_engine/runtime/scheduler/scheduler.py:206-249 | if iterations come at most a gap apart, the k-th run of a job scheduled once comes before creation plus k times interval and gap, and has come once the clock is there |
| Schedulers.ScheduledJob.CancelJob | sagittarius_engine/runtime/scheduler/scheduler.py:34-48 | marks the job cancelled and nothing else |
| Schedulers.Scheduler.AddJob | sagittarius_engine/runtime/scheduler/scheduler.py:168-174 | adds one listing of this job and changes no other; jobs stay listed once if and only if it was not listed |
| Schedulers.Scheduler.Schedule | sagittarius_engine/runtime/scheduler/scheduler.py:70-76 | a fresh job with its first run planned, listed once |
| Schedulers.Scheduler.RunTick | sagittarius_engine/runtime/scheduler/scheduler.py:206-249 | exactly the due listings are spawned in order; every job, listed however often, undergoes its tick; kept ones come before re-armed ones; jobs listed once stay so; the wake-up is the minimum of one second from now and the next run of every listed job |
| Schedulers.Scheduler.Partition | sagittarius_engine/runtime/scheduler/scheduler.py:207-232 | due and kept jobs in list order, cancelled and dead ones in neither |
| Schedulers.ListOrderStays | sagittarius_engine/runtime/scheduler/scheduler.py:211-233 | the jobs to spawn are exactly the live ones whose time is reached, those kept exactly the live ones ahead of the clock, both in list order |
| Schedulers.Scheduler.RunDue | sagittarius_engine/runtime/scheduler/scheduler.py:235-249 | each due listing counts one run of its job and is listed again exactly when the job is to run again |
| EventBuses.AttemptStopsAtSuccess | sagittarius_engine/infrastructure/event_bus/resilient_event_bus.py:100-124 | a pass makes at most its attempts, delivers if and only if one of them succeeds, stops at the first that does, and otherwise fails with the last error |
| EventBuses.ProcessIsPass | sagittarius_engine/infrastructure/event_bus/resilient_event_bus.py:100-124 | a pass calls its handler with its data at most `max_retries + 1` times, stops at the first success, and otherwise parks the delivery with the error of the last attempt |
| EventBuses.PassIsUnique | sagittarius_engine/infrastructure/event_bus/resilient_event_bus.py:100-124 | the outcomes of the calls leave no choice in what a pass does |
| EventBuses.ProcessMoves | sagittarius_engine/infrastructure/event_bus/resilient_event_bus.py:100-124 | a pass puts its delivery in exactly one place, succeeded or parked |
| EventBuses.PerformKeepsAccounted | sagittarius_engine/infrastructure/event_bus/resilient_event_bus.py:190-208 | every run of emits and reprocesses keeps each delivery succeeded or parked, exactly once |
| EventBuses.NoDeliveryIsLostIffRetriesNotNegative | sagittarius_engine/infrastructure/event_bus/resilient_event_bus.py:100-124 | that holds over all runs and handlers if and only if `max_retries >= 0` |
| EventBuses.NegativeRetriesLose | sagittarius_engine/infrastructure/event_bus/resilient_event_bus.py:101-106 | with a negative `max_retries` one emit loses its delivery |
| EventBuses.ReprocessKeepsOrder | sagittarius_engine/infrastructure/event_bus/resilient_event_bus.py:190-208 | what `reprocess` parks again is a subsequence of the old queue |
| EventBuses.EmitReachesEveryTarget | sagittarius_engine/infrastructure/event_bus/memory_event_bus.py:77-86 | an emit makes one delivery, numbered on, to every subscribed handler in order, and each has its pass |
| EventBuses.ReprocessTriesEveryLetter | sagittarius_engine/infrastructure/event_bus/resilient_event_bus.py:190-208 | `reprocess` makes one pass for every parked letter in order |
| EventBuses.ParkedLettersAreThose | sagittarius_engine/infrastructure/event_bus/resilient_event_bus.py:109-124 | a letter parked has the event, handler and data of its delivery and the error of its last attempt |
| EventBuses.MemoryEventBus.On | sagittarius_engine/infrastructure/event_bus/memory_event_bus.py:88-99 | subscribes at the end, at most once, under this key only |
| EventBuses.MemoryEventBus.Off | sagittarius_engine/infrastructure/event_bus/memory_event_bus.py:118-130 | removes the handler under this key only |
| EventBuses.ResilientEventBus.On | sagittarius_engine/infrastructure/event_bus/resilient_event_bus.py:82-128 | takes effect exactly when this title and handler have no wrapper yet, and then under this key only |
| EventBuses.ResilientEventBus.Off | sagittarius_engine/infrastructure/event_bus/resilient_event_bus.py:130-148 | forgets the wrapper and takes it off this event's list only |
| EventBuses.ResilientEventBus.EmitEvent | sagittarius_engine/infrastructure/event_bus/memory_event_bus.py:77-86 | one new delivery, with its retries, to each handler of a snapshot in order, and any letter parked is one of these with the error of its last attempt; balanced books stay balanced |
| EventBuses.ResilientEventBus.CallWithRetries | sagittarius_engine/infrastructure/event_bus/resilient_event_bus.py:100-124 | the retry loop moves the books exactly as one pass does |
| EventBuses.ResilientEventBus.GetDlq | sagittarius_engine/infrastructure/event_bus/resilient_event_bus.py:181-188 | while the books balance, exactly the deliveries that have not succeeded, each once |
| EventBuses.ResilientEventBus.ReprocessDlq | sagittarius_engine/infrastructure/event_bus/resilient_event_bus.py:190-208 | the queue is swapped out and refilled by one pass per letter in order; balanced books stay balanced |

## Left out

- Container scopes and `scoped`: a scope calls the class without injection. The scope registry takes part in `registrations()` only; resolution is without an active scope.
- User-supplied factory callables, which can recurse without bound; of `singleton` the class and the instance case are modelled.
- Reflection: parameter lists, annotations and abstractness are given; constructors do not raise.
- Locks and threads, except the interleavings of the recorder; `remove_tap`, `clear`, `hello` and record arguments.
- Constructible.ResolveDecides: is about bindings and ready instances, because a lazy factory that removes itself exposes plain construction of the abstract on cycles; with lazy factories waiting, `Injection` and `Availability` say what happens.
- Availability.ResolveSucceedsIff: supposes that no waiting singleton depends on itself; `Availability.HistoryCanMatter` shows why. Without that, `Availability.AvailableSucceeds` is the one direction, and `Injection.ArgumentsInTurn` says what happens in every state.
- Agreement.C3CycleRaises: supposes no ready instance on the cycle, because the search also walks the class of a ready instance; `Agreement.CycleRaisesIffNoInstance` shows that exactly those cycles raise throughout.
- Inspector.InspectContainer: visits registrations in any order, so the order of the findings by name is not modelled; nor are their texts, the checks of events, handlers, lifecycle and scheduler.
- ExtensionManagers.ExtensionManager.Register: supposes fixed descriptors; the adapter for legacy modules, re-entrant registration, events, async hooks and the spans around the hooks are not modelled.
- ExtensionManagers.ExtensionManager.InitializeAndStart: start hooks return normally; an exception of one is not modelled.
- ExtensionManagers.ExtensionManager.StopAndDispose: stop and dispose hooks return or raise what the manager contains. That an extension is disposed at most once is not claimed: after a failed boot the sorted list survives the rollback.
- ExtensionOrder.Visit: the set of names being visited is passed down by value, where the code adds and removes.
- Recorder.TraceRecorder.Append: a capture's eviction check and append are one step; `Interleavings` separates the notification and the single steps of a drain.
- Otel.EmitGroup: covers one correlation group. The separate path for correlation id 0, orphan instants, attributes and the OpenTelemetry SDK are not modelled.
- CallRuns.RunIsSound: supposes that clock readings of one chain strictly increase. With ties a span of length zero looks like a begin marker.
- Dispatchers.DispatchHandler: the handler is already resolved; a handler does not dispatch again, middleware ends after finitely many calls of the next handler and does not use the recorder; logging is left out.
- StateMachines.DeclarativeStateMachine.DispatchEvent: a callback is what it dispatches, taken from a finite script so that dispatch ends; callbacks that call `transition_to` or change the matrix, and argument type checks, are not modelled.
- StateMachines.DeclarativeStateMachine.TransitionTo: may be called inside a dispatch, but the scripts of `DispatchEvent` contain no such call, so no whole dispatch with one in it is modelled.
- SelfDependence.SingletonIsOneObjectIff: is about the only class singleton waiting; several waiting at once keep the one direction, `Singletons.SingletonIsOneObject`. The registrations stay as they are over the run.
- Schedulers.Scheduler.RunTick: waiting, sleeping, starting and stopping are left out; a failed spawn counts as a run, as in the code. Cancellations and additions happen between iterations, and nobody writes the fields of a job but to lose its next run.
- EventBuses.ResilientEventBus.EmitEvent: handlers do not call the bus and subscribe through the decorator only; how a key or title is derived from an event object is given by `EventRef`.
- EventBuses.NoDeliveryIsLostIffRetriesNotNegative: supposes that reporting a failure does not raise. The code reports before it parks (resilient_event_bus.py:114-116 and 204-206), so a logger that raises would lose the delivery, and in `reprocess` the rest of the queue taken out.
- Task and thread managers, wire formats, the Perfetto encoder, user interfaces, storage, logging and IPC.
- The documentation of `scoped` promises a transient object outside a scope; that path belongs to scopes and is not modelled.
