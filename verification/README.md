# Verified model of the xeno-js core

The project models the stateful pieces of `@xeno-js/core` in Dafny and proves what they are for: which services can be
resolved and when they are disposed of, that a command runs once, that a cache cannot be noticed, that a limit holds in
every window, and that what is encoded is decoded again. Run `dafny verify dfyconfig.toml` to check everything.

## The parts

- **The service container.** `DependencyGraph.dfy` says which tokens can be built at all. `Resolver.dfy` is the resolution
  algorithm on values. `Exactness.dfy`, `Ownership.dfy` and `ScopeContents.dfy` prove what a single resolve does;
  `ContainerHistory.dfy` carries that over to every run of operations, and `ContainerGuarantees.dfy` states what users can
  rely on and, by concrete runs, what they cannot; `CachedResolution.dfy` has the scopes that outlive their registrations,
  `DisposalOrder.dfy` who disposes of what, and in which order, `FailedResolves.dfy` what a failing resolve leaves behind.
  `ServiceContainer.dfy` has the objects updated in place (scope, resolution context, container) and proves that each method
  performs the operation of the same name.
- **The idempotency protocol.** `Idempotency.dfy` is a state machine over a store with expiring keys (`TtlStore.dfy`): any
  number of requests with one id, interleaved at every await, with store faults as steps. `IdempotencyGuarantees.dfy` proves
  what holds in every run and under which bound in time, `IdempotencyFaults.dfy` what faults break, `IdempotencyAnswers.dfy`
  what each request answers; `IdempotencyStores.dfy` proves the sequential pipeline and its store object against the machine.
- **The query cache** (`QueryCache.dfy`) and **the rate limiter** (`RateLimiter.dfy`, `RateLimitKeys.dfy`) use the same store.
- **The command chain.** `Pipelines.dfy` treats behaviours as functions on delegates and composes them in the order the CQRS
  module does; its idempotency layer is a run of the protocol's machine. `CommandAnswers.dfy` has what a command answers and
  how its handler is called.
- **Bootstrap.** `Bootstrap.dfy` is the builder as a state machine with a table of what each module registers, resolves and
  checks, in the order it does so. `BootstrapOrder.dfy` proves that whatever is resolved is registered by then,
  `BootstrapSuccess.dfy` when a build succeeds. In terms of the calls made on the builder alone, `BuilderCalls.dfy` says what
  is queued with which configuration, `BuildByCalls.dfy` when the build succeeds, and `BuiltContainer.dfy` what the container
  provides then. `AppBuilder.dfy` is the builder object, running the modules on a container object.
- **String cores.** `RoutePatterns.dfy` has the regular expressions of routes with a parser and a matcher of their own,
  `AllowMethods.dfy` the registry around them and `RouteKinds.dfy` what placeholders take, `SsrTokens.dfy` and
  `ChunkNumerals.dfy` the extraction of a token from chunked cookies with the decoding of section 2.1 of RFC 3986 and UTF-8
  in `PercentCoding.dfy` and `PercentDecoding.dfy`, `CsrfTokens.dfy` the CSRF tokens with the base64url of section 5 of
  RFC 4648 in `Base64Url.dfy`. `Strings.dfy` has the string operations they share.
- **Authorization.** `Authorization.dfy` has the policy registry, the four strategies and the set-up that leaves some out.

Functions give the specification and methods with loops or fields are proved equal to them; the theorems are then about
those functions and the runs made of them.

## What turned out false, and exactly when it holds

- *The root scope holds no scoped instances.* Only the requested token is checked (`RootMayHoldScoped`). A resolve leaves
  scoped instances in the root if and only if a scoped token is below the one resolved (`RootHoldsScopedIff`).
- *A resolve succeeds exactly if the token can be built.* True while the container is open (`ResolutionIsExact`). A scope that
  outlives its container can hand out what cannot be built any more (`StaleScopeResolvesIllFormed`); it holds at a scope for all
  tokens if and only if its cache is still sound (`ExactnessLimit`). Token by token, a resolve succeeds if and only if every
  chain is clean down to the scoped tokens the scope has cached (`CutResolutionIsExact`).
- *Dependents are disposed of before what they use.* True if and only if both have one owner or the dependent's owner was
  closed first (`UserGoesFirstIff`). Owners differ between a whole and its part exactly if the whole was built through a
  request scope and one of the two is a singleton (`OwnersDifferIff`). So closing a request scope can leave a live singleton
  with a disposed part (`SingletonOutlivesItsPart`): exactly if a singleton was built through that scope and the registrations
  lead from it through transients to a disposable one (`ClosingHurtsSingletonsIff`).
- *Everything is disposed of in the end.* True of what was there while its owner was open, once the owner is closed
  (`DisposedIffOwnedOpenly`); never of singletons built through a surviving scope after the container's disposal
  (`LateSingletonsAreNeverDisposed`, `LateSingletonsExist`).
- *A command's handler succeeds at most once.* True while no lock expires and no store call but a release throws
  (`HandlerSucceedsAtMostOnce`). Where locks expire and requests are done within `d`, successes stay a record's lifetime apart
  in every run if and only if `2d` is at most a millisecond above the lifetime of a lock (`TimedBoundIsExact`). After a store
  call that throws before the lock, the handler can succeed twice if and only if, just before the catch block releases,
  another request owns the lock or a success has been recorded, whatever has happened since the throw
  (`EarlyFaultBreaksIff`, `LateReleaseRunsHandlerTwice`); after a mark that throws, if and only if the release that follows
  goes through (`MarkFaultBreaksIff`). An undefined payload is replayed as a conflict (`SecondRequestReplays`).
- *A cache cannot be noticed.* True if and only if no query can leave a value for another one whose handler would answer
  differently (`TransparentIff`).
- *Leaving out unneeded strategies changes nothing.* The set-up asks whether a field is not `isNullOrEmpty`, two strategies
  whether it is given. If there is a value of which `isNullOrEmpty` holds, there is a policy table for which this matters, and
  otherwise there is none (`PruningCanFailIff`); for one table it matters if and only if a policy in force gives a field such a
  value and no entry gives it another one (`PruningIsExact`). A policy with `userId: false` asks everyone for a valid id unless
  the strategy is left out (`SwitchedOffStillDemands`). Without a request context, the installed strategies refuse if and only
  if there are any (`MissingContext`).
- *Addresses are counted separately.* An address taken from a header as it is can contain anything. Two are counted together
  for some paths if and only if one continues the other by a colon and a slash (`AddressesCollide`,
  `ForwardedAddressCollides`).
- *Normalizing a path twice is normalizing it once.* False for paths of two or more slashes (`SlashesVanish`) and for paths
  with white space before their trailing slashes, and true of all others (`NormalizeTwice`).

## Assumptions

`Guards`, `Result`, `AppError`, `CacheKeyBuilder`, `GuidHelper` and the token constants are not part of the repository.
`isDefined` is taken to reject `undefined` and `null`, and `isNullOrEmpty` additionally empty strings and empty arrays; of which
switches or texts in a policy it holds is left open. Tenant and user ids have been parsed as GUIDs, so they have no colon. The
framework's tokens are pairwise different and different from the application's. Cache keys, the MAC, lower case in policies,
the GUID check, handlers, observers and custom strategies are arbitrary functions, so the theorems hold for all of them.

The chain in a circular or captive error is the one the source reports. For a missing registration the source names the token
only, and it passes on what a factory throws: the chains in `NotRegistered` and `FactoryThrew` are the model's own.

## Model

| member | source | states |
|---|---|---|
| DependencyGraph.WellFormedIsStable | src/infrastructure/container/service-container.ts:194-206 | a token whose dependency chains are all registered, acyclic and captive-free stays so whatever is registered afterwards |
| Exactness.ResolveFrames | src/infrastructure/container/service-container.ts:257-339 | a resolve, successful or not, opens and closes no scope and only appends to the log of completed factories |
| Exactness.ResolveIsConfined | src/infrastructure/container/service-container.ts:306-338 | only the requesting scope builds anything or caches scoped instances; other request scopes are untouched, whatever the outcome |
| Exactness.FailureIsExplained | src/infrastructure/container/service-container.ts:261-287 | every failing resolve through an open scope reports a chain of real dependency edges that extends the current stack and ends in the stated defect |
| Exactness.SuccessIsWellFormed | src/infrastructure/container/service-container.ts:269-338 | a successful resolve, below any stack, has only clean chains that neither lead back into the stack nor are captured by it; cached instances stay sound even if it fails |
| Exactness.ResolvesExactlyTheWellFormed | src/infrastructure/container/service-container.ts:257-339 | with sound caches, resolving through an open scope succeeds if and only if the token is well formed: registered, acyclic, no captive and no throwing factory below it |
| Exactness.ExactIffCacheSound | src/infrastructure/container/service-container.ts:319-323 | exactness for every token holds at a scope if and only if what the scope has cached is still well formed |
| Ownership.ResolveKeepsValid | src/infrastructure/container/service-container.ts:107-122 | every resolve keeps all cache and tracking invariants and delivers either the cached instance or a new, logged one of the right token and lifetime |
| Ownership.ResolveAllKeepsValid | src/infrastructure/container/service-container.ts:306-338 | the same for the dependency list of one factory, up to its first failure |
| Ownership.TrackingIsTopological | src/infrastructure/container/service-container.ts:111-122 | a scope tracks each object once, lists a dependency before its dependent, and shares no tracked object with another scope |
| ContainerHistory.RunKeepsInvariant | src/infrastructure/container/service-container.ts:158-346 | every run of register, createScope, resolve and dispose, in any order, keeps the invariants on caches, deliveries and disposals |
| ContainerGuarantees.ResolutionIsExact | src/infrastructure/container/service-container.ts:96-105 | in every reachable state, resolving through an open scope of an open container succeeds if and only if the registrations alone allow it |
| ContainerGuarantees.RootResolutionIsExact | src/infrastructure/container/service-container.ts:208-218 | resolving from the container succeeds if and only if it is open, the token is well formed and it is not registered as scoped |
| ContainerGuarantees.ReportedPathsAreReal | src/infrastructure/container/service-container.ts:274-287 | in every reachable state a failing resolve names a real chain starting at the requested token |
| ContainerGuarantees.ExactnessLimit | src/infrastructure/container/service-container.ts:319-323 | in any run, exactness at an open scope is equivalent to the soundness of that scope's cache |
| ContainerGuarantees.RefusalsChangeNothing | src/infrastructure/container/service-container.ts:96-101 | a scoped token asked of the container and any token asked of a closed scope are refused with exactly these two errors, in this order, and nothing changes |
| ContainerGuarantees.RegisteredIff | src/infrastructure/container/service-container.ts:194-206 | in every run a token is registered if and only if some registration of it has not been followed by the disposal of the container |
| ContainerGuarantees.RegistrationDecides | src/infrastructure/container/service-container.ts:194-206 | a registration that finds its token free decides about that token until the container is disposed of, whatever happens in between |
| FailedResolves.FailedResolveKeepsFronts | src/infrastructure/container/service-container.ts:289-338 | in every run, a failing resolve through an open scope keeps for every factory on the reported chain what it resolved in front of the failure: singletons and scoped instances cached, transients logged and tracked; a factory that threw had resolved everything |
| FailedResolves.FrontDependenciesStay | src/infrastructure/container/service-container.ts:289-338 | in every run and whatever the outcome, after resolving a token that was not cached every dependency in front of the first that cannot be had is cached, or is a new transient of that scope that is logged and, if disposable, tracked |
| CachedResolution.CutResolutionIsExact | src/infrastructure/container/service-container.ts:319-323 | in any run and for every token, resolving through an open scope succeeds if and only if every dependency chain from the token is clean when it is cut at the scoped tokens the scope has cached |
| CachedResolution.ResolveIgnoresCut | src/infrastructure/container/service-container.ts:319-329 | a resolve has the same outcome and effects if the cached scoped tokens had no dependencies: their factories are never run |
| ContainerGuarantees.StaleScopeResolvesIllFormed | src/infrastructure/container/service-container.ts:341-345 | a run in which a scope outliving its disposed container hands out a token that cannot be built any more |
| ContainerGuarantees.RootMayHoldScoped | src/infrastructure/container/service-container.ts:211-217 | a run after which the root scope caches a scoped instance, pulled in by a transient |
| ScopeContents.ResolveGathers | src/infrastructure/container/service-container.ts:306-338 | a resolve adds to the scope only scoped tokens below the one resolved, keeps the cache closed under "below", and on success adds all of them |
| ScopeContents.RunKeepsGathered | src/infrastructure/container/service-container.ts:306-338 | in every run, while the container is open, whatever a scope caches has everything scoped below it cached too |
| ScopeContents.ScopeCachesExactly | src/infrastructure/container/service-container.ts:319-329 | a successful resolve leaves the scope caching what it did before and exactly the scoped tokens below the one resolved |
| ScopeContents.RootHoldsScopedIff | src/infrastructure/container/service-container.ts:208-218 | a successful resolve from a root that caches nothing scoped leaves scoped instances in the root if and only if a scoped token is below the one resolved |
| ContainerGuarantees.InstanceIdentity | src/infrastructure/container/service-container.ts:306-338 | over any two deliveries of a run: one object per singleton between container disposals, one per scoped token and scope, different ones for different scopes, and a new one for every transient |
| ContainerGuarantees.FactoriesCompleteOnce | src/infrastructure/container/service-container.ts:306-329 | no singleton factory completes twice between container disposals, and no scoped factory twice for one scope |
| ContainerGuarantees.DisposalIsExact | src/infrastructure/container/service-container.ts:124-141 | an instance has been disposed of if and only if its owning scope was closed after it was built, and at most once |
| ContainerGuarantees.DependentsGoFirst | src/infrastructure/container/service-container.ts:128-137 | among the instances of one owner, whatever uses an object is disposed of before it |
| ContainerGuarantees.ClosingDisposesTheOwned | src/infrastructure/container/service-container.ts:124-141 | disposing an open request scope disposes of exactly the disposable instances it owns, none of them before, and doing it again changes nothing |
| ContainerGuarantees.RequestIsReclaimed | src/infrastructure/context/request-context.ts:41-48 | whatever happens between creating and disposing a request scope, each disposable the request owns has been disposed of exactly once |
| ContainerGuarantees.SingletonOutlivesItsPart | src/infrastructure/container/service-container.ts:311-317 | a run in which a transient built inside a singleton factory is disposed of with the requesting scope while the singleton using it is still handed out |
| DisposalOrder.RunKeepsFit | src/infrastructure/container/service-container.ts:306-338 | in every run a part that is no singleton was built through the same scope as its whole, a singleton is handed nothing scoped, and while the container is open every object is what the registration of its token makes |
| DisposalOrder.OwnersDifferIff | src/infrastructure/container/service-container.ts:311-337 | a part has another owner than the object it is handed to if and only if the object was built through a request scope and exactly one of the two is a singleton |
| DisposalOrder.UserGoesFirstIff | src/infrastructure/container/service-container.ts:124-141 | of two disposed objects one of which uses the other, the user is disposed of first if and only if both have one owner or the user's owner was closed before the other one's |
| DisposalOrder.DisposedIffOwnedOpenly | src/infrastructure/container/service-container.ts:124-141 | a disposable object has been disposed of if and only if its owner is closed by now and was open at some point at which the object was there |
| DisposalOrder.LateSingletonsAreNeverDisposed | src/infrastructure/container/service-container.ts:341-345 | a singleton built after the container was disposed of is not disposed of, whatever happens afterwards |
| DisposalOrder.LateSingletonsExist | src/infrastructure/container/service-container.ts:341-345 | a run that builds such a singleton through a surviving request scope |
| DisposalOrder.ClosingHurtsSingletonsIff | src/infrastructure/container/service-container.ts:311-337 | closing a request scope leaves a cached singleton using an object disposed of by it if and only if, in the state before, a cached singleton was built through that scope and the registrations lead from it through transients to a disposable one |
| ServiceContainers.ContainerScope.SetScopedInstance | src/infrastructure/container/service-container.ts:111-116 | the scope object afterwards equals the specified one: the instance cached, and tracked if disposable, without a duplicate check |
| ServiceContainers.ContainerScope.TrackInstance | src/infrastructure/container/service-container.ts:118-122 | the scope object afterwards tracks the instance if it is disposable and was not tracked |
| ServiceContainers.ContainerScope.Dispose | src/infrastructure/container/service-container.ts:124-141 | the reverse loop calls dispose once on each tracked instance, last tracked first, whichever of them throw, and empties and closes the scope; a second call does nothing |
| ServiceContainers.ServiceContainer.constructor | src/infrastructure/container/service-container.ts:166-168 | a fresh container object is in the initial state of the specified runs |
| ServiceContainers.ServiceContainer.Register | src/infrastructure/container/service-container.ts:194-206 | the object performs the register step of the specified runs and refuses a taken token |
| ServiceContainers.ServiceContainer.CreateScope | src/infrastructure/container/service-container.ts:220-222 | the object performs the createScope step; the new scope is known to it |
| ServiceContainers.ServiceContainer.ResolveInContext | src/infrastructure/container/service-container.ts:257-339 | world and outcome equal the specified resolve for every registration graph, cyclic ones included; the resolution stack and active lifetime are what they were before, however it ends; it terminates |
| ServiceContainers.ServiceContainer.RunFactory | src/infrastructure/container/service-container.ts:289-304 | the isolation around a factory equals the specified construction and restores stack and lifetime on success and failure |
| ServiceContainers.ServiceContainer.Cache | src/infrastructure/container/service-container.ts:311-338 | a new instance is cached and tracked where the specification says: singletons in the container and the root scope, others in the requesting scope |
| ServiceContainers.ServiceContainer.ResolveDependencies | src/infrastructure/container/service-container.ts:312-333 | the dependencies of one factory are resolved in order up to the first failure, as specified |
| ServiceContainers.ServiceContainer.ResolveThrough | src/infrastructure/container/service-container.ts:96-105 | the object performs the step of a resolve through a request scope; a closed scope refuses and changes nothing; while container and scope are open it succeeds if and only if the token is well formed |
| ServiceContainers.ServiceContainer.ResolveFromRoot | src/infrastructure/container/service-container.ts:208-218 | the object performs the step of a resolve from the root, refuses a scoped token and changes nothing, and succeeds exactly when container, token and lifetime allow it |
| ServiceContainers.ServiceContainer.CloseRequestScope | src/infrastructure/container/service-container.ts:124-141 | the object performs the step of disposing a request scope; the calls made are those the run records |
| ServiceContainers.ServiceContainer.Dispose | src/infrastructure/container/service-container.ts:341-345 | the object performs the step of disposing the container, taken as atomic |
| ServiceContainers.ServiceContainer.ResolveEach | src/infrastructure/context/request-context.ts:44-44 | the callback performs one resolve step per token up to and including the first failure, and reports whether there was one |
| ServiceContainers.AllResolveIff | src/infrastructure/context/request-context.ts:44-44 | through an open scope of an open container, a list of tokens resolves one after the other if and only if all of them are well formed |
| ServiceContainers.ServiceContainer.RunAsync | src/infrastructure/context/request-context.ts:41-48 | a request is createScope, the resolves of its callback stopping only at the first failure, and disposal, on success and on throw; on an open container it completes normally if and only if the callback does not throw and all tokens are well formed; every disposable owned by its scope has then been disposed of exactly once |
| TtlStore.RedisCache.Set | src/infrastructure/cache/redis.cache.ts:44-49 | the entry is stored with the given lifetime or a day, and can be read back while it lives |
| TtlStore.ReadUntilExpiry | src/infrastructure/cache/redis.cache.ts:36-65 | what is put under a key is found until its lifetime is over and not after, and what is found under other keys does not change |
| TtlStore.RedisCache.SetIfAbsent | src/infrastructure/cache/redis.cache.ts:51-56 | stores if and only if no unexpired entry is there, with the given lifetime or five minutes, and leaves the store alone otherwise |
| TtlStore.RedisCache.Remove | src/infrastructure/cache/redis.cache.ts:58-60 | the entry is gone and cannot be read back |
| TtlStore.Increment | src/infrastructure/cache/redis.cache.ts:28-34 | the transaction counts up from the unexpired counter or from zero and refreshes its lifetime, a minute by default |
| IdempotencyGuarantees.RunKeepsAtMostOnce | src/application/cqrs/pipelines/idempotency.pipeline.ts:87-135 | every run in which no lock expires and only releases may fault keeps the protocol invariant relating lock, owners, successes, record and answers |
| IdempotencyGuarantees.HandlerSucceedsAtMostOnce | src/application/cqrs/pipelines/idempotency.pipeline.ts:88-129 | over any interleaving without lock expiry: owners never overlap, the handler succeeds at most once in the run, and every ok answer carries the recorded value |
| IdempotencyGuarantees.RunCounts | src/application/cqrs/pipelines/idempotency.pipeline.ts:110-124 | along every such run, the handler runs that succeed are those recorded and the one about to be |
| IdempotencyGuarantees.UnsuccessfulOwnerFreesTheLock | src/application/cqrs/pipelines/idempotency.pipeline.ts:125-133 | an owner finishing without success leaves the lock free, nobody owns it, and the next request to acquire it runs |
| IdempotencyGuarantees.RunKeepsTimed | src/application/cqrs/pipelines/idempotency.pipeline.ts:87-135 | with requests shorter than d and 2d at most a millisecond above the lock lifetime, every run keeps the timed invariant on locks, records and checks |
| IdempotencyGuarantees.SuccessesAreApart | src/application/cqrs/pipelines/idempotency.pipeline.ts:88-124 | with requests done within d and 2d at most a millisecond above the lock lifetime, a second success can only come from a request that checked when the record of the first had expired |
| IdempotencyGuarantees.TimedBoundIsExact | src/application/cqrs/pipelines/idempotency.pipeline.ts:88-124 | for requests done within d, all runs keep successes apart if and only if 2d exceeds the lock lifetime by one millisecond at most |
| IdempotencyGuarantees.OwnersAreAlone | src/application/cqrs/pipelines/idempotency.pipeline.ts:103-133 | under the same bound, whoever runs, marks or releases holds the lock in the store, set by itself, and nobody else owns one: a release never removes a foreign lock |
| IdempotencyGuarantees.OkAnswersAreGenuine | src/application/cqrs/pipelines/idempotency.pipeline.ts:89-92 | under the same bound every ok answer, replayed or not, is the value of a handler run that succeeded |
| IdempotencyAnswers.AnswersFollowTheHandler | src/application/cqrs/pipelines/idempotency.pipeline.ts:87-135 | in every run, whatever the others do, however long anything takes and whichever store calls throw: a request that is done answers its handler's success or failure as it is unless the mark or the release threw, throws if its handler threw, and without a handler run answers a conflict or a defined value |
| IdempotencyAnswers.ReleasesAreTried | src/application/cqrs/pipelines/idempotency.pipeline.ts:125-133 | in every run, a done request has tried to release the lock once after a failure or throw, twice if the first release after a failure threw, and never after a success that was marked |
| IdempotencyAnswers.OneOfThreeWays | src/application/cqrs/pipelines/idempotency.pipeline.ts:87-117 | in every run, a done request found a record at its check and answers what could be read then, or found no record and the lock taken and answers a conflict, or found both keys free and ran its handler |
| IdempotencyFaults.EarlyFaultBreaksIff | src/application/cqrs/pipelines/idempotency.pipeline.ts:130-131 | after any run without lock expiry in which a store call throws before the lock is acquired, whatever the others do until the catch block has released: harmless steps can lead to a second success of the handler if and only if, just before the release, another request owned the lock or a success had been recorded; a release that fails never harms |
| IdempotencyFaults.PromptReleaseBreaksIff | src/application/cqrs/pipelines/idempotency.pipeline.ts:130-131 | if nobody moves between the throw and the release, the state at the throw decides |
| IdempotencyFaults.LateReleaseRunsHandlerTwice | src/application/cqrs/pipelines/idempotency.pipeline.ts:130-131 | a run from the start in which nobody owned the lock when a request failed, another one gets it before the catch block has released, and the handler succeeds twice |
| IdempotencyFaults.EarlyFaultRunsHandlerTwice | src/application/cqrs/pipelines/idempotency.pipeline.ts:130-131 | a run from the start in which a request fails at its check while another one runs, and the handler succeeds twice |
| IdempotencyFaults.MarkFaultBreaksIff | src/application/cqrs/pipelines/idempotency.pipeline.ts:119-131 | after any run without lock expiry and a mark that throws, whatever the others do until the catch block has released: harmless steps can lead to a second success of the handler if and only if that release goes through |
| IdempotencyFaults.MarkFaultRunsHandlerTwice | src/application/cqrs/pipelines/idempotency.pipeline.ts:119-131 | a run from the start in which marking throws after a successful handler, and the handler succeeds again for the next request |
| IdempotencyStores.SoloIsARun | src/application/cqrs/pipelines/idempotency.pipeline.ts:77-135 | the sequential path of one request, with its store and answer, is one of the machine's runs |
| IdempotencyStores.IdempotencyStore.AcquireLock | src/infrastructure/idempotency/idempotency-store.ts:31-38 | sets the lock key if and only if it is free and reports which |
| IdempotencyStores.IdempotencyStore.HasBeenProcessed | src/infrastructure/idempotency/idempotency-store.ts:40-43 | true exactly if the processed key has an unexpired entry |
| IdempotencyStores.IdempotencyStore.GetPayload | src/infrastructure/idempotency/idempotency-store.ts:58-63 | finds what is stored under the processed key |
| IdempotencyStores.IdempotencyStore.MarkAsProcessed | src/infrastructure/idempotency/idempotency-store.ts:45-56 | stores the payload under the processed key and touches no other |
| IdempotencyStores.IdempotencyStore.ReleaseLock | src/infrastructure/idempotency/idempotency-store.ts:65-68 | removes the lock key and touches no other |
| IdempotencyStores.Handle | src/application/cqrs/pipelines/idempotency.pipeline.ts:77-135 | with an undisturbed store: a record answers if its value is defined, a taken lock is a conflict, and with both keys free the handler's success, failure or throw is the answer, a success recorded under the processed key and anything else leaving both keys free; no other key changes; without a network context a conflict and nothing else |
| IdempotencyStores.SecondRequestReplays | src/application/cqrs/pipelines/idempotency.pipeline.ts:88-101 | a request right after a successful one gets the recorded value if and only if that value was defined, and a conflict otherwise |
| RateLimiter.Execute | src/presentation/middlewares/rate-limiter.middleware.ts:45-102 | without a key the request is unidentified and the store left alone; otherwise the counter goes up by one, or to one if it had expired, lives a window from now, and the request is admitted if and only if it is at most the maximum |
| RateLimiter.RunIsValid | src/infrastructure/cache/redis.cache.ts:28-34 | in every run the stored counter of a key is the count of its latest hit, and no hit less than a window old has been forgotten |
| RateLimiter.SlidingWindowBound | src/presentation/middlewares/rate-limiter.middleware.ts:75-102 | for every sequence of arrivals and every key, at most maxRequests hits are admitted in any half-open interval of one window |
| RateLimiter.CountContinues | src/infrastructure/cache/redis.cache.ts:28-34 | a hit counts one more than the previous hit on its key if less than a window has passed, and one otherwise |
| RateLimiter.BlockedUntilQuiet | src/presentation/middlewares/rate-limiter.middleware.ts:77-102 | a key just rejected is admitted again if and only if it has been quiet for a whole window |
| RateLimitKeys.KeysMeet | src/infrastructure/cache/rate-limit-key-builder.cache.ts:24-42 | for ids parsed as GUIDs, any addresses and any resources, two requests share a key if and only if principal and resource agree, or both are counted by address under the same tenant, if any, and one address is the other one, a colon and a beginning of its resource |
| RateLimitKeys.KeysSeparate | src/infrastructure/cache/rate-limit-key-builder.cache.ts:24-42 | with addresses without a slash and resources starting with one, two requests share a key if and only if shape, principal and resource agree |
| RateLimitKeys.KeyText | src/infrastructure/cache/rate-limit-key-builder.cache.ts:31-39 | the key in terms of the caller, written out: the user before the address, the tenant in front of either if known, and no key without user and address |
| RateLimitKeys.AddressesCollide | src/infrastructure/cache/rate-limit-key-builder.cache.ts:34-39 | two different principals share a key for some paths if and only if both are counted by address, under the same tenant if any, and one address continues the other by a colon and a slash |
| RateLimitKeys.ForwardedAddressCollides | src/infrastructure/cache/rate-limit-key-builder.cache.ts:39-39 | two such addresses and paths |
| RateLimitKeys.NoKeyIff | src/infrastructure/cache/rate-limit-key-builder.cache.ts:24-42 | a request has no key if and only if neither a user id nor an address is known; a tenant alone is not enough |
| Pipelines.CompositeHandle | src/application/cqrs/pipelines/composite.pipeline.ts:26-37 | the backward loop computes the nested fold, first behaviour outermost |
| Pipelines.NestSplits | src/application/cqrs/pipelines/composite.pipeline.ts:26-37 | composing two lists is composing the composite of the first around that of the second |
| Pipelines.ShortCircuit | src/application/cqrs/pipelines/composite.pipeline.ts:26-37 | behind a behaviour that ignores its delegate, neither later behaviours nor the handler have any effect |
| Pipelines.RetryHandle | src/application/cqrs/pipelines/concurrency-retry.pipeline.ts:91-113 | the loop equals the bounded retry: repeat while the error is a concurrency error and attempts remain, then answer a conflict |
| Pipelines.RetryRecords | src/application/cqrs/pipelines/concurrency-retry.pipeline.ts:91-113 | between one and maxRetries handler calls, all but the last ending in a concurrency error, one delay between any two |
| Pipelines.DelaysSeparateCalls | src/application/cqrs/pipelines/concurrency-retry.pipeline.ts:101-111 | the record of n calls holds n - 1 delays and no lock attempt |
| Pipelines.AddCommand | src/infrastructure/modules/utils/pipeline.utils.ts:24-56 | composed around any handler, the listed layers are the idempotency layer around the whole retry loop: one lock attempt at most, as many handler calls as allowed, one delay between any two |
| Pipelines.ChainUnfolds | src/infrastructure/modules/cqrs.module.ts:40-89 | the composed chain is the exception barrier around the observers around the command bus |
| Pipelines.ChainGuarantees | src/infrastructure/modules/cqrs.module.ts:40-89 | for every handler, observers and store the chain never throws and records either nothing or one pass through the bus, whose success or failure it answers with unchanged |
| Pipelines.ChainCounts | src/infrastructure/modules/cqrs.module.ts:40-89 | per request at most one lock attempt, at most maxRetries handler calls, and exactly one delay between consecutive calls |
| CommandAnswers.ChainAnswersTheLastCall | src/infrastructure/modules/cqrs.module.ts:40-89 | with no observer refusing and both keys free, for any handler: it is called on the locked store and the state the observers passed on, again only after a conflict with 409 and attempts left; its last success or failure is the answer as it is, its throw becomes a failure, and that outcome settles record and lock |
| CommandAnswers.SteadyHandler | src/application/cqrs/pipelines/concurrency-retry.pipeline.ts:91-127 | a handler that always comes to the same outcome is called maxRetries times if that is a conflict with status 409 and there is a retry layer, and once otherwise |
| Pipelines.BarrierCatches | src/application/cqrs/pipelines/exception.pipeline.ts:19-33 | around anything: a success or failure comes back as it is, a thrown application error as a failure with that error, anything else thrown as the system error with status 500, and the world is left alone |
| Pipelines.SwappedOrderRetriesConflict | src/infrastructure/modules/utils/pipeline.utils.ts:30-54 | with the layers the other way round the layer's own conflict would be tried maxRetries times |
| Pipelines.ConflictIsNotRetried | src/infrastructure/modules/utils/pipeline.utils.ts:30-54 | in the composed order a locked request tries the lock once, calls no handler and is not retried |
| Pipelines.GuardIsARun | src/application/cqrs/pipelines/idempotency.pipeline.ts:87-135 | the layer around anything that leaves its two keys alone does to these keys what the protocol machine does in one of its runs, and answers with its response; a failure is passed on as that failure and a throw as that throw |
| Pipelines.NoContextNoCommand | src/application/cqrs/pipelines/idempotency.pipeline.ts:78-85 | without a network context the command is a conflict and nothing else happens |
| Pipelines.RefusalStopsEverything | src/infrastructure/modules/cqrs.module.ts:40-66 | a refusal by the outermost observer leaves store and trace untouched and is the answer, a thrown one caught |
| QueryCache.RunKeepsValid | src/application/cqrs/pipelines/query-caching.pipeline.ts:43-90 | every interleaving of queries, expiries, evictions and read or write faults keeps the invariant tying entries, writes, handler runs and answers together |
| QueryCache.CachedValuesAreGenuine | src/application/cqrs/pipelines/query-caching.pipeline.ts:77-86 | whatever is stored under a key came from a successful handler run of a cached query with that key |
| QueryCache.EveryAnswerIsAccountedFor | src/application/cqrs/pipelines/query-caching.pipeline.ts:57-89 | each request runs its handler at most once, and answers with that run's outcome or, without having run, with a value written under its key less than the writer's lifetime ago |
| QueryCache.BypassAnswersAreOwn | src/application/cqrs/pipelines/query-caching.pipeline.ts:44-57 | bypassing, asking for a consistent read or giving no cache key means the answer is the outcome of the request's own run |
| QueryCache.CachedAnswersStayPrivate | src/application/cqrs/pipelines/query-caching.pipeline.ts:53-68 | if user-scoped keys tell users and cache keys apart and are no contextual keys: in every run an answer from the cache to a user-scoped query was written, within its lifetime, by a user-scoped query of the same user and cache key, and one to another query under the same contextual key; it is the outcome of the writer's handler |
| QueryCache.CacheIsTransparent | src/application/cqrs/pipelines/query-caching.pipeline.ts:43-90 | if what a query can leave in the cache for another is what the other's handler would answer, every answer in every run equals the handler's |
| QueryCache.TransparentIff | src/application/cqrs/pipelines/query-caching.pipeline.ts:43-90 | every answer in every run equals the handler's if and only if no cached query with a positive lifetime and a defined success shares its key with a non-bypassing query whose handler answers differently |
| QueryCache.EqualKeysSuffice | src/application/cqrs/pipelines/query-caching.pipeline.ts:43-90 | in particular, if equal keys mean equal handler outcomes |
| QueryCache.SoloIsARun | src/application/cqrs/pipelines/query-caching.pipeline.ts:43-90 | the sequential path of one query is one of the machine's runs |
| QueryCache.Handle | src/application/cqrs/pipelines/query-caching.pipeline.ts:43-90 | with an undisturbed store, under the user-scoped or contextual key the options ask for: a readable defined value answers without the handler unless the query bypasses the cache; otherwise the handler's outcome is the answer and a success is readable under that key for its lifetime, a day by default |
| QueryCache.SecondQueryHits | src/application/cqrs/pipelines/query-caching.pipeline.ts:59-80 | after a write the same query is answered from the cache exactly while the lifetime lasts and if the value was defined |
| Bootstrap.SortIsStable | src/infrastructure/builder/app.builder.ts:508-508 | the build order is ascending in priority, a permutation of the queue, and keeps the queueing order within a priority |
| BootstrapOrder.QueueIsAlwaysWellFormed | src/infrastructure/builder/app.builder.ts:543-551 | for every sequence of calls each flagged module is queued exactly once if its flag is set, context always is, and middleware or pipeline imply logger and cache |
| BootstrapOrder.ExecLearns | src/infrastructure/modules/middleware.module.ts:51-190 | commands that resolve only what is ready by then never fail to resolve, whatever else is registered, and finish exactly if no token is registered twice and every check passes |
| BootstrapOrder.ModulesAreCovered | src/infrastructure/modules/cqrs.module.ts:26-93 | run in priority order, every module finds what it resolves registered by the modules before it |
| BootstrapOrder.BuildOutcome | src/infrastructure/builder/app.builder.ts:506-529 | for every sequence of calls a build attempt on an open container with the configuration service, whatever else it has, never fails on an unregistered token, and succeeds if and only if no token is registered twice and every configuration check passes |
| BootstrapOrder.NeedsRunOnceAndFirst | src/infrastructure/builder/app.builder.ts:543-608 | a queued middleware or pipeline module has context, logger and cache modules run exactly once and earlier |
| BuilderCalls.QueuedIffAskedFor | src/infrastructure/builder/app.builder.ts:167-445 | a module is queued if and only if some call asks for it, by itself or as a need of another; context always is |
| BuilderCalls.LastSettingIsInForce | src/infrastructure/builder/app.builder.ts:193-390 | for cache, middlewares, pipeline and HTTP token the last call that gives a configuration decides it, and without one the defaults are in force |
| BuilderCalls.FirstAuthIsInForce | src/infrastructure/builder/app.builder.ts:282-296 | the first addAuth decides the authentication configuration, whatever later ones say |
| BuilderCalls.ModulesRunInOrder | src/infrastructure/builder/app.builder.ts:506-511 | context, logger, cache, adapter and authentication, middlewares, pipeline, HTTP core, concurrency, user modules and service callbacks run in this order, user code of one kind in the order it was handed over |
| BootstrapSuccess.RegistersAtHome | src/infrastructure/modules/middleware.module.ts:51-190 | each framework service is registered by one module at one position only |
| BootstrapSuccess.BuildSucceedsExactly | src/infrastructure/builder/app.builder.ts:380-393 | if user code keeps to its own tokens, a build attempt succeeds if and only if every queued module accepts its configuration, the auth client included, addHttpCore was called at most once, and no module registers a token the container has already |
| BootstrapSuccess.FreshContainerIsFree | src/infrastructure/builder/app.builder.ts:59-62 | on a container of the builder's own, no module registers a token it has already |
| BuiltContainer.BuiltContainerProvides | src/infrastructure/modules/cqrs.module.ts:26-93 | after every successful build, each service that comes with the calls is registered with its lifetime and dependencies, resolves through every open scope and, unless it is scoped, from the root, and those the modules resolve while configuring exist already |
| BuiltContainer.BuiltContainerProvidesNoMore | src/infrastructure/modules/middleware.module.ts:51-190 | if user code keeps to its own tokens, a successful build has registered exactly the services that come with the calls besides what was there, which is kept |
| BuiltContainer.UserRegistrationsStand | src/infrastructure/builder/app.builder.ts:410-445 | after a successful build every registration of a user module or service callback and the last HTTP token stand |
| BuildByCalls.BuildSucceedsByTheCalls | src/infrastructure/builder/app.builder.ts:474-529 | if user code keeps to its own tokens, a build succeeds if and only if the configurations in force are acceptable, addHttpCore was called once at most and with a token, and nothing the calls bring is registered already |
| BuildByCalls.FailureIsTrue | src/infrastructure/builder/app.builder.ts:508-526 | a failing build names a queued module that refuses its configuration or registers a token that is registered by then |
| AppBuilders.AppBuilder.constructor | src/infrastructure/builder/app.builder.ts:55-66 | on any container without the configuration service, new or handed over: it is registered, the context module queued, and no calls have been made |
| AppBuilders.AppBuilder.AddAdapter | src/infrastructure/builder/app.builder.ts:167-181 | the object stays what the calls made so far lead to: the adapter module is queued once |
| AppBuilders.AppBuilder.AddContext | src/infrastructure/builder/app.builder.ts:209-212 | the object stays what the calls made so far lead to: the context module is queued once |
| AppBuilders.AppBuilder.AddLogger | src/infrastructure/builder/app.builder.ts:224-243 | the object stays what the calls made so far lead to: the logger module is queued once |
| AppBuilders.AppBuilder.AddConcurrencyService | src/infrastructure/builder/app.builder.ts:326-339 | the object stays what the calls made so far lead to: the concurrency module is queued once |
| AppBuilders.AppBuilder.AddServices | src/infrastructure/builder/app.builder.ts:410-423 | the object stays what the calls made so far lead to: every call queues its callback |
| AppBuilders.AppBuilder.AddModule | src/infrastructure/builder/app.builder.ts:435-445 | the object stays what the calls made so far lead to: every call queues its module |
| AppBuilders.AppBuilder.QueueMiddlewareModule | src/infrastructure/builder/app.builder.ts:571-601 | unless queued already, the missing ones of context, logger and cache are queued, then the middleware module |
| AppBuilders.AppBuilder.QueuePipelineModule | src/infrastructure/builder/app.builder.ts:543-562 | unless queued already, the missing ones of context, logger and cache are queued, then the pipeline module |
| AppBuilders.AppBuilder.AddMiddlewares | src/infrastructure/builder/app.builder.ts:193-197 | the object stays what the calls made so far lead to: configuration replaced, module and missing prerequisites queued |
| AppBuilders.AppBuilder.AddCache | src/infrastructure/builder/app.builder.ts:254-273 | the object stays what the calls made so far lead to: the configuration is taken even if the module is queued already |
| AppBuilders.AppBuilder.AddAuth | src/infrastructure/builder/app.builder.ts:282-300 | the object stays what the calls made so far lead to: the configuration is taken only by the first call |
| AppBuilders.AppBuilder.AddPipeline | src/infrastructure/builder/app.builder.ts:355-362 | the object stays what the calls made so far lead to: the configuration is taken, the module and its missing prerequisites queued once |
| AppBuilders.AppBuilder.AddHttpCore | src/infrastructure/builder/app.builder.ts:380-396 | the object stays what the calls made so far lead to: every call queues the module again |
| AppBuilders.AppBuilder.Perform | src/infrastructure/modules/middleware.module.ts:34-190 | a module's commands run on the container object with the specified operations and verdict |
| AppBuilders.AppBuilder.ExecuteBuild | src/infrastructure/builder/app.builder.ts:506-529 | the module list is sorted in place and the operations performed on the container object and the outcome are the specified build attempt |
| AppBuilders.AppBuilder.Build | src/infrastructure/builder/app.builder.ts:474-492 | for every sequence of calls made on the object and any open container: a build never fails on an unregistered token, context, logger and cache run before what relies on them, and after a success every service that comes with the calls is registered as it should be and can be resolved; if user code keeps to its own tokens it succeeds if and only if the calls are acceptable and nothing they bring is registered already |
| RoutePatterns.PatternParses | src/infrastructure/services/allow_methods/allow-method.service.ts:65-75 | for every path the constructed source is within the modelled expression language, and every escaped character of a literal segment stands for itself |
| RoutePatterns.PatternAcceptsExactly | src/infrastructure/services/allow_methods/allow-method.service.ts:65-75 | the pattern accepts exactly the texts whose segments match one by one, literal or non-empty slash-free parameter, with at most one slash after them |
| RoutePatterns.PatternIsSegmentwise | src/infrastructure/services/allow_methods/allow-method.service.ts:65-75 | on a text without a trailing slash the pattern is the comparison of the segments |
| AllowMethods.NormalizeTwice | src/infrastructure/services/allow_methods/allow-method.service.ts:58-63 | normalizing again changes nothing if and only if the trimmed path without its trailing slashes does not end in white space, or is empty with one slash trimmed at most |
| AllowMethods.SlashesVanish | src/infrastructure/services/allow_methods/allow-method.service.ts:58-63 | a path of two or more slashes becomes the empty string, which becomes a slash |
| AllowMethods.NormalizeIgnoresDecoration | src/infrastructure/services/allow_methods/allow-method.service.ts:58-63 | surrounding white space, a missing leading slash and trailing slashes make no difference to the normalized path |
| AllowMethods.CleanIgnoresQueryAndFragment | src/infrastructure/services/allow_methods/allow-method.service.ts:26-26 | a lookup ignores everything from the first question mark or number sign on |
| AllowMethods.LastStaticWins | src/infrastructure/services/allow_methods/allow-method.service.ts:25-29 | the static route registered last under a path decides, whatever dynamic routes match |
| AllowMethods.FirstDynamicWins | src/infrastructure/services/allow_methods/allow-method.service.ts:31-33 | without a static route, the first registered dynamic route whose segments match decides |
| AllowMethods.UnknownPathsHaveNone | src/infrastructure/services/allow_methods/allow-method.service.ts:35-35 | a path no route matches has no methods |
| RouteKinds.PlaceholdersTakeAnything | src/infrastructure/services/allow_methods/allow-method.service.ts:54-75 | a route with a segment :name or {name} answers a lookup if and only if there are as many parts, none at a placeholder is empty, and the other segments are literally there |
| RouteKinds.LiteralsTakeThemselves | src/infrastructure/services/allow_methods/allow-method.service.ts:54-56 | a route without colons and braces answers for its own text alone |
| AllowMethods.PrintedIsReadBack | src/infrastructure/services/allow_methods/allow-method.service.ts:38-43 | the printed list read as a comma-separated header gives the method names back, in order |
| AllowMethods.CheckAgreesWithHeader | src/infrastructure/services/allow_methods/allow-method.service.ts:25-43 | a method is allowed if and only if its name is an item of the header that would be printed |
| AllowMethods.AllowMethodRegistry.Add | src/infrastructure/services/allow_methods/allow-method.service.ts:14-23 | the registry afterwards is the one specified for the routes added so far |
| AllowMethods.AllowMethodRegistry.Check | src/infrastructure/services/allow_methods/allow-method.service.ts:25-36 | true if and only if the method is among those found for the cleaned path, equivalently among those printed |
| AllowMethods.AllowMethodRegistry.FindMethods | src/infrastructure/services/allow_methods/allow-method.service.ts:45-52 | finds the static route's methods or those of the first matching pattern |
| AllowMethods.AllowMethodRegistry.GetMethods | src/infrastructure/services/allow_methods/allow-method.service.ts:38-43 | prints the methods found for the cleaned path |
| PercentCoding.RoundTrip | src/infrastructure/services/extractors/extract-ssr-bearer.extractor.ts:31-31 | decoding a percent-encoded string gives the string back, for every string of code points |
| PercentCoding.DecodesOnlyUtf8 | src/infrastructure/services/extractors/extract-ssr-bearer.extractor.ts:31-31 | whatever decodes decodes to the string whose UTF-8 bytes the text stands for: no overlong form, surrogate or broken escape is accepted |
| PercentCoding.EncodedIsPlain | src/infrastructure/services/extractors/extract-ssr-bearer.extractor.ts:24-31 | an encoded string has no character that would end or split a cookie |
| PercentDecoding.DecodesExactly | src/infrastructure/services/extractors/extract-ssr-bearer.extractor.ts:31-31 | a text decodes to a string if and only if the bytes it stands for, escapes as they are and other characters in UTF-8, are that string in UTF-8 |
| PercentDecoding.DigitsInEitherCase | src/infrastructure/services/extractors/extract-ssr-bearer.extractor.ts:31-31 | an escape has sixteen digits, the letters among them in either case |
| PercentDecoding.CaseOfEscapesIsIgnored | src/infrastructure/services/extractors/extract-ssr-bearer.extractor.ts:31-31 | the case of the hexadecimal digits in escapes makes no difference to what is decoded or whether it is |
| SsrTokens.ChunkNames | src/infrastructure/services/extractors/extract-ssr-bearer.extractor.ts:36-37 | a cookie name is chunk i if and only if it is a token name, a dot and a numeral for i |
| ChunkNumerals.ChunksAreNumbered | src/infrastructure/services/extractors/extract-ssr-bearer.extractor.ts:33-37 | a cookie name is chunk i if and only if it is sb-, a reference, -auth-token, a dot, perhaps zeros, and i in decimal; without the dot and the numeral it is the whole token |
| SsrTokens.ThrowsIff | src/infrastructure/services/extractors/extract-ssr-bearer.extractor.ts:28-31 | reading the cookies throws if and only if some cookie with a value, related or not, cannot be decoded |
| SsrTokens.LastChunkWins | src/infrastructure/services/extractors/extract-ssr-bearer.extractor.ts:36-37 | in any order, the last cookie numbered i is chunk i |
| SsrTokens.LastWholeWins | src/infrastructure/services/extractors/extract-ssr-bearer.extractor.ts:33-42 | the last unchunked cookie is the token and wins over all chunks |
| SsrTokens.OrderIsUnique | src/infrastructure/services/extractors/extract-ssr-bearer.extractor.ts:43-46 | there is only one ascending order of a set of indices |
| SsrTokens.SortedIndices | src/infrastructure/services/extractors/extract-ssr-bearer.extractor.ts:43-45 | the indices are listed in ascending order, each once |
| SsrTokens.ReadCookies | src/infrastructure/services/extractors/extract-ssr-bearer.extractor.ts:25-39 | the loop over the cookies computes the specified jar or throws where it does |
| SsrTokens.JoinChunks | src/infrastructure/services/extractors/extract-ssr-bearer.extractor.ts:46-46 | the chunks are concatenated in the order of the indices |
| SsrTokens.FullToken | src/infrastructure/services/extractors/extract-ssr-bearer.extractor.ts:24-47 | what is yielded is the whole token, or the chunks joined in ascending order, or nothing, or a throw |
| SsrTokens.Extract | src/infrastructure/services/extractors/extract-ssr-bearer.extractor.ts:15-60 | a header with "Bearer " at its head, letters in either case, wins; otherwise the text found in the cookies is parsed; an undecodable cookie throws |
| SsrTokens.ChunksAreReassembled | src/infrastructure/services/extractors/extract-ssr-bearer.extractor.ts:24-47 | for every header whose cookies carry every chunk of a token, in any order, repeated or not, among decodable others, what is yielded is the token and nothing else |
| SsrTokens.SentCookiesAreRead | src/infrastructure/services/extractors/extract-ssr-bearer.extractor.ts:24-24 | the header a browser sends is read as the cookies it was made of |
| SsrTokens.TokenRoundTrip | src/infrastructure/services/extractors/extract-ssr-bearer.extractor.ts:24-47 | a token chunked, percent-encoded and sent among other cookies is what the extractor yields, and all it can yield |
| Base64Url.RoundTrip64 | src/infrastructure/services/crypto/crypto.service.ts:30-33 | the rewritten btoa output decodes to the bytes it was made of |
| Base64Url.EncodesUnpadded | src/infrastructure/services/crypto/crypto.service.ts:30-33 | the three replacements yield exactly the unpadded letters of the URL-safe alphabet |
| Base64Url.EncodedShape | src/infrastructure/services/csrf/csrf-token.service.ts:16-19 | only letters of the URL-safe alphabet, so no dot, and four for every three bytes, rounded up |
| CsrfTokens.TimingSafeEqual | src/infrastructure/services/crypto/crypto.service.ts:36-45 | the accumulated differences are zero if and only if the two buffers hold the same bytes |
| CsrfTokens.EqualBuffers | src/infrastructure/services/csrf/csrf-token.service.ts:38-44 | two encoded buffers are equal if and only if the strings are |
| CsrfTokens.CsrfTokenService.Generate | src/infrastructure/services/csrf/csrf-token.service.ts:14-24 | the token of a nonce of 43 letters, dot and signature is valid for the subject if and only if the MAC of its message is not empty |
| CsrfTokens.EncodeText | src/infrastructure/services/csrf/csrf-token.service.ts:38-40 | the buffer holds the UTF-8 bytes of the string |
| CsrfTokens.CsrfTokenService.Validate | src/infrastructure/services/csrf/csrf-token.service.ts:26-45 | true if and only if the token is a non-empty dot-free nonce, a dot, and the non-empty signature of subject and that nonce |
| CsrfTokens.TokenParts | src/infrastructure/services/csrf/csrf-token.service.ts:27-34 | the nonce of a token is what stands before its first dot |
| CsrfTokens.GeneratedIsValid | src/infrastructure/services/csrf/csrf-token.service.ts:14-45 | for a MAC that never is empty, a generated token is valid for its subject whatever the random bytes |
| CsrfTokens.TokenIsBoundToSubject | src/infrastructure/services/csrf/csrf-token.service.ts:36-44 | a token valid for one subject is valid for another if and only if the MAC gives the same result on the two different messages |
| CsrfTokens.SignatureServesOnePair | src/infrastructure/services/csrf/csrf-token.service.ts:26-45 | a signature made for one subject and nonce makes a valid token for another pair if and only if the MAC gives the same non-empty result on the two different messages |
| CsrfTokens.MessageDetermines | src/infrastructure/services/csrf/csrf-token.service.ts:36-36 | subject and dot-free nonce can be read off the signed message |
| CsrfTokens.TokensDiffer | src/infrastructure/services/csrf/csrf-token.service.ts:14-24 | different random bytes give different tokens |
| Authorization.PolicyRegistry.AddPolicy | src/application/policies/policy-registry.ts:26-39 | the policy is found again under its intent in any case, and intents that differ after folding find what they did before |
| Authorization.LastEntryCounts | src/infrastructure/modules/utils/auth.utils.ts:48-50 | of the entries whose intents agree after case folding, the last one is the policy in force |
| Authorization.NoEntryNoPolicy | src/application/policies/policy-registry.ts:32-39 | an intent no entry agrees with has no policy |
| Authorization.FirstFailureWins | src/application/cqrs/pipelines/authorization.pipeline.ts:29-38 | the decision is the error of the first failing strategy, and success if none fails |
| Authorization.Handle | src/application/cqrs/pipelines/authorization.pipeline.ts:29-38 | the loop returns the first strategy's error at once, and nothing if and only if every strategy passes |
| Authorization.ExecuteStrategy | src/application/cqrs/pipelines/pipeline_strategies/auth/base-authorization.strategy.ts:34-42 | a strategy refuses without a context, and otherwise checks the policy the registry has for the intent |
| Authorization.CollectPolicies | src/infrastructure/modules/utils/auth.utils.ts:48-67 | the loop fills the registry and finds exactly the kinds of requirement some entry has |
| Authorization.ListStrategies | src/infrastructure/modules/utils/auth.utils.ts:69-87 | exactly the strategies of the kinds found, each once and in the fixed order |
| Authorization.AddAuthZ | src/infrastructure/modules/utils/auth.utils.ts:40-100 | the registry holds the folded table and the strategies are those some entry needs, in the fixed order, then the custom ones |
| Authorization.LeftOutNeverFails | src/infrastructure/modules/utils/auth.utils.ts:52-87 | a strategy left out and not overlooked never fails for a request with a context |
| Authorization.PruningPreserves | src/infrastructure/modules/utils/auth.utils.ts:40-100 | if no field is overlooked, the installed strategies, with any custom ones behind, decide every request with a context as all four would, with the same first error |
| Authorization.AdmitsExactly | src/application/cqrs/pipelines/authorization.pipeline.ts:29-38 | if no field is overlooked, a request with a context passes the installed strategies if and only if its identity satisfies the policy in force: a shared role, a shared permission, valid ids where asked for |
| Authorization.ErrorsByRank | src/application/cqrs/pipelines/authorization.pipeline.ts:29-38 | with nothing overlooked, the error is: forbidden for missing roles, else forbidden for missing permissions, else unauthorized for a missing or invalid user id, else unauthorized for the tenant id, else none |
| Authorization.PruningIsExact | src/infrastructure/modules/utils/auth.utils.ts:60-66 | leaving strategies out changes no decision if and only if no policy in force gives userId or tenantId a value that counts as empty while no entry gives it another one |
| Authorization.PruningCanFailIff | src/infrastructure/modules/utils/auth.utils.ts:60-66 | there is a policy table for which leaving strategies out matters if and only if there is a value that counts as empty |
| Authorization.SwitchedOffStillDemands | src/application/cqrs/pipelines/pipeline_strategies/auth/user-authorization.strategy.ts:43-46 | a policy giving nothing but a switch for userId, on or off, admits exactly valid ids with all four strategies, and with the installed ones too unless the switch counts as empty and the strategy is left out |
| Authorization.OverlookedShows | src/application/cqrs/pipelines/pipeline_strategies/auth/user-authorization.strategy.ts:43-46 | for an overlooked field, an intent and identity that all four refuse and the installed ones admit |
| Authorization.MissingContext | src/application/cqrs/pipelines/pipeline_strategies/auth/base-authorization.strategy.ts:34-42 | without a request context all four refuse, and the installed ones do so if and only if some strategy is installed |

## Left out

- Resolver.Resolve: a factory is an ordered list of dependencies resolved through the scope it is handed, then a throw or a fresh object; factories that catch errors, resolve conditionally or return an object twice are not modelled, nor scoped factories returning `undefined`.
- ServiceContainers.ServiceContainer.Dispose: disposal is one step; instances tracked while an asynchronous `dispose()` is awaited are not modelled.
- ServiceContainers.ServiceContainer.RunAsync: the callback resolves a list of tokens through its own scope; AsyncLocalStorage is the explicit resolution context and scope parameter.
- IdempotencyStores.Handle: the method has no store faults and no interleaving; those are steps of the state machine. Key prefixes and the key builder are two different keys. A store call whose effect happens although it throws is not modelled.
- IdempotencyGuarantees.SuccessesAreApart: assumes the clock of the store and of the bound is the same.
- TtlStore.RedisCache.Set: values come back as they were stored; JSON serialization is not modelled.
- TtlStore.Increment: a transaction whose `exec` returns null counts as one hit in the source; the model's transactions always succeed. The in-memory cache's increment is a read and a write and is not modelled.
- QueryCache.Handle: a key builder that throws is not modelled; lifetimes that are not positive are refused by the store and modelled as failing writes.
- QueryCache.CachedAnswersStayPrivate: that user-scoped keys tell users apart is a hypothesis; the key builder is not part of the repository.
- RateLimiter.Execute: error bodies and headers are not modelled.
- Pipelines.RetryHandle: waiting times are not modelled, only that there is a wait (the documentation says exponential backoff, the code waits with the same base delay and jitter every time); a retry layer without a positive number of attempts is refused by its constructor.
- Pipelines.ChainGuarantees: logging, performance, authorization and validation are observers that may refuse or pass on; their own effects are an arbitrary change of an inner state.
- BootstrapOrder.BuildOutcome: user modules and services only register; what they resolve, logger, validation and authorization callbacks, `addDb` plugins, dynamic imports and adapters that throw are not modelled. The numeric checks of the pipeline's behaviours are one check.
- BootstrapSuccess.BuildSucceedsExactly: the factories of framework services never throw; a cache client whose factory does would make the modules that resolve the cache fail. Whether the authentication client accepts its configuration is a parameter.
- AppBuilders.AppBuilder.Build: one attempt on one container, after which no further calls are made; the cached promise, and the reset after a failed attempt, which the source starts after it has cleared the promise, are not modelled.
- RoutePatterns.PatternAcceptsExactly: the expression language is the part the patterns use; strings are sequences of code points, not of UTF-16 code units.
- AllowMethods.AllowMethodRegistry.Check: methods are the seven named ones in upper case.
- SsrTokens.FullToken: indices are unbounded; numerals of 2^53 and above, which the source rounds, are not modelled. Header values with unpaired surrogates are not modelled.
- SsrTokens.Extract: parsing the joined text as JSON and taking its access token is a function parameter.
- CsrfTokens.CsrfTokenService.Validate: strings are code points; unpaired surrogates, which the text encoder replaces, are not modelled. Execution time is not modelled.
- Authorization.PruningIsExact: the set-up without a policy table, where only custom strategies are installed, is not modelled.
- HTTP adapters, middleware bodies, controllers, loggers, data sources, resilience and concurrency services, `UnitOfWork`, repositories and configuration are thin wrappers around libraries or settled by one branch.
