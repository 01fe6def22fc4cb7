/**
  The builder as an object with its queueing flags, configuration fields and module
  list.  It stays what the calls made on it lead to in Bootstrap.dfy, so what is proved
  there of every sequence of calls holds of its build, which runs the sorted modules on
  a service container object.
 */
module AppBuilders {
  import opened Wrappers
  import opened Tokens
  import opened DependencyGraph
  import opened ContainerHistory
  import opened ServiceContainers
  import opened Bootstrap
  import opened BootstrapOrder
  import opened BootstrapSuccess
  import opened BuiltContainer
  import opened BuildByCalls
  import opened ContainerGuarantees

  class AppBuilder {
    const container: ServiceContainer
    var modules: seq<Module>
    var cache: CacheConfig
    var middleware: MiddlewareConfig
    var pipeline: PipelineConfig
    var auth: AuthConfig
    var httpToken: Option<Token>
    var isContextModuleQueued: bool
    var isMiddlewareModuleQueued: bool
    var isPipelineModuleQueued: bool
    var isLoggerModuleQueued: bool
    var isAuthModuleQueued: bool
    var isConcurrencyServiceQueued: bool
    var isCacheModuleQueued: bool
    var isAdapterModuleQueued: bool
    /** The calls made on this builder so far. */
    ghost var calls: seq<Call>

    function View(): Builder
      reads this
    {
      Builder(
        modules,
        Flags(isContextModuleQueued, isLoggerModuleQueued, isCacheModuleQueued, isAdapterModuleQueued,
              isAuthModuleQueued, isMiddlewareModuleQueued, isPipelineModuleQueued, isConcurrencyServiceQueued),
        cache, middleware, pipeline, auth, httpToken)
    }

    /** The fields hold exactly what the calls made so far lead to. */
    ghost predicate Valid()
      reads this
    {
      View() == After(calls)
    }

    /**
      The configuration service is registered on the container, new or handed over, and the
      context module queued.  A container that has the service already refuses it.
     */
    constructor (container: ServiceContainer)
      requires container.Valid() && Framework(ConfigurationService) !in container.registrations
      modifies container`registrations, container`ops
      ensures Valid() && calls == [] && this.container == container
      ensures container.Valid() && container.ops == old(container.ops) + [CONFIGURATION]
      ensures !container.rootScope.isDisposed ==> Prepared(container.ops)
    {
      this.container := container;
      modules := [];
      cache := Fresh().cache;
      middleware, pipeline := Fresh().middleware, Fresh().pipeline;
      auth, httpToken := Fresh().auth, None;
      isContextModuleQueued, isMiddlewareModuleQueued, isPipelineModuleQueued := false, false, false;
      isLoggerModuleQueued, isAuthModuleQueued, isConcurrencyServiceQueued := false, false, false;
      isCacheModuleQueued, isAdapterModuleQueued := false, false;
      calls := [];
      new;
      if !container.rootScope.isDisposed {
        assert Run(container.ops).w.scopes[0] == container.rootScope.State();
        ConfigurationPrepares(container.ops);
      }
      var _ := container.Register(Framework(ConfigurationService), Singleton, SingletonOver([]).factory);
      QueueContextModule();
    }

    method AddAdapter()
      requires Valid()
      modifies this
      ensures View() == Apply(old(View()), Call.AddAdapter)
      ensures Valid() && calls == old(calls) + [Call.AddAdapter]
    {
      AfterOneMore(calls, Call.AddAdapter);
      calls := calls + [Call.AddAdapter];
      if isAdapterModuleQueued {
        return;
      }
      isAdapterModuleQueued := true;
      modules := modules + [AdapterModule];
    }

    method AddContext()
      requires Valid()
      modifies this
      ensures View() == Apply(old(View()), Call.AddContext)
      ensures Valid() && calls == old(calls) + [Call.AddContext]
    {
      AfterOneMore(calls, Call.AddContext);
      calls := calls + [Call.AddContext];
      QueueContextModule();
    }

    method QueueContextModule()
      modifies this`modules, this`isContextModuleQueued
      ensures View() == QueueOnce(old(View()), ContextModule)
    {
      if isContextModuleQueued {
        return;
      }
      isContextModuleQueued := true;
      modules := modules + [ContextModule];
    }

    method AddLogger()
      requires Valid()
      modifies this
      ensures View() == Apply(old(View()), Call.AddLogger)
      ensures Valid() && calls == old(calls) + [Call.AddLogger]
    {
      AfterOneMore(calls, Call.AddLogger);
      calls := calls + [Call.AddLogger];
      if isLoggerModuleQueued {
        return;
      }
      isLoggerModuleQueued := true;
      modules := modules + [LoggerModule];
    }

    method AddCache(config: Option<CacheConfig>)
      requires Valid()
      modifies this
      ensures View() == Apply(old(View()), Call.AddCache(config))
      ensures Valid() && calls == old(calls) + [Call.AddCache(config)]
    {
      AfterOneMore(calls, Call.AddCache(config));
      calls := calls + [Call.AddCache(config)];
      if config.Some? {
        cache := config.value;
      }
      if isCacheModuleQueued {
        return;
      }
      isCacheModuleQueued := true;
      modules := modules + [CacheModule];
    }

    method AddAuth(config: AuthConfig)
      requires Valid()
      modifies this
      ensures View() == Apply(old(View()), Call.AddAuth(config))
      ensures Valid() && calls == old(calls) + [Call.AddAuth(config)]
    {
      AfterOneMore(calls, Call.AddAuth(config));
      calls := calls + [Call.AddAuth(config)];
      if isAuthModuleQueued {
        return;
      }
      isAuthModuleQueued := true;
      auth := config;
      modules := modules + [AuthModule];
    }

    method AddConcurrencyService()
      requires Valid()
      modifies this
      ensures View() == Apply(old(View()), Call.AddConcurrencyService)
      ensures Valid() && calls == old(calls) + [Call.AddConcurrencyService]
    {
      AfterOneMore(calls, Call.AddConcurrencyService);
      calls := calls + [Call.AddConcurrencyService];
      if isConcurrencyServiceQueued {
        return;
      }
      isConcurrencyServiceQueued := true;
      modules := modules + [ConcurrencyModule];
    }

    method AddMiddlewares(config: MiddlewareConfig)
      requires Valid()
      modifies this
      ensures View() == Apply(old(View()), Call.AddMiddlewares(config))
      ensures Valid() && calls == old(calls) + [Call.AddMiddlewares(config)]
    {
      AfterOneMore(calls, Call.AddMiddlewares(config));
      calls := calls + [Call.AddMiddlewares(config)];
      middleware := config;
      QueueMiddlewareModule();
    }

    method AddPipeline(config: Option<PipelineConfig>)
      requires Valid()
      modifies this
      ensures View() == Apply(old(View()), Call.AddPipeline(config))
      ensures Valid() && calls == old(calls) + [Call.AddPipeline(config)]
    {
      AfterOneMore(calls, Call.AddPipeline(config));
      calls := calls + [Call.AddPipeline(config)];
      if config.Some? {
        pipeline := config.value;
      }
      QueuePipelineModule();
    }

    method QueueMiddlewareModule()
      modifies this
      ensures calls == old(calls)
      ensures View() == QueueWithNeeds(old(View()), MiddlewareModule)
    {
      if !isMiddlewareModuleQueued {
        QueueNeeds();
        isMiddlewareModuleQueued := true;
        modules := modules + [MiddlewareModule];
      }
    }

    method QueuePipelineModule()
      modifies this
      ensures calls == old(calls)
      ensures View() == QueueWithNeeds(old(View()), CqrsModule)
    {
      if !isPipelineModuleQueued {
        QueueNeeds();
        isPipelineModuleQueued := true;
        modules := modules + [CqrsModule];
      }
    }

    /** What `_queuePipelineModule` and `_queueMiddlewareModule` queue before their own module. */
    method QueueNeeds()
      modifies this`modules, this`isContextModuleQueued, this`isLoggerModuleQueued, this`isCacheModuleQueued
      ensures View() == WithNeeds(old(View()))
    {
      ghost var before := modules;
      if !isContextModuleQueued {
        isContextModuleQueued := true;
        modules := modules + [ContextModule];
      }
      if !isLoggerModuleQueued {
        isLoggerModuleQueued := true;
        modules := modules + [LoggerModule];
      }
      if !isCacheModuleQueued {
        isCacheModuleQueued := true;
        modules := modules + [CacheModule];
      }
      assert modules == before + MissingNeeds(old(View()).flags);
    }

    method AddHttpCore(token: Option<Token>)
      requires Valid()
      modifies this
      ensures View() == Apply(old(View()), Call.AddHttpCore(token))
      ensures Valid() && calls == old(calls) + [Call.AddHttpCore(token)]
    {
      httpToken := token;
      modules := modules + [HttpCoreModule];
      assert View() == Push(old(View()).(httpToken := token), HttpCoreModule);
      AfterOneMore(calls, Call.AddHttpCore(token));
      calls := calls + [Call.AddHttpCore(token)];
    }

    method AddServices(script: Script)
      requires Valid()
      modifies this
      ensures View() == Apply(old(View()), Call.AddServices(script))
      ensures Valid() && calls == old(calls) + [Call.AddServices(script)]
    {
      AfterOneMore(calls, Call.AddServices(script));
      calls := calls + [Call.AddServices(script)];
      modules := modules + [ServicesModule(script)];
    }

    method AddModule(script: Script)
      requires Valid()
      modifies this
      ensures View() == Apply(old(View()), Call.AddModule(script))
      ensures Valid() && calls == old(calls) + [Call.AddModule(script)]
    {
      AfterOneMore(calls, Call.AddModule(script));
      calls := calls + [Call.AddModule(script)];
      modules := modules + [UserModule(script)];
    }

    /** A module's commands, one after the other, until one fails. */
    method Perform(cmds: seq<Command>) returns (verdict: Verdict)
      requires container.Valid()
      modifies container`registrations, container`singletonInstances, container`completed, container`ops
      modifies container.rootScope
      ensures container.Valid()
      ensures (container.ops, verdict) == Exec(old(container.ops), cmds)
    {
      var i := 0;
      assert cmds[0..] == cmds;
      while i < |cmds|
        invariant 0 <= i <= |cmds| && container.Valid()
        invariant Exec(old(container.ops), cmds) == Exec(container.ops, cmds[i..])
      {
        assert cmds[i..][0] == cmds[i] && cmds[i..][1..] == cmds[i + 1..];
        match cmds[i] {
          case Reg(t, r) =>
            var accepted := container.Register(t, r.lifetime, r.factory);
            if !accepted {
              return Duplicate(t);
            }
          case Resolve(t) =>
            var found := container.ResolveFromRoot(t);
            if found.Failed? {
              return Unresolved(t);
            }
          case Check(ok) =>
            if !ok {
              return BadConfig;
            }
          case Skip =>
        }
        i := i + 1;
      }
      verdict := Done;
    }

    /** `_executeBuild`: the first module that fails ends the attempt. */
    method ExecuteBuild() returns (outcome: Build)
      requires container.Valid()
      modifies this`modules
      modifies container`registrations, container`singletonInstances, container`completed, container`ops
      modifies container.rootScope
      ensures container.Valid() && modules == Sort(old(modules))
      ensures (container.ops, outcome) == BuildAttempt(old(container.ops), old(View()))
    {
      ghost var b := View();
      var before := View();
      modules := Sort(modules);
      var i := 0;
      assert modules[0..] == modules;
      while i < |modules|
        invariant 0 <= i <= |modules| && container.Valid() && modules == Sort(b.modules)
        invariant BuildAttempt(old(container.ops), b) == ExecModules(b, container.ops, modules[i..])
      {
        assert modules[i..][0] == modules[i] && modules[i..][1..] == modules[i + 1..];
        var verdict := Perform(Commands(before, modules[i]));
        if verdict != Done {
          return FailedAt(modules[i], verdict);
        }
        i := i + 1;
      }
      outcome := Built;
    }

    /**
      Whatever calls were made and whatever the container has besides the configuration
      service: a build never fails for an unregistered token, the needs of a module run before
      it, and if user code is considerate it succeeds exactly if every module accepts its
      configuration, there is one HTTP core at most, and nothing registered is taken.
     */
    method Build() returns (outcome: Build)
      requires Valid() && container.Valid()
      modifies this`modules
      modifies container`registrations, container`singletonInstances, container`completed, container`ops
      modifies container.rootScope
      ensures container.Valid() && modules == Sort(old(modules))
      ensures (container.ops, outcome) == BuildAttempt(old(container.ops), After(calls))
      ensures Prepared(old(container.ops)) && outcome.FailedAt? ==> !outcome.verdict.Unresolved?
      ensures Prepared(old(container.ops)) && Considerate(After(calls)) ==>
        (outcome.Built? <==>
          && (forall m :: m in modules ==> Accepts(After(calls), m))
          && multiset(modules)[HttpCoreModule] <= 1
          && KeepsOff(After(calls), old(container.registrations).Keys))
      ensures Prepared(old(container.ops)) && Considerate(After(calls)) ==>
        (outcome.Built? <==> AcceptableCalls(calls) && NothingTaken(calls, old(container.registrations).Keys))
      ensures Prepared(old(container.ops)) && outcome.Built? ==>
        forall s :: Promised(calls, s) ==>
          && Provided(container.registrations, s)
          && (s != AuthService ==> WellFormed(container.registrations, Framework(s)))
          && (Woken(calls, s) ==> Framework(s) in container.singletonInstances)
      ensures forall m, n :: Relies(m, n) ==> RunsBefore(modules, n, m)
    {
      if Prepared(container.ops) {
        BuildPromises(container.ops, calls);
        BuildDelivers(container.ops, calls);
      }
      NeedsPrecede(calls);
      outcome := ExecuteBuild();
    }
  }

  lemma {:induction false} AfterOneMore(calls: seq<Call>, c: Call)
    ensures After(calls + [c]) == Apply(After(calls), c)
  {
    assert (calls + [c])[..|calls|] == calls;
  }

  predicate Relies(m: Module, n: Module) {
    (m == MiddlewareModule || m == CqrsModule) && (n == ContextModule || n == LoggerModule || n == CacheModule)
  }

  ghost predicate RunsBefore(ms: seq<Module>, n: Module, m: Module) {
    forall i, j :: 0 <= i < |ms| && 0 <= j < |ms| && ms[i] == n && ms[j] == m ==> i < j
  }

  /** What is known of every build attempt, in terms of the sorted queue. */
  lemma {:induction false} BuildPromises(start: seq<Op>, calls: seq<Call>)
    requires Prepared(start)
    ensures var b := After(calls);
      var build := BuildAttempt(start, b).1;
      && (build.FailedAt? ==> !build.verdict.Unresolved?)
      && (Considerate(b) ==>
        (build.Built? <==>
          && (forall m :: m in Sort(b.modules) ==> Accepts(b, m))
          && multiset(Sort(b.modules))[HttpCoreModule] <= 1
          && KeepsOff(b, Run(start).regs.Keys)))
  {
    var b := After(calls);
    var ms := Sort(b.modules);
    BuildOutcome(start, calls);
    SortIsStable(b.modules, 0);
    forall m
      ensures m in ms <==> m in b.modules
    {
      SameMembers(ms, b.modules, m);
    }
    if Considerate(b) {
      BuildSucceedsExactly(start, calls);
    }
  }

  /** What is known of every build attempt, in terms of the calls. */
  lemma {:induction false} BuildDelivers(start: seq<Op>, calls: seq<Call>)
    requires Prepared(start)
    ensures var (ops, build) := BuildAttempt(start, After(calls));
      && (Considerate(After(calls)) ==>
        (build.Built? <==> AcceptableCalls(calls) && NothingTaken(calls, Run(start).regs.Keys)))
      && (build.Built? ==> forall s :: Promised(calls, s) ==>
        && Provided(Run(ops).regs, s)
        && (s != AuthService ==> WellFormed(Run(ops).regs, Framework(s)))
        && (Woken(calls, s) ==> Framework(s) in Run(ops).w.singletons))
  {
    var (ops, build) := BuildAttempt(start, After(calls));
    if Considerate(After(calls)) {
      BuildSucceedsByTheCalls(start, calls);
    }
    if build.Built? {
      forall s | Promised(calls, s)
        ensures && Provided(Run(ops).regs, s)
                && (s != AuthService ==> WellFormed(Run(ops).regs, Framework(s)))
                && (Woken(calls, s) ==> Framework(s) in Run(ops).w.singletons)
      {
        BuiltContainerProvides(start, calls, s, 0);
        RootResolutionIsExact(ops, Framework(s));
      }
    }
  }

  lemma {:induction false} NeedsPrecede(calls: seq<Call>)
    ensures forall m, n :: Relies(m, n) ==> RunsBefore(Sort(After(calls).modules), n, m)
  {
    var b := After(calls);
    SortIsStable(b.modules, 0);
    forall m, n | Relies(m, n) && m in Sort(b.modules)
      ensures RunsBefore(Sort(b.modules), n, m)
    {
      SameMembers(Sort(b.modules), b.modules, m);
      NeedsRunOnceAndFirst(calls, m, n);
    }
  }
}
