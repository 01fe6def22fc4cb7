/**
  What a container that was built provides: for every call made on the builder, the services
  that come with it, registered as they should be and, unless they are scoped, resolvable
  from the root; and which of them the build has created already.
 */
module BuiltContainer {
  import opened Wrappers
  import opened Tokens
  import opened DependencyGraph
  import opened ContainerHistory
  import opened ContainerGuarantees
  import opened Bootstrap
  import opened BootstrapOrder
  import opened BootstrapSuccess
  import opened BuilderCalls
  import FailedResolves
  import Exactness

  // ---- The promise -----------------------------------------------------------------

  ghost predicate Csrf(calls: seq<Call>) {
    exists i: nat :: LastToSet(calls, i, MiddlewareSetting) && calls[i].middleware.csrf
  }

  ghost predicate Zod(calls: seq<Call>) {
    exists i: nat :: LastToSet(calls, i, PipelineSetting) && calls[i].pipeline.value.zod
  }

  /** The services that come with the calls made on the builder. */
  ghost predicate Promised(calls: seq<Call>, s: Service) {
    match s
    case ConfigurationService => true
    case RequestContext => true
    case ContextAccessor => true
    case IdentityAccessor => true
    case ServiceScopeAccessor => true
    case NetworkContextAccessor => true
    case UserContextFactory => true
    case Logger => exists c :: c in calls && (c.AddLogger? || c.AddMiddlewares? || c.AddPipeline?)
    case CacheKeyBuilder => exists c :: c in calls && (c.AddCache? || c.AddMiddlewares? || c.AddPipeline?)
    case Cache => exists c :: c in calls && (c.AddCache? || c.AddMiddlewares? || c.AddPipeline?)
    case HttpAdapter => exists c :: c in calls && (c.AddAdapter? || c.AddMiddlewares?)
    case AuthService => exists c :: c in calls && c.AddAuth?
    case BaseAuthService => exists c :: c in calls && c.AddAuth?
    case ServiceExtractor => exists c :: c in calls && c.AddMiddlewares?
    case Middleware => exists c :: c in calls && c.AddMiddlewares?
    case CryptoService => Csrf(calls)
    case CsrfTokenService => Csrf(calls)
    case Mediator => exists c :: c in calls && c.AddPipeline?
    case CommandPipelinesBehavior => exists c :: c in calls && c.AddPipeline?
    case QueryPipelinesBehavior => exists c :: c in calls && c.AddPipeline?
    case ValidatorService => Zod(calls)
    case ResilienceClient => exists c :: c in calls && c.AddHttpCore?
    case ConcurrencyService => AddConcurrencyService in calls
  }

  /** The authentication service alone is scoped; the few that have dependencies have these. */
  ghost predicate Provided(regs: Registry, s: Service) {
    Framework(s) in regs &&
    regs[Framework(s)] == match s
      case AuthService => Registration(Scoped, Factory([], false, false))
      case Logger => Registration(Singleton, Factory([Framework(ContextAccessor)], false, false))
      case CacheKeyBuilder => Registration(Singleton, Factory([Framework(IdentityAccessor)], false, false))
      case CsrfTokenService => Registration(Singleton, Factory([Framework(CryptoService)], false, false))
      case Mediator => Registration(Singleton, Factory([Framework(ServiceScopeAccessor)], false, false))
      case _ => Registration(Singleton, Factory([], false, false))
  }

  lemma CanonIsProvided(regs: Registry, s: Service)
    requires Framework(s) in regs && regs[Framework(s)] == Canon(s)
    ensures Provided(regs, s)
  {
  }

  // ---- What commands leave behind -------------------------------------------------

  ghost predicate Registers(regs: Registry, regs': Registry, cmds: seq<Command>) {
    && Includes(regs', regs)
    && forall i :: 0 <= i < |cmds| && cmds[i].Reg? ==>
      cmds[i].token in regs' && regs'[cmds[i].token] == cmds[i].registration
  }

  /** Commands that all went through have registered what they say and forgotten nothing. */
  lemma {:induction false} ExecRegisters(ops: seq<Op>, cmds: seq<Command>)
    ensures var (ops', verdict) := Exec(ops, cmds);
      verdict.Done? ==> Registers(Run(ops).regs, Run(ops').regs, cmds)
    decreases |cmds|
  {
    if cmds != [] {
      var rest := cmds[1..];
      assert forall i :: 0 < i < |cmds| ==> cmds[i] == rest[i - 1];
      match cmds[0]
      case Reg(t, r) =>
        RunExtends(ops, Register(t, r));
        ExecRegisters(ops + [Register(t, r)], rest);
        assert t !in Run(ops).regs ==> t in Run(ops + [Register(t, r)]).regs;
      case Resolve(t) =>
        RunExtends(ops, ResolveRoot(t));
        ExecRegisters(ops + [ResolveRoot(t)], rest);
      case _ => ExecRegisters(ops, rest);
    }
  }

  /** A singleton that is resolved from the root is cached then, and nothing cached is lost. */
  lemma RootResolveWakes(ops: seq<Op>, t: Token)
    requires RootOutcome(Run(ops).regs, Run(ops).w, t).1.Resolved?
    ensures var (h, h') := (Run(ops), Run(ops + [ResolveRoot(t)]));
      && h'.regs == h.regs && h.w.singletons.Keys <= h'.w.singletons.Keys
      && t in h.regs && (h.regs[t].lifetime == Singleton ==> t in h'.w.singletons)
  {
    var h := Run(ops);
    RunExtends(ops, ResolveRoot(t));
    RootResolutionIsExact(ops, t);
    FailedResolves.ResolveKeepsFronts(h.regs, h.w, 0, [], None, t);
  }

  /** A registered singleton that is cached, or anything else. */
  ghost predicate IsAwake(h: History, t: Token) {
    t in h.regs && h.regs[t].lifetime == Singleton ==> t in h.w.singletons
  }

  ghost predicate Wakes(h: History, h': History, cmds: seq<Command>) {
    && h.w.singletons.Keys <= h'.w.singletons.Keys
    && (forall i :: 0 <= i < |cmds| && cmds[i].Resolve? ==> IsAwake(h', cmds[i].token))
  }

  lemma {:induction false} ExecWakes(ops: seq<Op>, cmds: seq<Command>)
    ensures var (ops', verdict) := Exec(ops, cmds);
      verdict.Done? ==> Wakes(Run(ops), Run(ops'), cmds)
    decreases |cmds|
  {
    if cmds != [] {
      var rest := cmds[1..];
      assert forall i :: 0 < i < |cmds| ==> cmds[i] == rest[i - 1];
      match cmds[0]
      case Reg(t, r) =>
        RunExtends(ops, Register(t, r));
        ExecWakes(ops + [Register(t, r)], rest);
      case Resolve(t) =>
        if RootOutcome(Run(ops).regs, Run(ops).w, t).1.Resolved? {
          RootResolveWakes(ops, t);
          ExecWakes(ops + [ResolveRoot(t)], rest);
          ExecRegisters(ops + [ResolveRoot(t)], rest);
        }
      case _ => ExecWakes(ops, rest);
    }
  }

  lemma {:induction false} CommandIsRun(b: Builder, ms: seq<Module>, m: Module, k: nat)
    returns (i: nat)
    requires m in ms && k < |Commands(b, m)|
    ensures i < |All(b, ms)| && All(b, ms)[i] == Commands(b, m)[k]
    decreases |ms|
  {
    if ms[0] == m {
      i := k;
    } else {
      i := CommandIsRun(b, ms[1..], m, k);
      i := i + |Commands(b, ms[0])|;
    }
  }

  /** A successful attempt, as one run of all commands of all queued modules. */
  ghost predicate RanAll(start: seq<Op>, b: Builder, ops: seq<Op>) {
    && Exec(start, All(b, Sort(b.modules))) == (ops, Done)
    && Registers(Run(start).regs, Run(ops).regs, All(b, Sort(b.modules)))
    && Wakes(Run(start), Run(ops), All(b, Sort(b.modules)))
  }

  lemma BuiltRanAll(start: seq<Op>, b: Builder)
    requires BuildAttempt(start, b).1.Built?
    ensures RanAll(start, b, BuildAttempt(start, b).0)
  {
    ModulesRunAllCommands(b, start, Sort(b.modules));
    ExecRegisters(start, All(b, Sort(b.modules)));
    ExecWakes(start, All(b, Sort(b.modules)));
  }

  lemma QueuedIsRegistered(start: seq<Op>, b: Builder, ops: seq<Op>, m: Module, k: nat)
    requires RanAll(start, b, ops) && Queued(b, m) && k < |Commands(b, m)| && Commands(b, m)[k].Reg?
    ensures var c := Commands(b, m)[k]; c.token in Run(ops).regs && Run(ops).regs[c.token] == c.registration
  {
    SortIsStable(b.modules, 0);
    SameMembers(Sort(b.modules), b.modules, m);
    var i := CommandIsRun(b, Sort(b.modules), m, k);
  }

  // ---- The promise is kept --------------------------------------------------------

  lemma {:induction false} LastExists(calls: seq<Call>, i: nat, k: Setting) returns (j: nat)
    requires SetFrom(calls, i, k)
    ensures LastToSet(calls, j, k)
    decreases |calls| - i
  {
    j :| i <= j < |calls| && Sets(calls[j], k);
    if SetFrom(calls, j + 1, k) {
      j := LastExists(calls, j + 1, k);
    }
  }

  lemma {:induction false} AskedByMember(calls: seq<Call>, m: Module, c: Call)
    requires c in calls && AsksFor(c, m)
    ensures Queued(After(calls), m)
  {
    var i :| 0 <= i < |calls| && calls[i] == c;
    QueuedIffAskedFor(calls, m);
  }

  lemma {:induction false} AdapterIsQueued(calls: seq<Call>)
    requires Promised(calls, HttpAdapter)
    ensures Queued(After(calls), Home(After(calls), HttpAdapter).0)
  {
    var b := After(calls);
    QueueIsAlwaysWellFormed(calls);
    assert FlagValid(b.modules, b.flags, AdapterModule);
    var c :| c in calls && (c.AddAdapter? || c.AddMiddlewares?);
    if c.AddAdapter? {
      AskedByMember(calls, AdapterModule, c);
    } else {
      AskedByMember(calls, MiddlewareModule, c);
    }
  }

  /** Services of modules that are queued for the sake of one call. */
  lemma {:induction false} HomeIsQueued(calls: seq<Call>, s: Service)
    requires Promised(calls, s)
    ensures Queued(After(calls), Home(After(calls), s).0)
  {
    var m := Home(After(calls), s).0;
    if m == ContextModule {
      ContextIsQueued(calls);
    } else if s == HttpAdapter {
      AdapterIsQueued(calls);
    } else if s == CryptoService || s == CsrfTokenService {
      var i: nat :| LastToSet(calls, i, MiddlewareSetting) && calls[i].middleware.csrf;
      AskedByMember(calls, m, calls[i]);
    } else if s == ValidatorService {
      var i: nat :| LastToSet(calls, i, PipelineSetting) && calls[i].pipeline.value.zod;
      AskedByMember(calls, m, calls[i]);
    } else {
      var c :| c in calls && AsksFor(c, m);
      AskedByMember(calls, m, c);
    }
  }

  lemma HomeAdds(b: Builder, s: Service)
    requires s != ConfigurationService
    requires s == CryptoService || s == CsrfTokenService ==> b.middleware.csrf
    requires s == ValidatorService ==> b.pipeline.zod
    ensures var (m, k) := Home(b, s); 0 <= k < |Commands(b, m)| && Commands(b, m)[k] == Add(s)
  {
    var (m, k) := Home(b, s);
    match m
    case MiddlewareModule => MiddlewareAdds(b, s);
    case CqrsModule => CqrsAdds(b, s);
    case _ =>
  }

  lemma MiddlewareAdds(b: Builder, s: Service)
    requires Home(b, s).0 == MiddlewareModule
    requires s == CryptoService || s == CsrfTokenService ==> b.middleware.csrf
    ensures var k := Home(b, s).1;
      0 <= k < |Commands(b, MiddlewareModule)| && Commands(b, MiddlewareModule)[k] == Add(s)
  {
    match s
    case CryptoService => CsrfIsAdded(b);
    case CsrfTokenService => CsrfIsAdded(b);
    case HttpAdapter => AdapterIsAdded(b);
    case _ => MiddlewareIsAdded(b);
  }

  lemma CsrfIsAdded(b: Builder)
    requires b.middleware.csrf
    ensures |Commands(b, MiddlewareModule)| == 15
    ensures Commands(b, MiddlewareModule)[10] == Add(CryptoService)
    ensures Commands(b, MiddlewareModule)[11] == Add(CsrfTokenService)
  {
  }

  lemma AdapterIsAdded(b: Builder)
    requires !Flag(b.flags, AdapterModule)
    ensures |Commands(b, MiddlewareModule)| == 15 && Commands(b, MiddlewareModule)[0] == Add(HttpAdapter)
  {
  }

  lemma MiddlewareIsAdded(b: Builder)
    ensures |Commands(b, MiddlewareModule)| == 15
    ensures Commands(b, MiddlewareModule)[1] == Add(ServiceExtractor)
    ensures Commands(b, MiddlewareModule)[14] == Add(Middleware)
  {
  }

  lemma CqrsAdds(b: Builder, s: Service)
    requires Home(b, s).0 == CqrsModule && (s == ValidatorService ==> b.pipeline.zod)
    ensures var k := Home(b, s).1; 0 <= k < |Commands(b, CqrsModule)| && Commands(b, CqrsModule)[k] == Add(s)
  {
    if s == ValidatorService {
      ValidatorIsAdded(b);
    } else {
      PipelinesAreAdded(b);
    }
  }

  lemma ValidatorIsAdded(b: Builder)
    requires b.pipeline.zod
    ensures |Commands(b, CqrsModule)| == 13 && Commands(b, CqrsModule)[4] == Add(ValidatorService)
  {
  }

  lemma PipelinesAreAdded(b: Builder)
    ensures |Commands(b, CqrsModule)| == 13 && Commands(b, CqrsModule)[1] == Add(Mediator)
    ensures Commands(b, CqrsModule)[11] == Add(CommandPipelinesBehavior)
    ensures Commands(b, CqrsModule)[12] == Add(QueryPipelinesBehavior)
  {
  }

  lemma {:induction false} ConfigurationsAreInForce(calls: seq<Call>)
    ensures Csrf(calls) <==> After(calls).middleware.csrf
    ensures Zod(calls) <==> After(calls).pipeline.zod
  {
    forall i: nat
      ensures LastToSet(calls, i, MiddlewareSetting) ==> calls[i].middleware == After(calls).middleware
      ensures LastToSet(calls, i, PipelineSetting) ==> calls[i].pipeline == Some(After(calls).pipeline)
    {
      LastSettingIsInForce(calls, i);
    }
    LastSettingIsInForce(calls, 0);
    if SetFrom(calls, 0, MiddlewareSetting) {
      var i := LastExists(calls, 0, MiddlewareSetting);
    }
    if SetFrom(calls, 0, PipelineSetting) {
      var i := LastExists(calls, 0, PipelineSetting);
    }
  }

  lemma {:induction false} PromisedIsProvided(start: seq<Op>, calls: seq<Call>, ops: seq<Op>, s: Service)
    requires Prepared(start) && RanAll(start, After(calls), ops) && Promised(calls, s)
    ensures Provided(Run(ops).regs, s)
  {
    if s != ConfigurationService {
      var b := After(calls);
      var (m, k) := Home(b, s);
      ConfigurationsAreInForce(calls);
      HomeIsQueued(calls, s);
      HomeAdds(b, s);
      QueuedIsRegistered(start, b, ops, m, k);
    }
    CanonIsProvided(Run(ops).regs, s);
  }

  /** Nothing a promised service depends on is missing. */
  lemma {:induction false} PromisedIsReady(start: seq<Op>, calls: seq<Call>, ops: seq<Op>, s: Service)
    requires Prepared(start) && RanAll(start, After(calls), ops) && Promised(calls, s) && s != AuthService
    ensures Ready(Run(ops).regs, Framework(s))
  {
    PromisedIsProvided(start, calls, ops, s);
    PromisedIsProvided(start, calls, ops, ContextAccessor);
    PromisedIsProvided(start, calls, ops, IdentityAccessor);
    PromisedIsProvided(start, calls, ops, ServiceScopeAccessor);
    if s == CsrfTokenService {
      PromisedIsProvided(start, calls, ops, CryptoService);
    }
  }

  // ---- What the build has created already ------------------------------------------

  ghost predicate RateLimited(calls: seq<Call>) {
    exists i: nat :: LastToSet(calls, i, MiddlewareSetting) && calls[i].middleware.rateLimited
  }

  ghost predicate Idempotent(calls: seq<Call>) {
    exists i: nat :: LastToSet(calls, i, PipelineSetting) && calls[i].pipeline.value.idempotency
  }

  ghost predicate QueryBus(calls: seq<Call>) {
    exists i: nat :: LastToSet(calls, i, PipelineSetting) && calls[i].pipeline.value.queryBus
  }

  ghost predicate Policies(calls: seq<Call>) {
    exists i: nat :: LastToSet(calls, i, PipelineSetting) && calls[i].pipeline.value.policies
  }

  /** Authentication is left to the client the framework configures. */
  ghost predicate OwnAuth(calls: seq<Call>) {
    exists i: nat :: FirstAuth(calls, i) && !calls[i].auth.custom
  }

  /** The services the modules resolve while they configure themselves. */
  ghost predicate Woken(calls: seq<Call>, s: Service) {
    var middlewares := exists c :: c in calls && c.AddMiddlewares?;
    match s
    case RequestContext => middlewares
    case ServiceExtractor => middlewares
    case Logger => exists c :: c in calls && (c.AddMiddlewares? || c.AddPipeline?)
    case ConfigurationService => middlewares || OwnAuth(calls)
    case NetworkContextAccessor => OwnAuth(calls) || Idempotent(calls)
    case BaseAuthService => middlewares && exists c :: c in calls && c.AddAuth?
    case Cache => RateLimited(calls) || Idempotent(calls) || QueryBus(calls)
    case CacheKeyBuilder => Idempotent(calls) || QueryBus(calls)
    case CsrfTokenService => Csrf(calls)
    case ContextAccessor => Policies(calls)
    case _ => false
  }

  lemma {:induction false} SettingIsInForce(calls: seq<Call>, i: nat)
    ensures LastToSet(calls, i, MiddlewareSetting) ==>
      calls[i].middleware == After(calls).middleware && Queued(After(calls), MiddlewareModule)
    ensures LastToSet(calls, i, PipelineSetting) ==>
      calls[i].pipeline == Some(After(calls).pipeline) && Queued(After(calls), CqrsModule)
    ensures FirstAuth(calls, i) ==> calls[i].auth == After(calls).auth && Queued(After(calls), AuthModule)
  {
    LastSettingIsInForce(calls, i);
    if LastToSet(calls, i, MiddlewareSetting) {
      AskedByMember(calls, MiddlewareModule, calls[i]);
    }
    if LastToSet(calls, i, PipelineSetting) {
      AskedByMember(calls, CqrsModule, calls[i]);
    }
    if FirstAuth(calls, i) {
      FirstAuthIsInForce(calls, i);
      AskedByMember(calls, AuthModule, calls[i]);
    }
  }

  ghost predicate ResolvedAt(b: Builder, m: Module, k: nat, s: Service) {
    Queued(b, m) && k < |Commands(b, m)| && Commands(b, m)[k] == Res(s)
  }

  lemma {:induction false} AuthWakes(calls: seq<Call>)
    requires OwnAuth(calls)
    ensures ResolvedAt(After(calls), AuthModule, 0, NetworkContextAccessor)
    ensures ResolvedAt(After(calls), AuthModule, 1, ConfigurationService)
  {
    var i: nat :| FirstAuth(calls, i) && !calls[i].auth.custom;
    SettingIsInForce(calls, i);
  }

  lemma {:induction false} MiddlewaresWake(calls: seq<Call>, c: Call)
    requires c in calls && c.AddMiddlewares?
    ensures ResolvedAt(After(calls), MiddlewareModule, 2, RequestContext)
    ensures ResolvedAt(After(calls), MiddlewareModule, 3, Logger)
    ensures ResolvedAt(After(calls), MiddlewareModule, 4, ServiceExtractor)
    ensures ResolvedAt(After(calls), MiddlewareModule, 5, ConfigurationService)
  {
    AskedByMember(calls, MiddlewareModule, c);
    MiddlewareResolvesAlways(After(calls));
  }

  lemma MiddlewareResolvesAlways(b: Builder)
    ensures |Commands(b, MiddlewareModule)| == 15
    ensures Commands(b, MiddlewareModule)[2] == Res(RequestContext)
    ensures Commands(b, MiddlewareModule)[3] == Res(Logger)
    ensures Commands(b, MiddlewareModule)[4] == Res(ServiceExtractor)
    ensures Commands(b, MiddlewareModule)[5] == Res(ConfigurationService)
  {
  }

  lemma MiddlewareResolvesAuth(b: Builder)
    requires Flag(b.flags, AuthModule)
    ensures |Commands(b, MiddlewareModule)| == 15 && Commands(b, MiddlewareModule)[7] == Res(BaseAuthService)
  {
  }

  lemma {:induction false} BaseAuthWakes(calls: seq<Call>, c: Call, a: Call)
    requires c in calls && c.AddMiddlewares? && a in calls && a.AddAuth?
    ensures ResolvedAt(After(calls), MiddlewareModule, 7, BaseAuthService)
  {
    var b := After(calls);
    AskedByMember(calls, MiddlewareModule, c);
    AskedByMember(calls, AuthModule, a);
    QueueIsAlwaysWellFormed(calls);
    assert FlagValid(b.modules, b.flags, AuthModule);
    MiddlewareResolvesAuth(b);
  }

  lemma {:induction false} MiddlewareSettingsWake(calls: seq<Call>)
    ensures RateLimited(calls) ==> ResolvedAt(After(calls), MiddlewareModule, 9, Cache)
    ensures Csrf(calls) ==> ResolvedAt(After(calls), MiddlewareModule, 12, CsrfTokenService)
  {
    forall i: nat
      ensures LastToSet(calls, i, MiddlewareSetting) ==>
        calls[i].middleware == After(calls).middleware && Queued(After(calls), MiddlewareModule)
    {
      SettingIsInForce(calls, i);
    }
  }

  lemma {:induction false} PipelineWakes(calls: seq<Call>, c: Call)
    requires c in calls && c.AddPipeline?
    ensures ResolvedAt(After(calls), CqrsModule, 0, Logger)
  {
    AskedByMember(calls, CqrsModule, c);
  }

  lemma {:induction false} PipelineSettingsWake(calls: seq<Call>)
    ensures Policies(calls) ==> ResolvedAt(After(calls), CqrsModule, 3, ContextAccessor)
    ensures Idempotent(calls) ==>
      && ResolvedAt(After(calls), CqrsModule, 5, Cache) && ResolvedAt(After(calls), CqrsModule, 6, CacheKeyBuilder)
      && ResolvedAt(After(calls), CqrsModule, 7, NetworkContextAccessor)
    ensures QueryBus(calls) ==>
      && ResolvedAt(After(calls), CqrsModule, 8, Cache) && ResolvedAt(After(calls), CqrsModule, 9, CacheKeyBuilder)
  {
    forall i: nat
      ensures LastToSet(calls, i, PipelineSetting) ==>
        calls[i].pipeline == Some(After(calls).pipeline) && Queued(After(calls), CqrsModule)
    {
      SettingIsInForce(calls, i);
    }
  }

  lemma {:induction false} WokenIsResolved(calls: seq<Call>, s: Service)
    requires Woken(calls, s)
    ensures exists m, k: nat :: ResolvedAt(After(calls), m, k, s)
  {
    MiddlewareSettingsWake(calls);
    PipelineSettingsWake(calls);
    if OwnAuth(calls) {
      AuthWakes(calls);
    }
    if c :| c in calls && c.AddMiddlewares? {
      MiddlewaresWake(calls, c);
      if a :| a in calls && a.AddAuth? {
        BaseAuthWakes(calls, c, a);
      }
    }
    if c :| c in calls && c.AddPipeline? {
      PipelineWakes(calls, c);
    }
  }

  lemma ResolvedIsAwake(start: seq<Op>, b: Builder, ops: seq<Op>, m: Module, k: nat, s: Service)
    requires RanAll(start, b, ops) && ResolvedAt(b, m, k, s)
    ensures IsAwake(Run(ops), Framework(s))
  {
    SortIsStable(b.modules, 0);
    SameMembers(Sort(b.modules), b.modules, m);
    var i := CommandIsRun(b, Sort(b.modules), m, k);
  }

  // ---- The theorem -----------------------------------------------------------------

  /** The container as a build attempt leaves it. */
  function Outcome(start: seq<Op>, calls: seq<Call>): (h: History)
    ensures 0 < |h.w.scopes|
  {
    Run(BuildAttempt(start, After(calls)).0)
  }

  lemma {:induction false} AttemptKeepsOpen(start: seq<Op>, calls: seq<Call>)
    requires Prepared(start)
    ensures RootOpen(Outcome(start, calls))
    ensures BuildAttempt(start, After(calls)).1.Built? ==>
      Outcome(start, calls).regs.Keys ==
      Run(start).regs.Keys + Registered(All(After(calls), Sort(After(calls).modules)))
  {
    var b := After(calls);
    QueueIsAlwaysWellFormed(calls);
    QueueIsCovered(b);
    ExecLearns(start, Base(), All(b, Sort(b.modules)));
    ModulesRunAllCommands(b, start, Sort(b.modules));
  }

  lemma ProvidedIsWellFormed(regs: Registry, s: Service)
    requires Provided(regs, s) && (s == AuthService || Ready(regs, Framework(s)))
    ensures WellFormed(regs, Framework(s))
  {
    if s == AuthService {
      forall p | IsPath(regs, p) && p[0] == Framework(s)
        ensures Clean(regs, p)
      {
        assert |p| > 1 ==> Edge(regs, p[0], p[1]);
      }
    } else {
      ReadyIsWellFormed(regs, Framework(s));
    }
  }

  /**
    After every successful build, whatever else the container has: each promised service is
    registered as it should be, resolves through every open scope and, unless it is scoped,
    from the root; and those the modules resolved themselves exist already.
   */
  lemma {:induction false} BuiltContainerProvides(start: seq<Op>, calls: seq<Call>, s: Service, k: nat)
    requires Prepared(start) && BuildAttempt(start, After(calls)).1.Built? && Promised(calls, s)
    ensures var h := Outcome(start, calls);
      && Provided(h.regs, s) && RootOpen(h)
      && (s != AuthService ==> RootOutcome(h.regs, h.w, Framework(s)).1.Resolved?)
      && (k < |h.w.scopes| && !h.w.scopes[k].disposed ==> Exactness.Succeeds(h.regs, h.w, k, Framework(s)))
      && (Woken(calls, s) ==> Framework(s) in h.w.singletons)
  {
    var ops := BuildAttempt(start, After(calls)).0;
    var h := Run(ops);
    BuiltRanAll(start, After(calls));
    AttemptKeepsOpen(start, calls);
    PromisedIsProvided(start, calls, ops, s);
    if s != AuthService {
      PromisedIsReady(start, calls, ops, s);
    }
    ProvidedIsWellFormed(h.regs, s);
    RootResolutionIsExact(ops, Framework(s));
    if k < |h.w.scopes| && !h.w.scopes[k].disposed {
      ResolutionIsExact(ops, k, Framework(s));
    }
    if Woken(calls, s) {
      WokenIsResolved(calls, s);
      var m, i: nat :| ResolvedAt(After(calls), m, i, s);
      ResolvedIsAwake(start, After(calls), ops, m, i, s);
    }
  }

  lemma OptionalIsConfigured(b: Builder, m: Module, s: Service)
    requires !IsUser(m) && Framework(s) in Registered(Commands(b, m)) && Home(b, s).0 == m
    requires b.httpToken.Some? ==> b.httpToken.value.Custom?
    ensures s == CryptoService || s == CsrfTokenService ==> b.middleware.csrf
    ensures s == ValidatorService ==> b.pipeline.zod
  {
  }

  /** A framework module registers a service only if it was promised. */
  lemma {:induction false} RegisteredIsPromised(calls: seq<Call>, m: Module, s: Service)
    requires Queued(After(calls), m) && !IsUser(m) && Framework(s) in Registered(Commands(After(calls), m))
    requires After(calls).httpToken.Some? ==> After(calls).httpToken.value.Custom?
    ensures Promised(calls, s)
  {
    QueueIsAlwaysWellFormed(calls);
    RegisteredAtHome(After(calls), m, Framework(s));
    OptionalIsConfigured(After(calls), m, s);
    ConfigurationsAreInForce(calls);
    if m != ContextModule {
      QueuedIffAskedFor(calls, m);
      HomeIsAskedFor(calls, s);
    }
  }

  /** What the module of a service is asked for, the service is promised for. */
  lemma {:induction false} HomeIsAskedFor(calls: seq<Call>, s: Service)
    requires AskedFor(calls, Home(After(calls), s).0)
    requires s == CryptoService || s == CsrfTokenService ==> Csrf(calls)
    requires s == ValidatorService ==> Zod(calls)
    ensures Promised(calls, s)
  {
    var i :| 0 <= i < |calls| && AsksFor(calls[i], Home(After(calls), s).0);
    assert calls[i] in calls;
  }

  /**
    If user code keeps to its own tokens, a successful build has registered the promised
    services and no other framework service; what was there before is still there.
   */
  lemma {:induction false} BuiltContainerProvidesNoMore(start: seq<Op>, calls: seq<Call>, s: Service)
    requires Prepared(start) && BuildAttempt(start, After(calls)).1.Built? && Considerate(After(calls))
    ensures var h := Outcome(start, calls);
      && (Framework(s) in h.regs <==> Promised(calls, s) || Framework(s) in Run(start).regs)
      && Includes(h.regs, Run(start).regs)
  {
    var b := After(calls);
    BuiltRanAll(start, b);
    AttemptKeepsOpen(start, calls);
    if Promised(calls, s) {
      PromisedIsProvided(start, calls, BuildAttempt(start, b).0, s);
    } else if Framework(s) in Registered(All(b, Sort(b.modules))) {
      var m := RegisteredBySome(b, Sort(b.modules), Framework(s));
      SortIsStable(b.modules, 0);
      SameMembers(Sort(b.modules), b.modules, m);
      RegisteredIsPromised(calls, m, s);
    }
  }

  lemma {:induction false} RegisteredBySome(b: Builder, ms: seq<Module>, t: Token) returns (m: Module)
    requires t in Registered(All(b, ms))
    ensures m in ms && t in Registered(Commands(b, m))
    decreases |ms|
  {
    if t in Registered(Commands(b, ms[0])) {
      m := ms[0];
    } else {
      m := RegisteredBySome(b, ms[1..], t);
    }
  }

  lemma {:induction false} ScriptIsRegistered(start: seq<Op>, calls: seq<Call>, ops: seq<Op>, c: Call, k: nat)
    requires RanAll(start, After(calls), ops) && c in calls && (c.AddModule? || c.AddServices?) && k < |c.script|
    ensures c.script[k].0 in Run(ops).regs && Run(ops).regs[c.script[k].0] == c.script[k].1
  {
    var m := if c.AddModule? then UserModule(c.script) else ServicesModule(c.script);
    AskedByMember(calls, m, c);
    assert Commands(After(calls), m)[k] == Reg(c.script[k].0, c.script[k].1);
    QueuedIsRegistered(start, After(calls), ops, m, k);
  }

  /** What user modules, service callbacks and the HTTP core were told to register stands. */
  lemma {:induction false} UserRegistrationsStand(start: seq<Op>, calls: seq<Call>, c: Call, k: nat, i: nat)
    requires Prepared(start) && BuildAttempt(start, After(calls)).1.Built?
    ensures var regs := Outcome(start, calls).regs;
      && (c in calls && (c.AddModule? || c.AddServices?) && k < |c.script| ==>
        c.script[k].0 in regs && regs[c.script[k].0] == c.script[k].1)
      && (LastToSet(calls, i, TokenSetting) ==>
        calls[i].token.Some? && calls[i].token.value in regs
        && regs[calls[i].token.value] == Registration(Singleton, Factory([], false, false)))
  {
    var ops := BuildAttempt(start, After(calls)).0;
    BuiltRanAll(start, After(calls));
    if c in calls && (c.AddModule? || c.AddServices?) && k < |c.script| {
      ScriptIsRegistered(start, calls, ops, c, k);
    }
    if LastToSet(calls, i, TokenSetting) {
      LastSettingIsInForce(calls, i);
      AskedByMember(calls, HttpCoreModule, calls[i]);
      TokenIsRegistered(start, calls, ops);
    }
  }

  lemma {:induction false} BuiltModulesAccept(start: seq<Op>, calls: seq<Call>, m: Module)
    requires Prepared(start) && BuildAttempt(start, After(calls)).1.Built? && Queued(After(calls), m)
    ensures Accepts(After(calls), m)
  {
    var b := After(calls);
    BuildOutcome(start, calls);
    AllAccept(b, Sort(b.modules));
    SortIsStable(b.modules, 0);
    SameMembers(Sort(b.modules), b.modules, m);
  }

  lemma LeafIsSingleton()
    ensures SingletonOver([]) == Registration(Singleton, Factory([], false, false))
  {
  }

  lemma {:induction false} TokenIsRegistered(start: seq<Op>, calls: seq<Call>, ops: seq<Op>)
    requires Prepared(start) && BuildAttempt(start, After(calls)) == (ops, Built)
    requires Queued(After(calls), HttpCoreModule) && RanAll(start, After(calls), ops)
    ensures var token := After(calls).httpToken;
      && token.Some? && token.value in Run(ops).regs
      && Run(ops).regs[token.value] == Registration(Singleton, Factory([], false, false))
  {
    var b := After(calls);
    BuiltModulesAccept(start, calls, HttpCoreModule);
    LeafIsSingleton();
    assert Commands(b, HttpCoreModule)[0] == Reg(b.httpToken.value, SingletonOver([]));
    QueuedIsRegistered(start, b, ops, HttpCoreModule, 0);
  }
}
