/**
  Building the application: every `add*` call of the builder queues a module, the
  build sorts them by priority and runs them on the container.  A module registers
  tokens, resolves some of them at once, and refuses bad configuration.
 */
module Bootstrap {
  import opened Wrappers
  import opened Tokens
  import opened DependencyGraph
  import opened ContainerHistory

  // ---- Configuration and queued modules -------------------------------------

  datatype CacheConfig = CacheConfig(inMemory: bool, redis: bool)

  /** `numbersValid`: the limits are non-negative integers; `rateLimited`: at least one of them is given. */
  datatype MiddlewareConfig = MiddlewareConfig(
    wildcardOrigin: bool, withCredentials: bool, rateLimited: bool, numbersValid: bool, csrf: bool)

  /** `numbersValid`: thresholds, lifetimes and retry counts are accepted by the behaviours' constructors. */
  datatype PipelineConfig = PipelineConfig(
    policies: bool, zod: bool, idempotency: bool, queryBus: bool, numbersValid: bool)

  /**
    `custom`: the authentication service or its cookie handler is supplied by the user;
    `accepted`: the service is, or the client it wraps accepts the configured URL and key.
   */
  datatype AuthConfig = AuthConfig(custom: bool, accepted: bool)

  /** A user module or service callback: the registrations it makes. */
  type Script = seq<(Token, Registration)>

  datatype Module =
    | ContextModule
    | LoggerModule
    | CacheModule
    | AdapterModule
    | AuthModule
    | MiddlewareModule
    | CqrsModule
    | HttpCoreModule
    | ConcurrencyModule
    | UserModule(script: Script)
    | ServicesModule(script: Script)

  function Priority(m: Module): nat {
    match m
    case ContextModule => 0
    case LoggerModule => 1
    case CacheModule => 2
    case AdapterModule => 3
    case AuthModule => 3
    case MiddlewareModule => 4
    case CqrsModule => 5
    case HttpCoreModule => 30
    case ConcurrencyModule => 40
    case UserModule(_) => 50
    case ServicesModule(_) => 99
  }

  /** Which of the modules that are queued at most once have been. */
  datatype Flags = Flags(
    context: bool, logger: bool, cache: bool, adapter: bool, auth: bool, middleware: bool, pipeline: bool,
    concurrency: bool)

  datatype Builder = Builder(
    modules: seq<Module>, flags: Flags, cache: CacheConfig, middleware: MiddlewareConfig, pipeline: PipelineConfig,
    auth: AuthConfig, httpToken: Option<Token>)

  datatype Call =
    | AddAdapter
    | AddMiddlewares(middleware: MiddlewareConfig)
    | AddContext
    | AddLogger
    | AddCache(cache: Option<CacheConfig>)
    | AddAuth(auth: AuthConfig)
    | AddConcurrencyService
    | AddPipeline(pipeline: Option<PipelineConfig>)
    | AddHttpCore(token: Option<Token>)
    | AddServices(script: Script)
    | AddModule(script: Script)

  predicate Queued(b: Builder, m: Module) {
    m in b.modules
  }

  predicate Flag(f: Flags, m: Module) {
    match m
    case ContextModule => f.context
    case LoggerModule => f.logger
    case CacheModule => f.cache
    case AdapterModule => f.adapter
    case AuthModule => f.auth
    case MiddlewareModule => f.middleware
    case CqrsModule => f.pipeline
    case ConcurrencyModule => f.concurrency
    case _ => false
  }

  function Raise(f: Flags, m: Module): Flags {
    match m
    case ContextModule => f.(context := true)
    case LoggerModule => f.(logger := true)
    case CacheModule => f.(cache := true)
    case AdapterModule => f.(adapter := true)
    case AuthModule => f.(auth := true)
    case MiddlewareModule => f.(middleware := true)
    case CqrsModule => f.(pipeline := true)
    case ConcurrencyModule => f.(concurrency := true)
    case _ => f
  }

  function Push(b: Builder, m: Module): Builder {
    b.(modules := b.modules + [m], flags := Raise(b.flags, m))
  }

  /** A module with a flag is pushed only the first time. */
  function QueueOnce(b: Builder, m: Module): Builder {
    if Flag(b.flags, m) then b else Push(b, m)
  }

  /** Context, logger and cache are queued, those that were not there yet in this order. */
  function WithNeeds(b: Builder): Builder {
    var f := b.flags;
    b.(modules := b.modules + MissingNeeds(f), flags := f.(context := true, logger := true, cache := true))
  }

  function MissingNeeds(f: Flags): seq<Module> {
    (if f.context then [] else [ContextModule]) + (if f.logger then [] else [LoggerModule]) +
    (if f.cache then [] else [CacheModule])
  }

  /** Middleware and pipeline bring context, logger and cache along. */
  function QueueWithNeeds(b: Builder, m: Module): Builder {
    if Flag(b.flags, m) then b else Push(WithNeeds(b), m)
  }

  function Apply(b: Builder, c: Call): Builder {
    match c
    case AddAdapter => QueueOnce(b, AdapterModule)
    case AddMiddlewares(cfg) => QueueWithNeeds(b.(middleware := cfg), MiddlewareModule)
    case AddContext => QueueOnce(b, ContextModule)
    case AddLogger => QueueOnce(b, LoggerModule)
    case AddCache(cfg) => QueueOnce(if cfg.Some? then b.(cache := cfg.value) else b, CacheModule)
    case AddAuth(cfg) => if Flag(b.flags, AuthModule) then b else Push(b.(auth := cfg), AuthModule)
    case AddConcurrencyService => QueueOnce(b, ConcurrencyModule)
    case AddPipeline(cfg) => QueueWithNeeds(if cfg.Some? then b.(pipeline := cfg.value) else b, CqrsModule)
    case AddHttpCore(token) => Push(b.(httpToken := token), HttpCoreModule)
    case AddServices(script) => Push(b, ServicesModule(script))
    case AddModule(script) => Push(b, UserModule(script))
  }

  /** What the constructor leaves: the defaults, with the context module queued. */
  function Fresh(): Builder {
    Builder(
      [ContextModule], Flags(true, false, false, false, false, false, false, false), CacheConfig(true, false),
      MiddlewareConfig(false, true, true, true, false),
      PipelineConfig(false, false, false, false, true), AuthConfig(false, false), None)
  }

  function After(calls: seq<Call>): Builder {
    if calls == [] then Fresh() else Apply(After(calls[..|calls| - 1]), calls[|calls| - 1])
  }

  // ---- What the modules do ----------------------------------------------------

  /** Registering a token, resolving one at once, a check of the configuration, or nothing. */
  datatype Command =
    | Reg(token: Token, registration: Registration)
    | Resolve(token: Token)
    | Check(ok: bool)
    | Skip

  function SingletonOver(deps: seq<Service>): Registration {
    Registration(Singleton, Factory(seq(|deps|, i requires 0 <= i < |deps| => Framework(deps[i])), false, false))
  }

  /** The registration every framework service gets. */
  function Canon(s: Service): Registration {
    match s
    case Logger => SingletonOver([ContextAccessor])
    case CacheKeyBuilder => SingletonOver([IdentityAccessor])
    case CsrfTokenService => SingletonOver([CryptoService])
    case Mediator => SingletonOver([ServiceScopeAccessor])
    case AuthService => Registration(Scoped, Factory([], false, false))
    case _ => SingletonOver([])
  }

  function Add(s: Service): Command {
    Reg(Framework(s), Canon(s))
  }

  function Res(s: Service): Command {
    Resolve(Framework(s))
  }

  function If(cond: bool, c: Command): Command {
    if cond then c else Skip
  }

  /** What the modules do, in the order they do it. */
  function Commands(b: Builder, m: Module): seq<Command> {
    match m
    case ContextModule => [
      Add(RequestContext), Add(ContextAccessor), Add(IdentityAccessor), Add(ServiceScopeAccessor),
      Add(NetworkContextAccessor), Add(UserContextFactory)]
    case LoggerModule => [Add(Logger)]
    case CacheModule => [Check(b.cache.inMemory || b.cache.redis), Add(CacheKeyBuilder), Add(Cache)]
    case AdapterModule => [Add(HttpAdapter)]
    case AuthModule => [
      If(!b.auth.custom, Res(NetworkContextAccessor)), If(!b.auth.custom, Res(ConfigurationService)),
      Check(b.auth.accepted),
      Add(AuthService), Add(BaseAuthService)]
    case MiddlewareModule => [
      If(!Flag(b.flags, AdapterModule), Add(HttpAdapter)),
      Add(ServiceExtractor),
      Res(RequestContext), Res(Logger), Res(ServiceExtractor), Res(ConfigurationService),
      Check(!(b.middleware.withCredentials && b.middleware.wildcardOrigin)),
      If(Flag(b.flags, AuthModule), Res(BaseAuthService)),
      If(b.middleware.rateLimited, Check(b.middleware.numbersValid)),
      If(b.middleware.rateLimited, Res(Cache)),
      If(b.middleware.csrf, Add(CryptoService)),
      If(b.middleware.csrf, Add(CsrfTokenService)),
      If(b.middleware.csrf, Res(CsrfTokenService)),
      If(b.middleware.csrf, Res(CsrfTokenService)),
      Add(Middleware)]
    case CqrsModule => [
      Res(Logger),
      Add(Mediator),
      Check(b.pipeline.numbersValid),
      If(b.pipeline.policies, Res(ContextAccessor)),
      If(b.pipeline.zod, Add(ValidatorService)),
      If(b.pipeline.idempotency, Res(Cache)),
      If(b.pipeline.idempotency, Res(CacheKeyBuilder)),
      If(b.pipeline.idempotency, Res(NetworkContextAccessor)),
      If(b.pipeline.queryBus, Res(Cache)),
      If(b.pipeline.queryBus, Res(CacheKeyBuilder)),
      If(b.pipeline.queryBus, Res(Logger)),
      Add(CommandPipelinesBehavior),
      Add(QueryPipelinesBehavior)]
    case HttpCoreModule => [
      if b.httpToken.Some? then Reg(b.httpToken.value, SingletonOver([])) else Check(false),
      Add(ResilienceClient)]
    case ConcurrencyModule => [Add(ConcurrencyService)]
    case UserModule(script) => ScriptCommands(script)
    case ServicesModule(script) => ScriptCommands(script)
  }

  function ScriptCommands(script: Script): seq<Command> {
    seq(|script|, i requires 0 <= i < |script| => Reg(script[i].0, script[i].1))
  }

  /** The module that registers a framework service, and the position at which it does. */
  function Home(b: Builder, s: Service): (Module, int) {
    match s
    case ConfigurationService => (ContextModule, -1)
    case RequestContext => (ContextModule, 0)
    case ContextAccessor => (ContextModule, 1)
    case IdentityAccessor => (ContextModule, 2)
    case ServiceScopeAccessor => (ContextModule, 3)
    case NetworkContextAccessor => (ContextModule, 4)
    case UserContextFactory => (ContextModule, 5)
    case Logger => (LoggerModule, 0)
    case CacheKeyBuilder => (CacheModule, 1)
    case Cache => (CacheModule, 2)
    case HttpAdapter => (if Flag(b.flags, AdapterModule) then AdapterModule else MiddlewareModule, 0)
    case AuthService => (AuthModule, 3)
    case BaseAuthService => (AuthModule, 4)
    case ServiceExtractor => (MiddlewareModule, 1)
    case CryptoService => (MiddlewareModule, 10)
    case CsrfTokenService => (MiddlewareModule, 11)
    case Middleware => (MiddlewareModule, 14)
    case Mediator => (CqrsModule, 1)
    case ValidatorService => (CqrsModule, 4)
    case CommandPipelinesBehavior => (CqrsModule, 11)
    case QueryPipelinesBehavior => (CqrsModule, 12)
    case ResilienceClient => (HttpCoreModule, 1)
    case ConcurrencyService => (ConcurrencyModule, 0)
  }

  // ---- Sorting ----------------------------------------------------------------

  /** Puts a module behind everything of at most its priority: `Array.prototype.sort` is stable. */
  function Insert(ms: seq<Module>, m: Module): (r: seq<Module>) {
    if ms != [] && Priority(m) < Priority(ms[|ms| - 1]) then
      Insert(ms[..|ms| - 1], m) + [ms[|ms| - 1]]
    else ms + [m]
  }

  function Sort(ms: seq<Module>): seq<Module> {
    if ms == [] then [] else Insert(Sort(ms[..|ms| - 1]), ms[|ms| - 1])
  }

  ghost predicate Sorted(ms: seq<Module>) {
    forall i, j :: 0 <= i < j < |ms| ==> Priority(ms[i]) <= Priority(ms[j])
  }

  function OfPriority(ms: seq<Module>, p: nat): seq<Module> {
    if ms == [] then []
    else
      OfPriority(ms[..|ms| - 1], p) + (if Priority(ms[|ms| - 1]) == p then [ms[|ms| - 1]] else [])
  }

  lemma {:induction false} InsertContents(ms: seq<Module>, m: Module)
    ensures multiset(Insert(ms, m)) == multiset(ms) + multiset{m}
    ensures forall x :: x in Insert(ms, m) ==> x in ms || x == m
  {
    if ms != [] && Priority(m) < Priority(ms[|ms| - 1]) {
      assert ms == ms[..|ms| - 1] + [ms[|ms| - 1]];
      InsertContents(ms[..|ms| - 1], m);
    }
  }

  lemma {:induction false} InsertSorts(ms: seq<Module>, m: Module)
    requires Sorted(ms)
    ensures Sorted(Insert(ms, m))
  {
    if ms != [] && Priority(m) < Priority(ms[|ms| - 1]) {
      var init := ms[..|ms| - 1];
      InsertSorts(init, m);
      InsertContents(init, m);
      var r := Insert(init, m);
      forall i | 0 <= i < |r|
        ensures Priority(r[i]) <= Priority(ms[|ms| - 1])
      {
        assert r[i] in r;
      }
    }
  }

  lemma {:induction false} InsertIsStable(ms: seq<Module>, m: Module, p: nat)
    ensures OfPriority(Insert(ms, m), p) == OfPriority(ms, p) + (if Priority(m) == p then [m] else [])
  {
    if ms != [] && Priority(m) < Priority(ms[|ms| - 1]) {
      var last := ms[|ms| - 1];
      var init := ms[..|ms| - 1];
      InsertIsStable(init, m, p);
      var r := Insert(init, m);
      assert (r + [last])[..|r|] == r;
    } else {
      assert (ms + [m])[..|ms|] == ms;
    }
  }

  /** The build order: ascending priority, modules of equal priority in the order they were queued. */
  lemma {:induction false} SortIsStable(ms: seq<Module>, p: nat)
    ensures Sorted(Sort(ms)) && multiset(Sort(ms)) == multiset(ms)
    ensures OfPriority(Sort(ms), p) == OfPriority(ms, p)
  {
    if ms != [] {
      var init := ms[..|ms| - 1];
      var m := ms[|ms| - 1];
      assert ms == init + [m];
      SortIsStable(init, p);
      InsertSorts(Sort(init), m);
      InsertContents(Sort(init), m);
      InsertIsStable(Sort(init), m, p);
    }
  }

  // ---- Running commands on the container --------------------------------------

  datatype Verdict = Done | Duplicate(token: Token) | Unresolved(token: Token) | BadConfig

  /** Runs commands on the container in the state the operations `ops` have led to. */
  function Exec(ops: seq<Op>, cmds: seq<Command>): (seq<Op>, Verdict)
    decreases |cmds|
  {
    if cmds == [] then (ops, Done)
    else match cmds[0]
      case Reg(t, r) =>
        var ops' := ops + [Register(t, r)];
        if t in Run(ops).regs then (ops', Duplicate(t)) else Exec(ops', cmds[1..])
      case Resolve(t) =>
        var ops' := ops + [ResolveRoot(t)];
        if RootOutcome(Run(ops).regs, Run(ops).w, t).1.Resolved? then Exec(ops', cmds[1..])
        else (ops', Unresolved(t))
      case Check(ok) => if ok then Exec(ops, cmds[1..]) else (ops, BadConfig)
      case Skip => Exec(ops, cmds[1..])
  }

  /** The failure of a build names the module it happened in. */
  datatype Build = Built | FailedAt(module_: Module, verdict: Verdict)

  function ExecModules(b: Builder, ops: seq<Op>, ms: seq<Module>): (seq<Op>, Build)
    decreases |ms|
  {
    if ms == [] then (ops, Built)
    else
      var (ops', verdict) := Exec(ops, Commands(b, ms[0]));
      if verdict.Done? then ExecModules(b, ops', ms[1..]) else (ops', FailedAt(ms[0], verdict))
  }

  const CONFIGURATION := Register(Framework(ConfigurationService), SingletonOver([]))

  /** One build attempt on the container in the state the operations `start` have led to. */
  function BuildAttempt(start: seq<Op>, b: Builder): (seq<Op>, Build) {
    ExecModules(b, start, Sort(b.modules))
  }
}
