/**
  Whatever the builder is told, the modules it runs in priority order resolve only
  what is registered by then, and what a module needs is queued once and runs first.
 */
module BootstrapOrder {
  import opened Wrappers
  import opened Tokens
  import opened DependencyGraph
  import opened ContainerHistory
  import opened ContainerGuarantees
  import opened Bootstrap

  // ---- Resolving while configuring ---------------------------------------------

  /** A leaf, or a singleton over leaves: what every token resolved during the build is. */
  predicate IsLeaf(regs: Registry, t: Token) {
    t in regs && regs[t] == SingletonOver([])
  }

  predicate Ready(regs: Registry, t: Token) {
    && t in regs && regs[t].lifetime == Singleton && !regs[t].factory.throws
    && forall d :: d in regs[t].factory.deps ==> d != t && IsLeaf(regs, d)
  }

  lemma LeafChain(regs: Registry, p: seq<Token>)
    requires IsPath(regs, p) && IsLeaf(regs, p[0])
    ensures |p| == 1
  {
    assert |p| > 1 ==> Edge(regs, p[0], p[1]);
  }

  lemma ReadyIsWellFormed(regs: Registry, t: Token)
    requires Ready(regs, t)
    ensures WellFormed(regs, t)
  {
    forall p | IsPath(regs, p) && p[0] == t
      ensures Clean(regs, p)
    {
      if |p| > 1 {
        assert Edge(regs, p[0], p[1]);
        PathSlice(regs, p, 1, |p|);
        LeafChain(regs, p[1..]);
      }
    }
  }

  /** Commands that only resolve what is ready by then, given the facts in `regs`. */
  predicate Covered(regs: Registry, cmds: seq<Command>)
    decreases |cmds|
  {
    cmds != [] ==>
      match cmds[0]
      case Reg(t, r) => Covered(if t in regs then regs else regs[t := r], cmds[1..])
      case Resolve(t) => Ready(regs, t) && Covered(regs, cmds[1..])
      case _ => Covered(regs, cmds[1..])
  }

  lemma {:induction false} CoveredSplits(regs: Registry, a: seq<Command>, b: seq<Command>)
    requires Covered(regs, a) && Covered(Learn(regs, a), b)
    ensures Covered(regs, a + b)
    decreases |a|
  {
    if a == [] {
      assert a + b == b;
    } else {
      assert (a + b)[1..] == a[1..] + b;
      match a[0]
      case Reg(t, r) => CoveredSplits(if t in regs then regs else regs[t := r], a[1..], b);
      case Resolve(t) => CoveredSplits(regs, a[1..], b);
      case _ => CoveredSplits(regs, a[1..], b);
    }
  }

  /** The registrations after the commands, a token registered twice keeping its first one. */
  function Learn(regs: Registry, cmds: seq<Command>): Registry
    decreases |cmds|
  {
    if cmds == [] then regs
    else if cmds[0].Reg? && cmds[0].token !in regs then
      Learn(regs[cmds[0].token := cmds[0].registration], cmds[1..])
    else Learn(regs, cmds[1..])
  }

  ghost predicate Includes(regs: Registry, facts: Registry) {
    forall t :: t in facts ==> t in regs && regs[t] == facts[t]
  }

  /** What a stretch of commands does to an open container, whatever it is. */
  lemma {:induction false} ExecLearns(ops: seq<Op>, facts: Registry, cmds: seq<Command>)
    requires RootOpen(Run(ops)) && Includes(Run(ops).regs, facts) && Covered(facts, cmds)
    ensures var (ops', verdict) := Exec(ops, cmds);
      && RootOpen(Run(ops')) && !verdict.Unresolved?
      && (verdict.Done? ==> Includes(Run(ops').regs, Learn(facts, cmds)))
      && (verdict.Done? <==> NoneTwice(Run(ops).regs.Keys, cmds) && AllAccepted(cmds))
      && (verdict.Done? ==> Run(ops').regs.Keys == Run(ops).regs.Keys + Registered(cmds))
    decreases |cmds|
  {
    var regs := Run(ops).regs;
    if cmds != [] {
      match cmds[0]
      case Reg(t, r) =>
        if t !in regs {
          RunExtends(ops, Register(t, r));
          assert Run(ops + [Register(t, r)]).regs.Keys == regs.Keys + {t};
          ExecLearns(ops + [Register(t, r)], facts[t := r], cmds[1..]);
        } else {
          RunExtends(ops, Register(t, r));
        }
      case Resolve(t) =>
        ReadyIsWellFormed(regs, t);
        RootResolutionIsExact(ops, t);
        RunExtends(ops, ResolveRoot(t));
        RootStaysOpen(ops, t);
        ExecLearns(ops + [ResolveRoot(t)], facts, cmds[1..]);
      case Check(ok) =>
        if ok {
          ExecLearns(ops, facts, cmds[1..]);
        }
      case Skip => ExecLearns(ops, facts, cmds[1..]);
    }
  }

  lemma RootStaysOpen(ops: seq<Op>, t: Token)
    requires RootOpen(Run(ops))
    ensures RootOpen(Step(Run(ops), ResolveRoot(t))) && Step(Run(ops), ResolveRoot(t)).regs == Run(ops).regs
  {
    var h := Run(ops);
    if !(t in h.regs && h.regs[t].lifetime == Scoped) {
      Exactness.ResolveFrames(h.regs, h.w, 0, [], None, t);
    }
  }

  predicate AllAccepted(cmds: seq<Command>)
    decreases |cmds|
  {
    cmds != [] ==> cmds[0] != Check(false) && AllAccepted(cmds[1..])
  }

  function Registered(cmds: seq<Command>): set<Token> {
    set c | c in cmds && c.Reg? :: c.token
  }

  /** No command registers a token that is taken or that an earlier command registered. */
  predicate NoneTwice(taken: set<Token>, cmds: seq<Command>)
    decreases |cmds|
  {
    cmds != [] ==>
      if cmds[0].Reg? then cmds[0].token !in taken && NoneTwice(taken + {cmds[0].token}, cmds[1..])
      else NoneTwice(taken, cmds[1..])
  }

  // ---- What earlier modules have left behind -------------------------------------

  ghost predicate Canonical(facts: Registry) {
    forall s :: Framework(s) in facts ==> facts[Framework(s)] == Canon(s)
  }

  ghost predicate CanonicalCommands(cmds: seq<Command>) {
    forall i :: 0 <= i < |cmds| ==> CanonicalCommand(cmds[i])
  }

  predicate CanonicalCommand(c: Command) {
    c.Reg? && c.token.Framework? ==> c.registration == Canon(c.token.service)
  }

  lemma {:induction false} LearnKeepsCanonical(facts: Registry, cmds: seq<Command>)
    ensures Learn(facts, cmds).Keys == facts.Keys + Registered(cmds)
    ensures Canonical(facts) && CanonicalCommands(cmds) ==> Canonical(Learn(facts, cmds))
    decreases |cmds|
  {
    if cmds != [] {
      assert Registered(cmds) == Registered(cmds[1..]) + (if cmds[0].Reg? then {cmds[0].token} else {});
      if cmds[0].Reg? && cmds[0].token !in facts {
        assert CanonicalCommands(cmds) ==> CanonicalCommand(cmds[0]);
        LearnKeepsCanonical(facts[cmds[0].token := cmds[0].registration], cmds[1..]);
      } else {
        LearnKeepsCanonical(facts, cmds[1..]);
      }
    }
  }

  /** Registered before, or by an earlier command of the same module. */
  ghost predicate Available(facts: Registry, cmds: seq<Command>, i: nat, s: Service) {
    Framework(s) in facts || exists j :: 0 <= j < i && j < |cmds| && cmds[j] == Add(s)
  }

  /** The services that must be registered for `s` to be resolved. */
  function Closure(s: Service): seq<Service> {
    match s
    case Logger => [Logger, ContextAccessor]
    case CacheKeyBuilder => [CacheKeyBuilder, IdentityAccessor]
    case CsrfTokenService => [CsrfTokenService, CryptoService]
    case Mediator => [Mediator, ServiceScopeAccessor]
    case _ => [s]
  }

  ghost predicate CanResolve(facts: Registry, cmds: seq<Command>, i: nat)
    requires i < |cmds|
  {
    cmds[i].Resolve? ==>
      && cmds[i].token.Framework? && cmds[i].token.service != AuthService
      && forall s :: s in Closure(cmds[i].token.service) ==> Available(facts, cmds, i, s)
  }

  lemma ClosureIsReady(facts: Registry, s: Service)
    requires Canonical(facts) && s != AuthService
    requires forall x :: x in Closure(s) ==> Framework(x) in facts
    ensures Ready(facts, Framework(s))
  {
    assert s == Closure(s)[0] && s in Closure(s);
    assert |Closure(s)| == 2 ==> Closure(s)[1] in Closure(s);
  }

  lemma {:induction false} CoveredByIndex(facts: Registry, cmds: seq<Command>)
    requires Canonical(facts) && CanonicalCommands(cmds)
    requires forall i :: 0 <= i < |cmds| ==> CanResolve(facts, cmds, i)
    ensures Covered(facts, cmds)
    decreases |cmds|
  {
    if cmds != [] {
      assert CanonicalCommand(cmds[0]) && CanResolve(facts, cmds, 0);
      var facts' :=
        if cmds[0].Reg? && cmds[0].token !in facts then facts[cmds[0].token := cmds[0].registration] else facts;
      var rest := cmds[1..];
      if cmds[0].Resolve? {
        ClosureIsReady(facts, cmds[0].token.service);
      }
      forall i | 0 <= i < |rest|
        ensures CanResolve(facts', rest, i)
      {
        assert CanResolve(facts, cmds, i + 1) && rest[i] == cmds[i + 1];
        forall s | Available(facts, cmds, i + 1, s)
          ensures Available(facts', rest, i, s)
        {
          if Framework(s) !in facts {
            var j :| 0 <= j < i + 1 && cmds[j] == Add(s);
            assert j > 0 ==> rest[j - 1] == Add(s);
          }
        }
      }
      CoveredByIndex(facts', rest);
    }
  }

  lemma {:induction false} NoResolveIsCovered(facts: Registry, cmds: seq<Command>)
    requires forall c :: c in cmds ==> !c.Resolve?
    ensures Covered(facts, cmds)
    decreases |cmds|
  {
    if cmds != [] {
      assert cmds[0] in cmds;
      NoResolveIsCovered(
        if cmds[0].Reg? && cmds[0].token !in facts then facts[cmds[0].token := cmds[0].registration] else facts,
        cmds[1..]);
    }
  }

  predicate Has(facts: Registry, services: seq<Service>) {
    forall s :: s in services ==> Framework(s) in facts
  }

  /** The modules whose commands resolve something, and those before them. */
  predicate IsCore(m: Module) {
    Priority(m) <= 5
  }

  function Base(): Registry {
    map[Framework(ConfigurationService) := SingletonOver([])]
  }

  /** What a module must find registered to configure itself. */
  function Needs(b: Builder, m: Module): seq<Service> {
    match m
    case AuthModule => [NetworkContextAccessor, ConfigurationService]
    case MiddlewareModule =>
      [RequestContext, ContextAccessor, Logger, Cache, ConfigurationService] +
      (if Flag(b.flags, AuthModule) then [BaseAuthService] else [])
    case CqrsModule => [ContextAccessor, IdentityAccessor, NetworkContextAccessor, Logger, Cache, CacheKeyBuilder]
    case _ => []
  }

  lemma CoreIsCanonical(b: Builder, m: Module)
    requires IsCore(m)
    ensures CanonicalCommands(Commands(b, m))
  {
    var cmds := Commands(b, m);
    forall i | 0 <= i < |cmds|
      ensures CanonicalCommand(cmds[i])
    {
      if m == MiddlewareModule {
        MiddlewareIsCanonical(b, i);
      } else {
        CommandIsCanonical(b, m, i);
      }
    }
  }

  lemma CommandIsCanonical(b: Builder, m: Module, i: nat)
    requires IsCore(m) && m != MiddlewareModule && i < |Commands(b, m)|
    ensures CanonicalCommand(Commands(b, m)[i])
  {
  }

  lemma MiddlewareIsCanonical(b: Builder, i: nat)
    requires i < |Commands(b, MiddlewareModule)|
    ensures CanonicalCommand(Commands(b, MiddlewareModule)[i])
  {
  }

  /** A command can resolve a service all of whose closure is registered before its module runs. */
  lemma FactsSuffice(facts: Registry, cmds: seq<Command>, i: nat, s: Service)
    requires i < |cmds| && (cmds[i] == Res(s) || cmds[i] == Skip) && s != AuthService && Has(facts, Closure(s))
    ensures CanResolve(facts, cmds, i)
  {
  }

  lemma MiddlewareStarts(b: Builder, facts: Registry, i: nat)
    requires Has(facts, Needs(b, MiddlewareModule)) && i < 6 && i != 4
    ensures CanResolve(facts, Commands(b, MiddlewareModule), i)
  {
    var cmds := Commands(b, MiddlewareModule);
    match i
    case 2 => FactsSuffice(facts, cmds, i, RequestContext);
    case 3 => FactsSuffice(facts, cmds, i, Logger);
    case 5 => FactsSuffice(facts, cmds, i, ConfigurationService);
    case _ =>
  }

  /** The extractor is registered by the module itself. */
  lemma ExtractorResolves(b: Builder, facts: Registry)
    ensures CanResolve(facts, Commands(b, MiddlewareModule), 4)
  {
    assert Commands(b, MiddlewareModule)[1] == Add(ServiceExtractor);
  }

  lemma MiddlewareGoesOn(b: Builder, facts: Registry, i: nat)
    requires Has(facts, Needs(b, MiddlewareModule)) && 6 <= i < |Commands(b, MiddlewareModule)|
    requires i != 12 && i != 13
    ensures CanResolve(facts, Commands(b, MiddlewareModule), i)
  {
    var cmds := Commands(b, MiddlewareModule);
    if i == 7 && Flag(b.flags, AuthModule) {
      FactsSuffice(facts, cmds, i, BaseAuthService);
    } else if i == 9 {
      FactsSuffice(facts, cmds, i, Cache);
    }
  }

  lemma MiddlewareResolves(b: Builder, facts: Registry, i: nat)
    requires Has(facts, Needs(b, MiddlewareModule)) && i < |Commands(b, MiddlewareModule)|
    ensures CanResolve(facts, Commands(b, MiddlewareModule), i)
  {
    if i == 4 {
      ExtractorResolves(b, facts);
    } else if i < 6 {
      MiddlewareStarts(b, facts, i);
    } else if i == 12 || i == 13 {
      CsrfResolves(b, facts, i);
    } else {
      MiddlewareGoesOn(b, facts, i);
    }
  }

  /** The CSRF services are registered by the module itself, just before. */
  lemma CsrfResolves(b: Builder, facts: Registry, i: nat)
    requires i == 12 || i == 13
    ensures CanResolve(facts, Commands(b, MiddlewareModule), i)
  {
    var cmds := Commands(b, MiddlewareModule);
    if b.middleware.csrf {
      assert cmds[10] == Add(CryptoService) && cmds[11] == Add(CsrfTokenService);
    }
  }

  lemma CqrsResolves(b: Builder, facts: Registry, i: nat)
    requires Has(facts, Needs(b, CqrsModule)) && i < |Commands(b, CqrsModule)|
    ensures CanResolve(facts, Commands(b, CqrsModule), i)
  {
  }

  lemma {:induction false} ModuleIsCovered(b: Builder, m: Module, facts: Registry)
    requires Has(facts, Needs(b, m)) && (IsCore(m) ==> Canonical(facts))
    ensures Covered(facts, Commands(b, m))
  {
    var cmds := Commands(b, m);
    if m == MiddlewareModule || m == CqrsModule || m == AuthModule {
      CoreIsCanonical(b, m);
      forall i | 0 <= i < |cmds|
        ensures CanResolve(facts, cmds, i)
      {
        match m
        case MiddlewareModule => MiddlewareResolves(b, facts, i);
        case CqrsModule => CqrsResolves(b, facts, i);
        case _ =>
      }
      CoveredByIndex(facts, cmds);
    } else {
      NoResolveIsCovered(facts, cmds);
    }
  }

  // ---- The builder's queue ----------------------------------------------------

  predicate Once(m: Module) {
    !m.HttpCoreModule? && !m.UserModule? && !m.ServicesModule?
  }

  /**
    A flag says whether its module has been pushed, once.  The context module is always
    there, and whoever needs logger and cache has them queued too.
   */
  ghost predicate WellQueued(ms: seq<Module>, f: Flags) {
    && (forall m :: Once(m) ==> FlagValid(ms, f, m))
    && f.context
    && (f.middleware || f.pipeline ==> f.logger && f.cache)
  }

  ghost predicate FlagValid(ms: seq<Module>, f: Flags, m: Module) {
    (Flag(f, m) <==> m in ms) && multiset(ms)[m] <= 1
  }

  lemma PushKeepsQueued(ms: seq<Module>, f: Flags, m: Module)
    requires WellQueued(ms, f) && !Flag(f, m)
    requires m == MiddlewareModule || m == CqrsModule ==> f.logger && f.cache
    ensures WellQueued(ms + [m], Raise(f, m))
  {
    assert multiset(ms + [m]) == multiset(ms) + multiset{m};
    forall x | Once(x)
      ensures FlagValid(ms + [m], Raise(f, m), x)
    {
      assert FlagValid(ms, f, x);
      assert x in multiset(ms) <==> x in ms;
      RaiseRaises(f, m, x);
    }
  }

  lemma RaiseRaises(f: Flags, m: Module, x: Module)
    requires Once(x)
    ensures Flag(Raise(f, m), x) <==> Flag(f, x) || x == m
  {
  }

  lemma OnceKeepsQueued(b: Builder, m: Module)
    requires WellQueued(b.modules, b.flags) && Once(m) && m != MiddlewareModule && m != CqrsModule
    ensures WellQueued(QueueOnce(b, m).modules, QueueOnce(b, m).flags)
  {
    if !Flag(b.flags, m) {
      PushKeepsQueued(b.modules, b.flags, m);
    }
  }

  /** The context module is always there: only logger and cache can be missing. */
  lemma WithNeedsIsTwoCalls(b: Builder)
    requires b.flags.context
    ensures WithNeeds(b) == QueueOnce(QueueOnce(b, LoggerModule), CacheModule)
  {
    var added := MissingNeeds(b.flags);
    if !b.flags.logger && !b.flags.cache {
      assert b.modules + added == b.modules + [LoggerModule] + [CacheModule];
    }
  }

  lemma NeedsAreQueued(b: Builder, m: Module)
    requires WellQueued(b.modules, b.flags) && (m == MiddlewareModule || m == CqrsModule)
    ensures var b' := QueueWithNeeds(b, m); WellQueued(b'.modules, b'.flags)
  {
    if !Flag(b.flags, m) {
      var b1 := QueueOnce(b, LoggerModule);
      OnceKeepsQueued(b, LoggerModule);
      OnceKeepsQueued(b1, CacheModule);
      WithNeedsIsTwoCalls(b);
      PushKeepsQueued(WithNeeds(b).modules, WithNeeds(b).flags, m);
    }
  }

  lemma PushCallsKeepQueued(b: Builder, c: Call)
    requires WellQueued(b.modules, b.flags) && (c.AddHttpCore? || c.AddServices? || c.AddModule?)
    ensures var b' := Apply(b, c); WellQueued(b'.modules, b'.flags)
  {
    match c
    case AddHttpCore(token) => PushKeepsQueued(b.modules, b.flags, HttpCoreModule);
    case AddServices(script) => PushKeepsQueued(b.modules, b.flags, ServicesModule(script));
    case AddModule(script) => PushKeepsQueued(b.modules, b.flags, UserModule(script));
  }

  lemma OnceCallsKeepQueued(b: Builder, c: Call)
    requires WellQueued(b.modules, b.flags)
    requires c.AddAdapter? || c.AddContext? || c.AddLogger? || c.AddCache? || c.AddAuth? || c.AddConcurrencyService?
    ensures var b' := Apply(b, c); WellQueued(b'.modules, b'.flags)
  {
    match c
    case AddAdapter => OnceKeepsQueued(b, AdapterModule);
    case AddContext => OnceKeepsQueued(b, ContextModule);
    case AddLogger => OnceKeepsQueued(b, LoggerModule);
    case AddCache(cfg) => OnceKeepsQueued(if cfg.Some? then b.(cache := cfg.value) else b, CacheModule);
    case AddAuth(cfg) => OnceKeepsQueued(b.(auth := cfg), AuthModule);
    case AddConcurrencyService => OnceKeepsQueued(b, ConcurrencyModule);
  }

  lemma NeedyCallsKeepQueued(b: Builder, c: Call)
    requires WellQueued(b.modules, b.flags) && (c.AddMiddlewares? || c.AddPipeline?)
    ensures var b' := Apply(b, c); WellQueued(b'.modules, b'.flags)
  {
    match c
    case AddMiddlewares(cfg) => NeedsAreQueued(b.(middleware := cfg), MiddlewareModule);
    case AddPipeline(cfg) => NeedsAreQueued(if cfg.Some? then b.(pipeline := cfg.value) else b, CqrsModule);
  }

  lemma ApplyKeepsQueued(b: Builder, c: Call)
    requires WellQueued(b.modules, b.flags)
    ensures var b' := Apply(b, c); WellQueued(b'.modules, b'.flags)
  {
    if c.AddMiddlewares? || c.AddPipeline? {
      NeedyCallsKeepQueued(b, c);
    } else if c.AddHttpCore? || c.AddServices? || c.AddModule? {
      PushCallsKeepQueued(b, c);
    } else {
      OnceCallsKeepQueued(b, c);
    }
  }

  lemma {:induction false} QueueIsAlwaysWellFormed(calls: seq<Call>)
    ensures WellQueued(After(calls).modules, After(calls).flags)
  {
    if calls == [] {
      assert Fresh().modules == [ContextModule];
    } else {
      QueueIsAlwaysWellFormed(calls[..|calls| - 1]);
      ApplyKeepsQueued(After(calls[..|calls| - 1]), calls[|calls| - 1]);
    }
  }

  // ---- One build attempt --------------------------------------------------------

  function All(b: Builder, ms: seq<Module>): seq<Command>
    decreases |ms|
  {
    if ms == [] then [] else Commands(b, ms[0]) + All(b, ms[1..])
  }

  lemma {:induction false} ExecSplits(ops: seq<Op>, a: seq<Command>, c: seq<Command>)
    ensures var (ops', verdict) := Exec(ops, a);
      Exec(ops, a + c) == if verdict.Done? then Exec(ops', c) else (ops', verdict)
    decreases |a|
  {
    if a == [] {
      assert a + c == c;
    } else {
      assert (a + c)[1..] == a[1..] + c;
      match a[0]
      case Reg(t, r) => ExecSplits(ops + [Register(t, r)], a[1..], c);
      case Resolve(t) => ExecSplits(ops + [ResolveRoot(t)], a[1..], c);
      case _ => ExecSplits(ops, a[1..], c);
    }
  }

  /** Running the modules one by one is running all their commands, up to where it stops. */
  lemma {:induction false} ModulesRunAllCommands(b: Builder, ops: seq<Op>, ms: seq<Module>)
    ensures var (ops', build) := ExecModules(b, ops, ms);
      var (ops'', verdict) := Exec(ops, All(b, ms));
      && ops' == ops''
      && (build.Built? <==> verdict.Done?)
      && (build.FailedAt? ==> build.verdict == verdict && build.module_ in ms)
    decreases |ms|
  {
    if ms != [] {
      ExecSplits(ops, Commands(b, ms[0]), All(b, ms[1..]));
      var (ops1, verdict) := Exec(ops, Commands(b, ms[0]));
      if verdict.Done? {
        ModulesRunAllCommands(b, ops1, ms[1..]);
      }
    }
  }

  /** What is known before module `i` runs: everything the modules before it register. */
  ghost predicate Knows(b: Builder, ms: seq<Module>, i: nat, facts: Registry) {
    && Framework(ConfigurationService) in facts
    && (forall j :: 0 <= j < i && j < |ms| ==> Registered(Commands(b, ms[j])) <= facts.Keys)
    && ((forall j :: 0 <= j < i && j < |ms| ==> IsCore(ms[j])) ==> Canonical(facts))
  }

  /** A queued module of lower priority has run before module `i`. */
  lemma EarlierIsKnown(b: Builder, ms: seq<Module>, i: nat, facts: Registry, m: Module)
    requires Sorted(ms) && i < |ms| && Knows(b, ms, i, facts)
    requires m in ms && Priority(m) < Priority(ms[i])
    ensures Registered(Commands(b, m)) <= facts.Keys
  {
    var j :| 0 <= j < |ms| && ms[j] == m;
    assert j < i;
  }

  /** The modules that others rely on are in the list. */
  ghost predicate NeedsListed(b: Builder, ms: seq<Module>) {
    && ContextModule in ms
    && (MiddlewareModule in ms || CqrsModule in ms ==> LoggerModule in ms && CacheModule in ms)
    && (Flag(b.flags, AuthModule) ==> AuthModule in ms)
  }

  lemma SameMembers(ms: seq<Module>, ns: seq<Module>, m: Module)
    requires multiset(ms) == multiset(ns)
    ensures m in ms <==> m in ns
  {
    assert m in ms <==> m in multiset(ms);
  }

  lemma SortingListsNeeds(b: Builder)
    requires WellQueued(b.modules, b.flags)
    ensures NeedsListed(b, Sort(b.modules))
  {
    FlagIsListed(b, ContextModule);
    FlagIsListed(b, LoggerModule);
    FlagIsListed(b, CacheModule);
    FlagIsListed(b, AuthModule);
    FlagIsListed(b, MiddlewareModule);
    FlagIsListed(b, CqrsModule);
  }

  lemma FlagIsListed(b: Builder, m: Module)
    requires WellQueued(b.modules, b.flags) && Once(m)
    ensures m in Sort(b.modules) <==> Flag(b.flags, m)
    ensures Flag(b.flags, m) ==> multiset(Sort(b.modules))[m] == 1
  {
    SortIsStable(b.modules, 0);
    SameMembers(Sort(b.modules), b.modules, m);
    assert FlagValid(b.modules, b.flags, m);
    assert m in b.modules ==> m in multiset(b.modules);
  }

  /** A service that a module of lower priority registers is known. */
  lemma ServiceIsKnown(b: Builder, ms: seq<Module>, i: nat, facts: Registry, m: Module, k: nat, s: Service)
    requires Sorted(ms) && i < |ms| && Knows(b, ms, i, facts)
    requires m in ms && Priority(m) < Priority(ms[i])
    requires k < |Commands(b, m)| && Commands(b, m)[k] == Add(s)
    ensures Framework(s) in facts
  {
    EarlierIsKnown(b, ms, i, facts, m);
    assert Commands(b, m)[k] in Commands(b, m);
  }

  lemma ContextIsKnown(b: Builder, ms: seq<Module>, i: nat, facts: Registry)
    requires NeedsListed(b, ms) && Sorted(ms) && i < |ms| && Knows(b, ms, i, facts) && Priority(ms[i]) > 0
    ensures Has(facts, [RequestContext, ContextAccessor, IdentityAccessor, NetworkContextAccessor])
  {
    ServiceIsKnown(b, ms, i, facts, ContextModule, 0, RequestContext);
    ServiceIsKnown(b, ms, i, facts, ContextModule, 1, ContextAccessor);
    ServiceIsKnown(b, ms, i, facts, ContextModule, 2, IdentityAccessor);
    ServiceIsKnown(b, ms, i, facts, ContextModule, 4, NetworkContextAccessor);
  }

  lemma LoggerAndCacheAreKnown(b: Builder, ms: seq<Module>, i: nat, facts: Registry)
    requires NeedsListed(b, ms) && Sorted(ms) && i < |ms| && Knows(b, ms, i, facts)
    requires ms[i] == MiddlewareModule || ms[i] == CqrsModule
    ensures Has(facts, [Logger, Cache, CacheKeyBuilder])
  {
    assert ms[i] in ms;
    assert Commands(b, LoggerModule)[0] == Add(Logger);
    ServiceIsKnown(b, ms, i, facts, LoggerModule, 0, Logger);
    assert Commands(b, CacheModule)[1] == Add(CacheKeyBuilder) && Commands(b, CacheModule)[2] == Add(Cache);
    ServiceIsKnown(b, ms, i, facts, CacheModule, 1, CacheKeyBuilder);
    ServiceIsKnown(b, ms, i, facts, CacheModule, 2, Cache);
  }

  lemma NeedsAreKnown(b: Builder, ms: seq<Module>, i: nat, facts: Registry)
    requires NeedsListed(b, ms) && Sorted(ms) && i < |ms| && Knows(b, ms, i, facts)
    ensures Has(facts, Needs(b, ms[i]))
  {
    match ms[i]
    case AuthModule =>
      ContextIsKnown(b, ms, i, facts);
    case MiddlewareModule =>
      ContextIsKnown(b, ms, i, facts);
      LoggerAndCacheAreKnown(b, ms, i, facts);
      if Flag(b.flags, AuthModule) {
        ServiceIsKnown(b, ms, i, facts, AuthModule, 4, BaseAuthService);
      }
    case CqrsModule =>
      ContextIsKnown(b, ms, i, facts);
      LoggerAndCacheAreKnown(b, ms, i, facts);
    case _ =>
  }

  lemma {:induction false} OneMoreIsKnown(b: Builder, ms: seq<Module>, i: nat, facts: Registry)
    requires i < |ms| && Knows(b, ms, i, facts)
    ensures Knows(b, ms, i + 1, Learn(facts, Commands(b, ms[i])))
  {
    LearnKeepsCanonical(facts, Commands(b, ms[i]));
    if IsCore(ms[i]) {
      CoreIsCanonical(b, ms[i]);
    }
  }

  lemma {:induction false} ModulesAreCovered(b: Builder, ms: seq<Module>, i: nat, facts: Registry)
    requires NeedsListed(b, ms) && Sorted(ms) && i <= |ms| && Knows(b, ms, i, facts)
    ensures Covered(facts, All(b, ms[i..]))
    decreases |ms| - i
  {
    if i < |ms| {
      var cmds := Commands(b, ms[i]);
      NeedsAreKnown(b, ms, i, facts);
      ModuleIsCovered(b, ms[i], facts);
      OneMoreIsKnown(b, ms, i, facts);
      ModulesAreCovered(b, ms, i + 1, Learn(facts, cmds));
      assert ms[i..][1..] == ms[i + 1..];
      CoveredSplits(facts, cmds, All(b, ms[i + 1..]));
    }
  }

  /** An open container on which the configuration service is registered. */
  ghost predicate Prepared(start: seq<Op>) {
    RootOpen(Run(start)) && Includes(Run(start).regs, Base())
  }

  /**
    For every sequence of builder calls: a build attempt on an open container that has the
    configuration service never fails to resolve a token, whatever else is registered, and
    succeeds exactly when every configuration check passes and no token is registered twice.
   */
  lemma {:induction false} BuildOutcome(start: seq<Op>, calls: seq<Call>)
    requires Prepared(start)
    ensures var b := After(calls);
      var build := BuildAttempt(start, b).1;
      && (build.FailedAt? ==> !build.verdict.Unresolved?)
      && (build.Built? <==>
          && NoneTwice(Run(start).regs.Keys, All(b, Sort(b.modules)))
          && AllAccepted(All(b, Sort(b.modules))))
  {
    var b := After(calls);
    var ms := Sort(b.modules);
    QueueIsAlwaysWellFormed(calls);
    QueueIsCovered(b);
    ExecLearns(start, Base(), All(b, ms));
    ModulesRunAllCommands(b, start, ms);
  }

  lemma {:induction false} QueueIsCovered(b: Builder)
    requires WellQueued(b.modules, b.flags)
    ensures Covered(Base(), All(b, Sort(b.modules)))
  {
    var ms := Sort(b.modules);
    SortIsStable(b.modules, 0);
    SortingListsNeeds(b);
    assert ms[0..] == ms;
    assert Canonical(Base());
    ModulesAreCovered(b, ms, 0, Base());
  }

  /** Registering the configuration service is what prepares an open container that does not have it yet. */
  lemma ConfigurationPrepares(ops: seq<Op>)
    requires RootOpen(Run(ops)) && Framework(ConfigurationService) !in Run(ops).regs
    ensures Prepared(ops + [CONFIGURATION])
    ensures Run(ops + [CONFIGURATION]).regs.Keys == Run(ops).regs.Keys + {Framework(ConfigurationService)}
  {
    RunExtends(ops, CONFIGURATION);
  }

  /** Whoever needs context, logger and cache finds each of them run exactly once, and earlier. */
  lemma {:induction false} NeedsRunOnceAndFirst(calls: seq<Call>, m: Module, n: Module)
    requires m == MiddlewareModule || m == CqrsModule
    requires n == ContextModule || n == LoggerModule || n == CacheModule
    requires Queued(After(calls), m)
    ensures var ms := Sort(After(calls).modules);
      && multiset(ms)[n] == 1 && multiset(ms)[m] == 1
      && forall i, j :: 0 <= i < |ms| && 0 <= j < |ms| && ms[i] == n && ms[j] == m ==> i < j
  {
    QueueIsAlwaysWellFormed(calls);
    NeedsAreFirst(After(calls), m, n);
  }

  lemma NeedsAreFirst(b: Builder, m: Module, n: Module)
    requires WellQueued(b.modules, b.flags)
    requires m == MiddlewareModule || m == CqrsModule
    requires n == ContextModule || n == LoggerModule || n == CacheModule
    requires Queued(b, m)
    ensures var ms := Sort(b.modules);
      && multiset(ms)[n] == 1 && multiset(ms)[m] == 1
      && forall i, j :: 0 <= i < |ms| && 0 <= j < |ms| && ms[i] == n && ms[j] == m ==> i < j
  {
    NeedsAreOnce(b, m, n);
    LowerRunsFirst(b.modules, n, m);
  }

  lemma {:induction false} LowerRunsFirst(queue: seq<Module>, n: Module, m: Module)
    requires Priority(n) < Priority(m)
    ensures var ms := Sort(queue);
      forall i, j :: 0 <= i < |ms| && 0 <= j < |ms| && ms[i] == n && ms[j] == m ==> i < j
  {
    var ms := Sort(queue);
    SortIsStable(queue, 0);
    forall i, j | 0 <= i < |ms| && 0 <= j < |ms| && ms[i] == n && ms[j] == m
      ensures i < j
    {
      LowerIsEarlier(ms, i, j);
    }
  }

  lemma NeedsAreOnce(b: Builder, m: Module, n: Module)
    requires WellQueued(b.modules, b.flags) && Queued(b, m)
    requires m == MiddlewareModule || m == CqrsModule
    requires n == ContextModule || n == LoggerModule || n == CacheModule
    ensures multiset(Sort(b.modules))[n] == 1 && multiset(Sort(b.modules))[m] == 1
  {
    assert FlagValid(b.modules, b.flags, m);
    FlagIsListed(b, m);
    FlagIsListed(b, n);
  }

  lemma LowerIsEarlier(ms: seq<Module>, i: nat, j: nat)
    requires Sorted(ms) && i < |ms| && j < |ms| && Priority(ms[i]) < Priority(ms[j])
    ensures i < j
  {
  }
}
