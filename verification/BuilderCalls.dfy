/**
  What the builder's calls come to, read off the list of calls itself: which modules are
  queued, which configuration each of them will find, and in which order they run.
 */
module BuilderCalls {
  import opened Wrappers
  import opened Tokens
  import opened Bootstrap
  import opened BootstrapOrder

  // ---- Which modules are queued --------------------------------------------------

  predicate WantsLogger(c: Call) {
    c.AddLogger? || c.AddMiddlewares? || c.AddPipeline?
  }

  predicate WantsCache(c: Call) {
    c.AddCache? || c.AddMiddlewares? || c.AddPipeline?
  }

  /** The call asks for the module, by itself or as a need of another. */
  predicate AsksFor(c: Call, m: Module) {
    match m
    case ContextModule => true
    case LoggerModule => WantsLogger(c)
    case CacheModule => WantsCache(c)
    case AdapterModule => c.AddAdapter?
    case AuthModule => c.AddAuth?
    case MiddlewareModule => c.AddMiddlewares?
    case CqrsModule => c.AddPipeline?
    case HttpCoreModule => c.AddHttpCore?
    case ConcurrencyModule => c.AddConcurrencyService?
    case UserModule(script) => c == AddModule(script)
    case ServicesModule(script) => c == AddServices(script)
  }

  ghost predicate AskedFor(calls: seq<Call>, m: Module) {
    exists i :: 0 <= i < |calls| && AsksFor(calls[i], m)
  }

  lemma OnceQueues(b: Builder, n: Module, m: Module)
    requires WellQueued(b.modules, b.flags) && Once(n)
    ensures m in QueueOnce(b, n).modules <==> m in b.modules || m == n
  {
    assert FlagValid(b.modules, b.flags, n);
  }

  lemma NeedsQueue(b: Builder, n: Module, m: Module)
    requires WellQueued(b.modules, b.flags) && (n == MiddlewareModule || n == CqrsModule)
    ensures m in QueueWithNeeds(b, n).modules <==>
      m in b.modules || m == n || m == LoggerModule || m == CacheModule
  {
    if Flag(b.flags, n) {
      assert FlagValid(b.modules, b.flags, n) && FlagValid(b.modules, b.flags, LoggerModule);
      assert FlagValid(b.modules, b.flags, CacheModule);
    } else {
      var b1 := QueueOnce(b, LoggerModule);
      OnceKeepsQueued(b, LoggerModule);
      OnceQueues(b, LoggerModule, m);
      OnceQueues(b1, CacheModule, m);
      WithNeedsIsTwoCalls(b);
    }
  }

  lemma CallQueues(b: Builder, c: Call, m: Module)
    requires WellQueued(b.modules, b.flags) && m != ContextModule
    ensures m in Apply(b, c).modules <==> m in b.modules || AsksFor(c, m)
  {
    match c
    case AddAdapter => OnceQueues(b, AdapterModule, m);
    case AddMiddlewares(cfg) => NeedsQueue(b.(middleware := cfg), MiddlewareModule, m);
    case AddContext => OnceQueues(b, ContextModule, m);
    case AddLogger => OnceQueues(b, LoggerModule, m);
    case AddCache(cfg) => OnceQueues(if cfg.Some? then b.(cache := cfg.value) else b, CacheModule, m);
    case AddAuth(cfg) => OnceQueues(b.(auth := cfg), AuthModule, m);
    case AddConcurrencyService => OnceQueues(b, ConcurrencyModule, m);
    case AddPipeline(cfg) => NeedsQueue(if cfg.Some? then b.(pipeline := cfg.value) else b, CqrsModule, m);
    case _ =>
  }

  lemma AskedForSplits(calls: seq<Call>, m: Module)
    requires calls != []
    ensures var n := |calls| - 1;
      AskedFor(calls, m) <==> AskedFor(calls[..n], m) || AsksFor(calls[n], m)
  {
    assert forall i :: 0 <= i < |calls| - 1 ==> calls[..|calls| - 1][i] == calls[i];
  }

  lemma {:induction false} ContextIsQueued(calls: seq<Call>)
    ensures Queued(After(calls), ContextModule)
  {
    QueueIsAlwaysWellFormed(calls);
    assert FlagValid(After(calls).modules, After(calls).flags, ContextModule);
  }

  /** A module is queued exactly if some call asks for it; the context module is queued anyway. */
  lemma {:induction false} QueuedIffAskedFor(calls: seq<Call>, m: Module)
    ensures Queued(After(calls), m) <==> m == ContextModule || AskedFor(calls, m)
  {
    if m == ContextModule {
      ContextIsQueued(calls);
    } else if calls != [] {
      var n := |calls| - 1;
      QueueIsAlwaysWellFormed(calls[..n]);
      QueuedIffAskedFor(calls[..n], m);
      CallQueues(After(calls[..n]), calls[n], m);
      AskedForSplits(calls, m);
    }
  }

  /** How often the HTTP core was asked for: every call queues it once more. */
  function HttpCores(calls: seq<Call>): nat {
    if calls == [] then 0 else HttpCores(calls[1..]) + (if calls[0].AddHttpCore? then 1 else 0)
  }

  lemma {:induction false} HttpCoresSplits(calls: seq<Call>)
    requires calls != []
    ensures var n := |calls| - 1;
      HttpCores(calls) == HttpCores(calls[..n]) + (if calls[n].AddHttpCore? then 1 else 0)
  {
    var n := |calls| - 1;
    if n > 0 {
      HttpCoresSplits(calls[1..]);
      assert calls[1..][..n - 1] == calls[..n][1..];
    }
  }

  /** What a call appends to the queue, if it does not hand over user code. */
  lemma FrameworkCallAppends(b: Builder, c: Call) returns (added: seq<Module>)
    requires !c.AddServices? && !c.AddModule?
    ensures Apply(b, c).modules == b.modules + added && forall m :: m in added ==> Priority(m) <= 40
    ensures HttpCoreModule in added ==> c.AddHttpCore?
  {
    if c.AddMiddlewares? {
      added := NeedsAppend(b.(middleware := c.middleware), MiddlewareModule);
    } else if c.AddPipeline? {
      added := NeedsAppend(if c.pipeline.Some? then b.(pipeline := c.pipeline.value) else b, CqrsModule);
    } else if Apply(b, c).modules == b.modules {
      added := [];
    } else {
      added := [OwnModule(c)];
      OwnModuleIsAppended(b, c);
    }
  }

  function OwnModule(c: Call): Module {
    match c
    case AddAdapter => AdapterModule
    case AddMiddlewares(_) => MiddlewareModule
    case AddContext => ContextModule
    case AddLogger => LoggerModule
    case AddCache(_) => CacheModule
    case AddAuth(_) => AuthModule
    case AddConcurrencyService => ConcurrencyModule
    case AddPipeline(_) => CqrsModule
    case AddHttpCore(_) => HttpCoreModule
    case AddServices(script) => ServicesModule(script)
    case AddModule(script) => UserModule(script)
  }

  lemma OwnModuleIsAppended(b: Builder, c: Call)
    requires !c.AddMiddlewares? && !c.AddPipeline?
    ensures Apply(b, c).modules == b.modules || Apply(b, c).modules == b.modules + [OwnModule(c)]
  {
  }

  lemma NeedsAppend(b: Builder, m: Module) returns (added: seq<Module>)
    requires Priority(m) <= 5
    ensures QueueWithNeeds(b, m).modules == b.modules + added && forall x :: x in added ==> Priority(x) <= 5
  {
    added := if Flag(b.flags, m) then [] else MissingNeeds(b.flags) + [m];
  }

  lemma CountOver(ms: seq<Module>, added: seq<Module>, m: Module)
    requires m !in added
    ensures multiset(ms + added)[m] == multiset(ms)[m]
  {
    assert m !in multiset(added);
  }

  lemma CallQueuesHttpCore(b: Builder, c: Call)
    ensures multiset(Apply(b, c).modules)[HttpCoreModule] ==
      multiset(b.modules)[HttpCoreModule] + (if c.AddHttpCore? then 1 else 0)
  {
    if !c.AddHttpCore? && !c.AddServices? && !c.AddModule? {
      var added := FrameworkCallAppends(b, c);
      CountOver(b.modules, added, HttpCoreModule);
    }
  }

  lemma {:induction false} HttpCoresAreQueued(calls: seq<Call>)
    ensures multiset(After(calls).modules)[HttpCoreModule] == HttpCores(calls)
  {
    if calls == [] {
      assert Fresh().modules == [ContextModule];
    } else {
      var n := |calls| - 1;
      HttpCoresAreQueued(calls[..n]);
      CallQueuesHttpCore(After(calls[..n]), calls[n]);
      HttpCoresSplits(calls);
    }
  }

  // ---- Which configuration is in force -------------------------------------------

  datatype Setting = CacheSetting | MiddlewareSetting | PipelineSetting | TokenSetting

  predicate Sets(c: Call, k: Setting) {
    match k
    case CacheSetting => c.AddCache? && c.cache.Some?
    case MiddlewareSetting => c.AddMiddlewares?
    case PipelineSetting => c.AddPipeline? && c.pipeline.Some?
    case TokenSetting => c.AddHttpCore?
  }

  ghost predicate SetFrom(calls: seq<Call>, i: nat, k: Setting) {
    exists j :: i <= j < |calls| && Sets(calls[j], k)
  }

  /** Call `i` is the last one to set `k`. */
  ghost predicate LastToSet(calls: seq<Call>, i: nat, k: Setting) {
    i < |calls| && Sets(calls[i], k) && !SetFrom(calls, i + 1, k)
  }

  ghost predicate FirstAuth(calls: seq<Call>, i: nat) {
    i < |calls| && calls[i].AddAuth? && forall j :: 0 <= j < i ==> !calls[j].AddAuth?
  }

  predicate SameSetting(b: Builder, b': Builder, k: Setting) {
    match k
    case CacheSetting => b.cache == b'.cache
    case MiddlewareSetting => b.middleware == b'.middleware
    case PipelineSetting => b.pipeline == b'.pipeline
    case TokenSetting => b.httpToken == b'.httpToken
  }

  lemma OtherCallsKeep(b: Builder, c: Call, k: Setting)
    requires !Sets(c, k)
    ensures SameSetting(b, Apply(b, c), k)
  {
  }

  lemma {:induction false} SettingStays(calls: seq<Call>, i: nat, k: Setting)
    requires i <= |calls| && !SetFrom(calls, i, k)
    ensures SameSetting(After(calls[..i]), After(calls), k)
    decreases |calls|
  {
    if i == |calls| {
      assert calls[..i] == calls;
    } else {
      var n := |calls| - 1;
      var init := calls[..n];
      assert !SetFrom(init, i, k) by {
        assert forall j :: 0 <= j < n ==> init[j] == calls[j];
      }
      SettingStays(init, i, k);
      assert init[..i] == calls[..i];
      OtherCallsKeep(After(init), calls[n], k);
      SameTwice(After(calls[..i]), After(init), After(calls), k);
    }
  }

  lemma SameTwice(a: Builder, b: Builder, c: Builder, k: Setting)
    requires SameSetting(a, b, k) && SameSetting(b, c, k)
    ensures SameSetting(a, c, k)
  {
  }

  /** The last call that sets a configuration decides it; without one, the defaults are in force. */
  lemma {:induction false} LastSettingIsInForce(calls: seq<Call>, i: nat)
    ensures var b := After(calls);
      && (LastToSet(calls, i, CacheSetting) ==> Some(b.cache) == calls[i].cache)
      && (!SetFrom(calls, 0, CacheSetting) ==> b.cache == CacheConfig(true, false))
      && (LastToSet(calls, i, MiddlewareSetting) ==> b.middleware == calls[i].middleware)
      && (!SetFrom(calls, 0, MiddlewareSetting) ==> b.middleware == MiddlewareConfig(false, true, true, true, false))
      && (LastToSet(calls, i, PipelineSetting) ==> Some(b.pipeline) == calls[i].pipeline)
      && (!SetFrom(calls, 0, PipelineSetting) ==> b.pipeline == PipelineConfig(false, false, false, false, true))
      && (LastToSet(calls, i, TokenSetting) ==> b.httpToken == calls[i].token)
      && (!SetFrom(calls, 0, TokenSetting) ==> b.httpToken == None)
  {
    forall k | LastToSet(calls, i, k)
      ensures SameSetting(Apply(After(calls[..i]), calls[i]), After(calls), k)
    {
      assert calls[..i + 1][..i] == calls[..i];
      SettingStays(calls, i + 1, k);
    }
    forall k | !SetFrom(calls, 0, k)
      ensures SameSetting(Fresh(), After(calls), k)
    {
      assert calls[..0] == [];
      SettingStays(calls, 0, k);
    }
    assert SameSetting(Fresh(), After(calls), CacheSetting) || SetFrom(calls, 0, CacheSetting);
    assert SameSetting(Fresh(), After(calls), MiddlewareSetting) || SetFrom(calls, 0, MiddlewareSetting);
    assert SameSetting(Fresh(), After(calls), PipelineSetting) || SetFrom(calls, 0, PipelineSetting);
    assert SameSetting(Fresh(), After(calls), TokenSetting) || SetFrom(calls, 0, TokenSetting);
  }

  lemma LaterAuthIsIgnored(b: Builder, c: Call)
    requires b.flags.auth
    ensures Apply(b, c).auth == b.auth && Apply(b, c).flags.auth
  {
  }

  lemma {:induction false} AuthStays(calls: seq<Call>, i: nat)
    requires i <= |calls| && After(calls[..i]).flags.auth
    ensures After(calls).auth == After(calls[..i]).auth && After(calls).flags.auth
    decreases |calls|
  {
    if i == |calls| {
      assert calls[..i] == calls;
    } else {
      var init := calls[..|calls| - 1];
      assert init[..i] == calls[..i];
      AuthStays(init, i);
      LaterAuthIsIgnored(After(init), calls[|calls| - 1]);
    }
  }

  /** The first call that asks for authentication decides its configuration. */
  lemma {:induction false} FirstAuthIsInForce(calls: seq<Call>, i: nat)
    requires FirstAuth(calls, i)
    ensures After(calls).auth == calls[i].auth
  {
    QueueIsAlwaysWellFormed(calls[..i]);
    QueuedIffAskedFor(calls[..i], AuthModule);
    var b := After(calls[..i]);
    assert FlagValid(b.modules, b.flags, AuthModule);
    assert calls[..i + 1][..i] == calls[..i];
    AuthStays(calls, i + 1);
  }

  // ---- The order of the modules --------------------------------------------------

  predicate IsCustom(m: Module) {
    m.UserModule? || m.ServicesModule?
  }

  predicate IsExtra(m: Module) {
    m == HttpCoreModule || m == ConcurrencyModule || IsCustom(m)
  }

  /** Which modules run before which others, whatever the order of the calls. */
  predicate ComesBefore(m: Module, n: Module) {
    match m
    case ContextModule => n != ContextModule
    case LoggerModule => n != ContextModule && n != LoggerModule
    case CacheModule => n != ContextModule && n != LoggerModule && n != CacheModule
    case AdapterModule => n == MiddlewareModule || n == CqrsModule || IsExtra(n)
    case AuthModule => n == MiddlewareModule || n == CqrsModule || IsExtra(n)
    case MiddlewareModule => n == CqrsModule || IsExtra(n)
    case CqrsModule => IsExtra(n)
    case HttpCoreModule => n == ConcurrencyModule || IsCustom(n)
    case ConcurrencyModule => IsCustom(n)
    case UserModule(_) => n.ServicesModule?
    case ServicesModule(_) => false
  }

  lemma EarlierIsLower(m: Module, n: Module)
    requires ComesBefore(m, n)
    ensures Priority(m) < Priority(n)
  {
  }

  function Handed(c: Call, services: bool): seq<Module> {
    match c
    case AddModule(script) => if services then [] else [UserModule(script)]
    case AddServices(script) => if services then [ServicesModule(script)] else []
    case _ => []
  }

  /** The user modules, or the service callbacks, in the order they were handed over. */
  function HandedOver(calls: seq<Call>, services: bool): seq<Module> {
    if calls == [] then []
    else HandedOver(calls[..|calls| - 1], services) + Handed(calls[|calls| - 1], services)
  }

  function UserPriority(services: bool): nat {
    if services then 99 else 50
  }

  lemma {:induction false} OfPriorityAdds(ms: seq<Module>, added: seq<Module>, p: nat)
    ensures OfPriority(ms + added, p) == OfPriority(ms, p) + OfPriority(added, p)
    decreases |added|
  {
    if added == [] {
      assert ms + added == ms;
    } else {
      var n := |added| - 1;
      OfPriorityAdds(ms, added[..n], p);
      assert (ms + added)[..|ms| + n] == ms + added[..n];
    }
  }

  lemma {:induction false} NoneOfPriority(ms: seq<Module>, p: nat)
    requires forall m :: m in ms ==> Priority(m) != p
    ensures OfPriority(ms, p) == []
  {
    if ms != [] {
      NoneOfPriority(ms[..|ms| - 1], p);
      assert ms[|ms| - 1] in ms;
    }
  }

  lemma CallHandsOver(b: Builder, c: Call, services: bool) returns (added: seq<Module>)
    ensures Apply(b, c).modules == b.modules + added
    ensures OfPriority(added, UserPriority(services)) == Handed(c, services)
  {
    if c.AddServices? || c.AddModule? {
      added := [OwnModule(c)];
      assert added[..0] == [];
    } else {
      added := FrameworkCallAppends(b, c);
      NoneOfPriority(added, UserPriority(services));
    }
  }

  lemma {:induction false} HandedOverInOrder(calls: seq<Call>, services: bool)
    ensures OfPriority(After(calls).modules, UserPriority(services)) == HandedOver(calls, services)
  {
    if calls == [] {
      NoneOfPriority(Fresh().modules, UserPriority(services));
    } else {
      var n := |calls| - 1;
      HandedOverInOrder(calls[..n], services);
      var added := CallHandsOver(After(calls[..n]), calls[n], services);
      OfPriorityAdds(After(calls[..n]).modules, added, UserPriority(services));
    }
  }

  /** The modules run in this order, and user code of one kind in the order it was handed over. */
  lemma {:induction false} ModulesRunInOrder(calls: seq<Call>, i: nat, j: nat)
    requires var ms := Sort(After(calls).modules); i < |ms| && j < |ms| && ComesBefore(ms[i], ms[j])
    ensures i < j
    ensures OfPriority(Sort(After(calls).modules), 50) == HandedOver(calls, false)
    ensures OfPriority(Sort(After(calls).modules), 99) == HandedOver(calls, true)
  {
    var ms := Sort(After(calls).modules);
    SortIsStable(After(calls).modules, 50);
    SortIsStable(After(calls).modules, 99);
    HandedOverInOrder(calls, false);
    HandedOverInOrder(calls, true);
    EarlierIsLower(ms[i], ms[j]);
    LowerIsEarlier(ms, i, j);
  }
}
