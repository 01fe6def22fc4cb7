/**
  The container, its scopes and the resolution context as objects updated in
  place.  Every method computes the operation of the same name on values, so
  whatever ContainerGuarantees.dfy proves of runs holds of these objects.
 */
module ServiceContainers {
  import opened Wrappers
  import opened Tokens
  import opened DependencyGraph
  import opened Resolver
  import opened ContainerHistory
  import opened Exactness
  import opened ContainerGuarantees

  /** The tokens being resolved, outermost first, and whether a singleton is among them. */
  class ResolutionContext {
    var stack: seq<Token>
    var activeLifetime: Option<Lifetime>

    constructor ()
      ensures stack == [] && activeLifetime == None
    {
      stack, activeLifetime := [], None;
    }
  }

  class ContainerScope {
    const index: nat
    var scopedInstances: map<Token, Instance>
    var trackedDisposables: seq<Instance>
    var isDisposed: bool

    constructor (index: nat)
      ensures this.index == index && State() == EMPTY_SCOPE
    {
      this.index := index;
      scopedInstances, trackedDisposables, isDisposed := map[], [], false;
    }

    function State(): ScopeState
      reads this
    {
      ScopeState(scopedInstances, trackedDisposables, isDisposed)
    }

    method GetScopedInstance(token: Token) returns (found: Option<Instance>)
      ensures found == if token in scopedInstances then Some(scopedInstances[token]) else None
    {
      found := if token in scopedInstances then Some(scopedInstances[token]) else None;
    }

    method SetScopedInstance(token: Token, instance: Instance)
      requires instance.token == token
      modifies this
      ensures State() == SetScoped(old(State()), instance)
    {
      scopedInstances := scopedInstances[token := instance];
      if instance.disposable {
        trackedDisposables := trackedDisposables + [instance];
      }
    }

    method TrackInstance(instance: Instance)
      modifies this
      ensures State() == Track(old(State()), instance)
    {
      if instance.disposable && instance !in trackedDisposables {
        trackedDisposables := trackedDisposables + [instance];
      }
    }

    /**
      Calls `dispose()` on every tracked instance, last tracked first.  An instance
      whose identity is in `throwing` throws; the error is logged and the loop goes on.
     */
    method Dispose(throwing: set<nat>) returns (calls: seq<Instance>, logged: seq<Instance>)
      modifies this
      ensures old(isDisposed) ==> calls == [] && State() == old(State())
      ensures !old(isDisposed) ==> calls == Reverse(old(trackedDisposables)) && State() == CLOSED_SCOPE
      ensures forall o :: o in logged <==> o in calls && o.id in throwing
    {
      calls, logged := [], [];
      if isDisposed {
        return;
      }
      isDisposed := true;
      var i := |trackedDisposables|;
      while i > 0
        invariant 0 <= i <= |trackedDisposables| && isDisposed
        invariant trackedDisposables == old(trackedDisposables)
        invariant calls == Reverse(trackedDisposables[i..])
        invariant forall o :: o in logged <==> o in calls && o.id in throwing
      {
        i := i - 1;
        assert trackedDisposables[i..][1..] == trackedDisposables[i + 1..];
        calls := calls + [trackedDisposables[i]];
        if trackedDisposables[i].id in throwing {
          logged := logged + [trackedDisposables[i]];
        }
      }
      assert trackedDisposables[0..] == trackedDisposables;
      scopedInstances, trackedDisposables := map[], [];
    }
  }

  class ServiceContainer {
    var registrations: map<Token, Registration>
    var singletonInstances: map<Token, Instance>
    const rootScope: ContainerScope
    /** Every object a factory has returned so far: an object is new if it is not in here. */
    var completed: seq<Instance>
    var created: nat
    /** All scopes of this container, the root scope first, and the operations performed so far. */
    ghost var scopes: seq<ContainerScope>
    ghost var ops: seq<Op>

    ghost predicate Linked()
      reads this, scopes
    {
      && 0 < |scopes| == created
      && scopes[0] == rootScope
      && forall i :: 0 <= i < |scopes| ==> scopes[i].index == i
    }

    ghost function View(): World
      reads this, scopes
    {
      var all := scopes;
      World(
        singletonInstances,
        seq(|all|, i requires 0 <= i < |all| reads all => all[i].State()),
        completed)
    }

    /** The objects hold exactly what the run of operations performed so far leads to. */
    ghost predicate Valid()
      reads this, scopes
    {
      Linked() && Run(ops).regs == registrations && Run(ops).w == View()
    }

    ghost predicate Has(scope: ContainerScope)
      reads this, scopes, scope
    {
      scope.index < |scopes| && scopes[scope.index] == scope
    }

    constructor ()
      ensures Valid() && ops == [] && fresh(scopes)
    {
      registrations, singletonInstances, completed, created := map[], map[], [], 1;
      var root := new ContainerScope(0);
      rootScope := root;
      scopes, ops := [root], [];
    }

    method Register(token: Token, lifetime: Lifetime, factory: Factory) returns (accepted: bool)
      requires Valid()
      modifies this`registrations, this`ops
      ensures Valid() && ops == old(ops) + [ContainerHistory.Register(token, Registration(lifetime, factory))]
      ensures accepted <==> token !in old(registrations)
    {
      accepted := token !in registrations;
      if accepted {
        registrations := registrations[token := Registration(lifetime, factory)];
      }
      ghost var op := ContainerHistory.Register(token, Registration(lifetime, factory));
      RunExtends(ops, op);
      ops := ops + [op];
    }

    method CreateScope() returns (scope: ContainerScope)
      requires Valid()
      modifies this`created, this`scopes, this`ops
      ensures Valid() && ops == old(ops) + [ContainerHistory.CreateScope]
      ensures fresh(scope) && scopes == old(scopes) + [scope] && Has(scope) && 0 < scope.index
    {
      scope := new ContainerScope(created);
      created := created + 1;
      RunExtends(ops, ContainerHistory.CreateScope);
      scopes, ops := scopes + [scope], ops + [ContainerHistory.CreateScope];
    }

    /** `ContainerScope.resolve` with a resolution context in place. */
    method ResolveInContext(token: Token, scope: ContainerScope, ctx: ResolutionContext) returns (r: Outcome)
      requires Linked() && Has(scope) && Elements(ctx.stack) <= registrations.Keys
      modifies this`singletonInstances, this`completed, scope, rootScope, ctx
      ensures Linked() && ctx.stack == old(ctx.stack) && ctx.activeLifetime == old(ctx.activeLifetime)
      ensures (View(), r) == Resolve(
        registrations, old(View()), scope.index, old(ctx.stack), old(ctx.activeLifetime), token)
      decreases registrations.Keys - Elements(ctx.stack), 1, 0
    {
      if scope.isDisposed {
        return Failed(ScopeClosed(token));
      }
      if token !in registrations {
        return Failed(NotRegistered(token, ctx.stack + [token]));
      }
      if token in ctx.stack {
        return Failed(Circular(ctx.stack + [token]));
      }
      var lifetime := registrations[token].lifetime;
      if ctx.activeLifetime == Some(Singleton) && lifetime == Scoped {
        return Failed(Captive(ctx.stack + [token]));
      }
      if lifetime == Singleton {
        if token in singletonInstances {
          return Resolved(singletonInstances[token]);
        }
      } else if lifetime == Scoped {
        var existing := scope.GetScopedInstance(token);
        if existing.Some? {
          return Resolved(existing.value);
        }
      }
      r := RunFactory(token, scope, ctx);
      if r.Resolved? {
        Cache(r.instance, scope);
      }
    }

    /** Where a new instance is cached and which scope will dispose of it. */
    method Cache(instance: Instance, scope: ContainerScope)
      requires Linked() && Has(scope)
      modifies this`singletonInstances, scope, rootScope
      ensures Linked() && View() == Adopt(old(View()), scope.index, instance)
    {
      match instance.lifetime {
        case Singleton =>
          singletonInstances := singletonInstances[instance.token := instance];
          rootScope.TrackInstance(instance);
        case Scoped => scope.SetScopedInstance(instance.token, instance);
        case Transient => scope.TrackInstance(instance);
      }
      assert forall i :: 0 <= i < |scopes| ==> View().scopes[i] == scopes[i].State();
    }

    /** `executeWithStackIsolation` around one factory: push, resolve the dependencies, restore. */
    method RunFactory(token: Token, scope: ContainerScope, ctx: ResolutionContext) returns (r: Outcome)
      requires Linked() && Has(scope) && Elements(ctx.stack) <= registrations.Keys
      requires token in registrations && token !in ctx.stack
      modifies this`singletonInstances, this`completed, scope, rootScope, ctx
      ensures Linked() && ctx.stack == old(ctx.stack) && ctx.activeLifetime == old(ctx.activeLifetime)
      ensures (View(), r) == Construct(
        registrations, old(View()), scope.index, old(ctx.stack), old(ctx.activeLifetime), token)
      ensures r.Resolved? ==> r.instance.token == token && r.instance.lifetime == registrations[token].lifetime
      decreases registrations.Keys - Elements(ctx.stack), 0, 0
    {
      var registration := registrations[token];
      var previousStack, previousLifetime := ctx.stack, ctx.activeLifetime;
      ctx.stack := ctx.stack + [token];
      assert token in Elements(ctx.stack) && token !in Elements(previousStack);
      assert Elements(ctx.stack) == Elements(previousStack) + {token};
      if registration.lifetime == Singleton {
        ctx.activeLifetime := Some(Singleton);
      }
      assert View() == old(View());
      var parts := ResolveDependencies(registration.factory.deps, scope, ctx);
      ghost var after := View();
      match parts {
        case SomeFailed(e) => r := Failed(e);
        case AllResolved(os) =>
          if registration.factory.throws {
            r := Failed(FactoryThrew(ctx.stack));
          } else {
            var instance := Instance(
              |completed|, token, registration.lifetime, scope.index, registration.factory.disposable, os);
            completed := completed + [instance];
            r := Resolved(instance);
            assert View().scopes == after.scopes;
          }
      }
      ctx.stack, ctx.activeLifetime := previousStack, previousLifetime;
      assert View().scopes == after.scopes;
    }

    /** A factory resolving its dependencies one after the other. */
    method ResolveDependencies(tokens: seq<Token>, scope: ContainerScope, ctx: ResolutionContext)
      returns (r: Outcomes)
      requires Linked() && Has(scope) && Elements(ctx.stack) <= registrations.Keys
      modifies this`singletonInstances, this`completed, scope, rootScope, ctx
      ensures Linked() && ctx.stack == old(ctx.stack) && ctx.activeLifetime == old(ctx.activeLifetime)
      ensures (View(), r) == ResolveAll(
        registrations, old(View()), scope.index, old(ctx.stack), old(ctx.activeLifetime), tokens)
      decreases registrations.Keys - Elements(ctx.stack), 2, |tokens|
    {
      var i, parts := 0, [];
      assert tokens[0..] == tokens;
      PrependNothing(ResolveAll(
        registrations, View(), scope.index, ctx.stack, ctx.activeLifetime, tokens));
      while i < |tokens|
        invariant 0 <= i <= |tokens| && Linked()
        invariant ctx.stack == old(ctx.stack) && ctx.activeLifetime == old(ctx.activeLifetime)
        invariant ResolveAll(
            registrations, old(View()), scope.index, ctx.stack, ctx.activeLifetime, tokens) ==
          Prepend(parts, ResolveAll(
            registrations, View(), scope.index, ctx.stack, ctx.activeLifetime, tokens[i..]))
      {
        assert tokens[i..][0] == tokens[i] && tokens[i..][1..] == tokens[i + 1..];
        var part := ResolveInContext(tokens[i], scope, ctx);
        if part.Failed? {
          return SomeFailed(part.error);
        }
        PrependOne(parts, part.instance, ResolveAll(
          registrations, View(), scope.index, ctx.stack, ctx.activeLifetime, tokens[i + 1..]));
        parts, i := parts + [part.instance], i + 1;
      }
      r := AllResolved(parts);
      assert parts + [] == parts;
    }

    /** `ContainerScope.resolve` called from outside any factory. */
    method ResolveThrough(scope: ContainerScope, token: Token) returns (r: Outcome)
      requires Valid() && Has(scope) && 0 < scope.index
      modifies this`singletonInstances, this`completed, this`ops, scope, rootScope
      ensures Valid() && ops == old(ops) + [ResolveIn(scope.index, token)]
      ensures r == Resolve(old(registrations), old(View()), scope.index, [], None, token).1
      ensures old(scope.isDisposed) ==> r == Failed(ScopeClosed(token)) && View() == old(View())
      ensures scope.isDisposed == old(scope.isDisposed) && rootScope.isDisposed == old(rootScope.isDisposed)
      ensures !rootScope.isDisposed && !scope.isDisposed ==> (r.Resolved? <==> WellFormed(registrations, token))
    {
      var ctx := new ResolutionContext();
      r := ResolveInContext(token, scope, ctx);
      ResolveFrames(registrations, old(View()), scope.index, [], None, token);
      assert View().scopes[scope.index].disposed == old(View()).scopes[scope.index].disposed;
      assert View().scopes[0].disposed == old(View()).scopes[0].disposed;
      if !old(rootScope.isDisposed) && !old(scope.isDisposed) {
        ResolutionIsExact(ops, scope.index, token);
      }
      RunExtends(ops, ResolveIn(scope.index, token));
      ops := ops + [ResolveIn(scope.index, token)];
    }

    /** `ServiceContainer.resolve`: a scoped token is refused before the root scope is asked. */
    method ResolveFromRoot(token: Token) returns (r: Outcome)
      requires Valid()
      modifies this`singletonInstances, this`completed, this`ops, rootScope
      ensures Valid() && ops == old(ops) + [ResolveRoot(token)]
      ensures r == RootOutcome(old(registrations), old(View()), token).1
      ensures r.Resolved? <==>
        && !old(rootScope.isDisposed) && WellFormed(registrations, token)
        && !(token in registrations && registrations[token].lifetime == Scoped)
      ensures token in registrations && registrations[token].lifetime == Scoped ==>
        r == Failed(ScopedFromRoot(token)) && View() == old(View())
    {
      RootResolutionIsExact(ops, token);
      if token in registrations && registrations[token].lifetime == Scoped {
        r := Failed(ScopedFromRoot(token));
      } else {
        var ctx := new ResolutionContext();
        r := ResolveInContext(token, rootScope, ctx);
      }
      RunExtends(ops, ResolveRoot(token));
      ops := ops + [ResolveRoot(token)];
    }

    /** `ContainerScope.dispose` of a request scope. */
    method CloseRequestScope(scope: ContainerScope, throwing: set<nat>)
      returns (calls: seq<Instance>, logged: seq<Instance>)
      requires Valid() && Has(scope) && 0 < scope.index
      modifies this`ops, scope
      ensures Valid() && ops == old(ops) + [DisposeScope(scope.index)]
      ensures Run(ops).disposals == Run(old(ops)).disposals + calls && scope.isDisposed
      ensures forall o :: o in logged <==> o in calls && o.id in throwing
    {
      calls, logged := scope.Dispose(throwing);
      assert View().scopes == old(View()).scopes[scope.index := scope.State()];
      RunExtends(ops, DisposeScope(scope.index));
      ops := ops + [DisposeScope(scope.index)];
    }

    /** `ServiceContainer.dispose`, taken as one step. */
    method Dispose(throwing: set<nat>) returns (calls: seq<Instance>, logged: seq<Instance>)
      requires Valid()
      modifies this`registrations, this`singletonInstances, this`ops, rootScope
      ensures Valid() && ops == old(ops) + [DisposeContainer]
      ensures Run(ops).disposals == Run(old(ops)).disposals + calls && rootScope.isDisposed
      ensures forall o :: o in logged <==> o in calls && o.id in throwing
    {
      calls, logged := rootScope.Dispose(throwing);
      singletonInstances, registrations := map[], map[];
      assert View().scopes == old(View()).scopes[0 := rootScope.State()];
      RunExtends(ops, DisposeContainer);
      ops := ops + [DisposeContainer];
    }

    /** The callback of a request resolving tokens through its scope up to the first failure. */
    method ResolveEach(scope: ContainerScope, tokens: seq<Token>) returns (allResolved: bool)
      requires Valid() && Has(scope) && 0 < scope.index
      modifies this`singletonInstances, this`completed, this`ops, scope, rootScope
      ensures Valid() && ops == AfterResolves(old(ops), scope.index, tokens)
      ensures allResolved <==> AllResolve(old(ops), scope.index, tokens)
    {
      var n := 0;
      assert tokens[0..] == tokens;
      while n < |tokens|
        invariant n <= |tokens| && Valid() && Has(scope)
        invariant AfterResolves(old(ops), scope.index, tokens) == AfterResolves(ops, scope.index, tokens[n..])
        invariant AllResolve(old(ops), scope.index, tokens) <==> AllResolve(ops, scope.index, tokens[n..])
      {
        assert tokens[n..][0] == tokens[n] && tokens[n..][1..] == tokens[n + 1..];
        var r := ResolveThrough(scope, tokens[n]);
        if r.Failed? {
          return false;
        }
        n := n + 1;
      }
      allResolved := true;
    }

    /**
      `NodeRequestContext.runAsync`: the callback resolves some tokens through the
      scope created for it and may throw itself; the scope is disposed of in every case.
     */
    method RunAsync(tokens: seq<Token>, callbackThrows: bool, throwing: set<nat>) returns (completedNormally: bool)
      requires Valid()
      modifies this`singletonInstances, this`completed, this`created, this`scopes, this`ops, rootScope
      ensures Valid() && ops == RequestOps(old(ops), |old(scopes)|, tokens)
      ensures completedNormally <==>
        !callbackThrows && AllResolve(old(ops) + [ContainerHistory.CreateScope], |old(scopes)|, tokens)
      ensures !old(rootScope.isDisposed) ==>
        (completedNormally <==> !callbackThrows && forall t :: t in tokens ==> WellFormed(registrations, t))
      ensures var h := Run(ops);
        forall o :: o in h.w.built && o.disposable && Owner(o) == |old(scopes)| ==> multiset(h.disposals)[o] == 1
    {
      RunExtends(ops, ContainerHistory.CreateScope);
      var scope := CreateScope();
      ghost var start := ops;
      if !rootScope.isDisposed {
        assert Run(ops).w.scopes[0] == rootScope.State() && Run(ops).w.scopes[scope.index] == scope.State();
        AllResolveIff(ops, scope.index, tokens);
      }
      var allResolved := ResolveEach(scope, tokens);
      RunExtends(ops, DisposeScope(scope.index));
      var _, _ := CloseRequestScope(scope, throwing);
      completedNormally := allResolved && !callbackThrows;
      RequestReclaims(old(ops), scope.index, tokens);
    }
  }

  /** Whether a resolve through scope `s` succeeds once the operations have been performed. */
  ghost predicate ResolvesThen(ops: seq<Op>, s: nat, t: Token) {
    s < |Run(ops).w.scopes| && Succeeds(Run(ops).regs, Run(ops).w, s, t)
  }

  /** Every token resolves, one after the other. */
  ghost predicate AllResolve(ops: seq<Op>, s: nat, tokens: seq<Token>)
    decreases |tokens|
  {
    tokens == [] ||
    (ResolvesThen(ops, s, tokens[0]) && AllResolve(ops + [ResolveIn(s, tokens[0])], s, tokens[1..]))
  }

  /** The operations with a resolve for every token up to and including the first that fails. */
  ghost function AfterResolves(ops: seq<Op>, s: nat, tokens: seq<Token>): seq<Op>
    decreases |tokens|
  {
    if tokens == [] then ops
    else
      var ops' := ops + [ResolveIn(s, tokens[0])];
      if ResolvesThen(ops, s, tokens[0]) then AfterResolves(ops', s, tokens[1..]) else ops'
  }

  /** Through an open scope of an open container, all of them resolve exactly if all are well formed. */
  lemma {:induction false} AllResolveIff(ops: seq<Op>, s: nat, tokens: seq<Token>)
    requires var h := Run(ops); RootOpen(h) && 0 < s < |h.w.scopes| && !h.w.scopes[s].disposed
    ensures AllResolve(ops, s, tokens) <==> forall t :: t in tokens ==> WellFormed(Run(ops).regs, t)
    decreases |tokens|
  {
    if tokens != [] {
      var h := Run(ops);
      ResolutionIsExact(ops, s, tokens[0]);
      RunExtends(ops, ResolveIn(s, tokens[0]));
      ResolveFrames(h.regs, h.w, s, [], None, tokens[0]);
      AllResolveIff(ops + [ResolveIn(s, tokens[0])], s, tokens[1..]);
      assert tokens == [tokens[0]] + tokens[1..];
    }
  }

  lemma {:induction false} ResolvesAsOps(ops: seq<Op>, s: nat, tokens: seq<Token>) returns (body: seq<Op>)
    ensures AfterResolves(ops, s, tokens) == ops + body
    decreases |tokens|
  {
    if tokens == [] {
      body := [];
    } else if ResolvesThen(ops, s, tokens[0]) {
      var rest := ResolvesAsOps(ops + [ResolveIn(s, tokens[0])], s, tokens[1..]);
      body := [ResolveIn(s, tokens[0])] + rest;
    } else {
      body := [ResolveIn(s, tokens[0])];
    }
  }

  /** One request as operations: its scope, what the callback resolves, and the disposal. */
  ghost function RequestOps(ops: seq<Op>, s: nat, tokens: seq<Token>): seq<Op> {
    AfterResolves(ops + [ContainerHistory.CreateScope], s, tokens) + [DisposeScope(s)]
  }

  lemma RequestReclaims(ops: seq<Op>, s: nat, tokens: seq<Token>)
    requires s == |Run(ops).w.scopes|
    ensures var h := Run(RequestOps(ops, s, tokens));
      forall o :: o in h.w.built && o.disposable && Owner(o) == s ==> multiset(h.disposals)[o] == 1
  {
    var h := Run(RequestOps(ops, s, tokens));
    var body := ResolvesAsOps(ops + [ContainerHistory.CreateScope], s, tokens);
    forall o | o in h.w.built && o.disposable && Owner(o) == s
      ensures multiset(h.disposals)[o] == 1
    {
      RequestIsReclaimed(ops, body, o);
    }
  }

  /** The outcome of a dependency list whose first part is already resolved. */
  ghost function Prepend(parts: seq<Instance>, r: (World, Outcomes)): (World, Outcomes) {
    match r.1
    case SomeFailed(_) => r
    case AllResolved(os) => (r.0, AllResolved(parts + os))
  }

  lemma PrependNothing(r: (World, Outcomes))
    ensures Prepend([], r) == r
  {
    if r.1.AllResolved? {
      assert [] + r.1.instances == r.1.instances;
    }
  }

  lemma PrependOne(parts: seq<Instance>, o: Instance, r: (World, Outcomes))
    ensures Prepend(parts, Prepend([o], r)) == Prepend(parts + [o], r)
  {
    if r.1.AllResolved? {
      assert parts + ([o] + r.1.instances) == parts + [o] + r.1.instances;
    }
  }
}
