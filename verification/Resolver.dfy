/**
  The resolution algorithm of the service container as a function on values: the
  state a container and its scopes hold, what one resolve returns and what it
  leaves behind.  The classes in ServiceContainer.dfy are proved to compute it.
 */
module Resolver {
  import opened Wrappers
  import opened Tokens
  import opened DependencyGraph

  /**
    An object a factory returned: `id` counts factory completions, `scope` is the
    scope it was built through and `parts` are the dependencies it was handed.
   */
  datatype Instance = Instance(
    id: nat, token: Token, lifetime: Lifetime, scope: nat, disposable: bool, parts: seq<Instance>)

  datatype ScopeState = ScopeState(scoped: map<Token, Instance>, tracked: seq<Instance>, disposed: bool)

  /** Scope 0 is the root scope.  `built` logs every factory completion in order. */
  datatype World = World(singletons: map<Token, Instance>, scopes: seq<ScopeState>, built: seq<Instance>)

  datatype Error =
    | ScopeClosed(token: Token)
    | NotRegistered(token: Token, path: seq<Token>)
    | Circular(path: seq<Token>)
    | Captive(path: seq<Token>)
    | FactoryThrew(path: seq<Token>)
    | ScopedFromRoot(token: Token)

  datatype Outcome = Resolved(instance: Instance) | Failed(error: Error)

  datatype Outcomes = AllResolved(instances: seq<Instance>) | SomeFailed(error: Error)

  function Elements(s: seq<Token>): set<Token> {
    set t | t in s
  }

  /** The scope whose tracking list is responsible for disposing of the instance. */
  function Owner(o: Instance): nat {
    if o.lifetime == Singleton then 0 else o.scope
  }

  function Track(sc: ScopeState, o: Instance): ScopeState {
    if o.disposable && o !in sc.tracked then sc.(tracked := sc.tracked + [o]) else sc
  }

  function SetScoped(sc: ScopeState, o: Instance): ScopeState {
    ScopeState(sc.scoped[o.token := o], if o.disposable then sc.tracked + [o] else sc.tracked, sc.disposed)
  }

  function Cached(regs: Registry, w: World, s: nat, t: Token): Option<Instance>
    requires s < |w.scopes| && t in regs
  {
    match regs[t].lifetime
    case Singleton => if t in w.singletons then Some(w.singletons[t]) else None
    case Scoped => if t in w.scopes[s].scoped then Some(w.scopes[s].scoped[t]) else None
    case Transient => None
  }

  /** Caches and tracks an instance a factory has just returned. */
  function Adopt(w: World, s: nat, o: Instance): (r: World)
    requires s < |w.scopes|
    ensures |r.scopes| == |w.scopes|
  {
    match o.lifetime
    case Singleton =>
      w.(singletons := w.singletons[o.token := o], scopes := w.scopes[0 := Track(w.scopes[0], o)])
    case Scoped => w.(scopes := w.scopes[s := SetScoped(w.scopes[s], o)])
    case Transient => w.(scopes := w.scopes[s := Track(w.scopes[s], o)])
  }

  function Activate(regs: Registry, t: Token, active: Option<Lifetime>): Option<Lifetime>
    requires t in regs
  {
    if regs[t].lifetime == Singleton then Some(Singleton) else active
  }

  /** Resolves one token through scope `s`; `stack` and `active` are the resolution context. */
  function Resolve(regs: Registry, w: World, s: nat, stack: seq<Token>, active: Option<Lifetime>, t: Token)
    : (r: (World, Outcome))
    requires s < |w.scopes| && Elements(stack) <= regs.Keys
    ensures |r.0.scopes| == |w.scopes|
    decreases regs.Keys - Elements(stack), 1, 0
  {
    if w.scopes[s].disposed then
      (w, Failed(ScopeClosed(t)))
    else if t !in regs then
      (w, Failed(NotRegistered(t, stack + [t])))
    else if t in stack then
      (w, Failed(Circular(stack + [t])))
    else if active == Some(Singleton) && regs[t].lifetime == Scoped then
      (w, Failed(Captive(stack + [t])))
    else match Cached(regs, w, s, t)
      case Some(o) => (w, Resolved(o))
      case None =>
        assert t in Elements(stack + [t]);
        assert Elements(stack + [t]) == Elements(stack) + {t};
        var (w', built) := Construct(regs, w, s, stack, active, t);
        match built
        case Failed(_) => (w', built)
        case Resolved(o) => (Adopt(w', s, o), built)
  }

  /** Runs the factory of `t` with `t` pushed on the stack. */
  function Construct(regs: Registry, w: World, s: nat, stack: seq<Token>, active: Option<Lifetime>, t: Token)
    : (r: (World, Outcome))
    requires s < |w.scopes| && Elements(stack) <= regs.Keys && t in regs && t !in stack
    ensures |r.0.scopes| == |w.scopes|
    decreases regs.Keys - Elements(stack), 0, 0
  {
    assert t in Elements(stack + [t]) && t !in Elements(stack);
    assert Elements(stack + [t]) == Elements(stack) + {t};
    var factory := regs[t].factory;
    var (w', parts) := ResolveAll(regs, w, s, stack + [t], Activate(regs, t, active), factory.deps);
    match parts
    case SomeFailed(e) => (w', Failed(e))
    case AllResolved(os) =>
      if factory.throws then
        (w', Failed(FactoryThrew(stack + [t])))
      else
        var o := Instance(|w'.built|, t, regs[t].lifetime, s, factory.disposable, os);
        (w'.(built := w'.built + [o]), Resolved(o))
  }

  /** The dependencies of one factory, in order, up to the first failure. */
  function ResolveAll(
    regs: Registry, w: World, s: nat, stack: seq<Token>, active: Option<Lifetime>, ts: seq<Token>)
    : (r: (World, Outcomes))
    requires s < |w.scopes| && Elements(stack) <= regs.Keys
    ensures |r.0.scopes| == |w.scopes|
    decreases regs.Keys - Elements(stack), 2, |ts|
  {
    if ts == [] then (w, AllResolved([]))
    else
      var (w', first) := Resolve(regs, w, s, stack, active, ts[0]);
      match first
      case Failed(e) => (w', SomeFailed(e))
      case Resolved(o) =>
        var (w'', rest) := ResolveAll(regs, w', s, stack, active, ts[1..]);
        match rest
        case SomeFailed(_) => (w'', rest)
        case AllResolved(os) => (w'', AllResolved([o] + os))
  }
}
