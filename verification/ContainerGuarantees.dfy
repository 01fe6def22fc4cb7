/**
  What users of the container can rely on, for every run of operations: which
  resolves succeed, which objects they share, and when each object is disposed of.
 */
module ContainerGuarantees {
  import opened Wrappers
  import opened Tokens
  import opened DependencyGraph
  import opened Resolver
  import opened Exactness
  import opened Ownership
  import opened ContainerHistory

  // ---- Exact resolution -----------------------------------------------------

  /** Through any open scope of a container that is not disposed, only the registrations decide. */
  lemma ResolutionIsExact(ops: seq<Op>, s: nat, t: Token)
    requires var h := Run(ops); RootOpen(h) && s < |h.w.scopes| && !h.w.scopes[s].disposed
    ensures var h := Run(ops); Succeeds(h.regs, h.w, s, t) <==> WellFormed(h.regs, t)
  {
    RunKeepsInvariant(ops);
    var h := Run(ops);
    ResolvesExactlyTheWellFormed(h.regs, h.w, s, t);
  }

  /** Resolving from the container itself additionally refuses tokens registered as scoped. */
  lemma RootResolutionIsExact(ops: seq<Op>, t: Token)
    ensures var h := Run(ops);
      RootOutcome(h.regs, h.w, t).1.Resolved? <==>
        RootOpen(h) && WellFormed(h.regs, t) && !(t in h.regs && h.regs[t].lifetime == Scoped)
  {
    var h := Run(ops);
    if RootOpen(h) {
      ResolutionIsExact(ops, 0, t);
      assert RootOutcome(h.regs, h.w, t).1.Resolved? ==> Succeeds(h.regs, h.w, 0, t);
    }
  }

  /**
    The two refusals that come before any dependency is looked at: a scoped token from the
    container itself, then a scope that is closed.  Neither changes anything.
   */
  lemma {:induction false} RefusalsChangeNothing(ops: seq<Op>, s: nat, t: Token)
    requires s < |Run(ops).w.scopes|
    ensures var h := Run(ops);
      && (t in h.regs && h.regs[t].lifetime == Scoped ==>
        && RootOutcome(h.regs, h.w, t).1 == Failed(ScopedFromRoot(t))
        && Run(ops + [ResolveRoot(t)]) == h)
      && (h.w.scopes[s].disposed ==>
        && Resolve(h.regs, h.w, s, [], None, t).1 == Failed(ScopeClosed(t))
        && Run(ops + [ResolveIn(s, t)]) == h)
      && (RootOutcome(h.regs, h.w, t).1 == Failed(ScopeClosed(t)) <==>
        !RootOpen(h) && !(t in h.regs && h.regs[t].lifetime == Scoped))
  {
    var h := Run(ops);
    RunExtends(ops, ResolveRoot(t));
    RunExtends(ops, ResolveIn(s, t));
    if RootOpen(h) && !(t in h.regs && h.regs[t].lifetime == Scoped) && !Succeeds(h.regs, h.w, 0, t) {
      ReportedPathsAreReal(ops, 0, t);
    }
  }

  /** Every failing resolve through an open scope reports a real chain ending in the stated defect. */
  lemma {:induction false} ReportedPathsAreReal(ops: seq<Op>, s: nat, t: Token)
    requires var h := Run(ops);
      s < |h.w.scopes| && !h.w.scopes[s].disposed && !Succeeds(h.regs, h.w, s, t)
    ensures var h := Run(ops);
      var e := Resolve(h.regs, h.w, s, [], None, t).1.error;
      Explains(h.regs, e) && ErrorPath(e)[0] == t
  {
    var h := Run(ops);
    FailsOnlyIfIllFormed(h.regs, h.w, s, t);
    FailureIsExplained(h.regs, h.w, s, [], None, t);
    assert [] + [t] == [t];
    assert [t] <= ErrorPath(Resolve(h.regs, h.w, s, [], None, t).1.error);
  }

  /** In any run at all, exactness at an open scope is the soundness of what that scope has cached. */
  lemma ExactnessLimit(ops: seq<Op>, s: nat)
    requires var h := Run(ops); s < |h.w.scopes| && !h.w.scopes[s].disposed
    ensures var h := Run(ops);
      (forall t :: Succeeds(h.regs, h.w, s, t) <==> WellFormed(h.regs, t)) <==> ScopedSound(h.regs, h.w, s)
  {
    RunKeepsInvariant(ops);
    var h := Run(ops);
    ExactIffCacheSound(h.regs, h.w, s);
  }

  // ---- The same, where it fails ---------------------------------------------

  function Leaf(disposable: bool): Factory {
    Factory([], disposable, false)
  }

  /** An uncached token without dependencies is built on the spot. */
  lemma {:induction false} LeafResolves(
    regs: Registry, w: World, s: nat, stack: seq<Token>, active: Option<Lifetime>, t: Token)
    requires s < |w.scopes| && !w.scopes[s].disposed && Elements(stack) <= regs.Keys
    requires t in regs && t !in stack && Cached(regs, w, s, t) == None
    requires regs[t].factory.deps == [] && !regs[t].factory.throws
    requires active == Some(Singleton) ==> regs[t].lifetime != Scoped
    ensures var o := Instance(|w.built|, t, regs[t].lifetime, s, regs[t].factory.disposable, []);
      Resolve(regs, w, s, stack, active, t) == (Complete(w, s, o), Resolved(o))
  {
    assert t in Elements(stack + [t]) && t !in Elements(stack);
    assert Elements(stack + [t]) == Elements(stack) + {t};
    var o := Instance(|w.built|, t, regs[t].lifetime, s, regs[t].factory.disposable, []);
    assert ResolveAll(regs, w, s, stack + [t], Activate(regs, t, active), []) == (w, AllResolved([]));
    assert Construct(regs, w, s, stack, active, t) == (w.(built := w.built + [o]), Resolved(o));
  }

  /** A scoped token whose only dependency nobody registers. */
  function Broken(): Registration {
    Registration(Scoped, Factory([Custom("missing")], false, false))
  }

  lemma BrokenIsIllFormed(regs: Registry, t: Token)
    requires t in regs && regs[t] == Broken() && Custom("missing") !in regs
    ensures !WellFormed(regs, t)
  {
    var p := [t, Custom("missing")];
    assert Edge(regs, t, Custom("missing")) && IsPath(regs, p);
    assert !Buildable(regs, p[1]);
  }

  /** Disposing of the container and registering the token again leaves what another scope has cached. */
  lemma CachedSurvivesContainer(h: History, t: Token)
    requires |h.w.scopes| == 2 && !h.w.scopes[1].disposed && t in h.w.scopes[1].scoped && t != Custom("missing")
    ensures var h' := Step(Step(h, DisposeContainer), Register(t, Broken()));
      |h'.w.scopes| == 2 && !h'.w.scopes[1].disposed && Succeeds(h'.regs, h'.w, 1, t) && !WellFormed(h'.regs, t)
  {
    var h1 := Step(h, DisposeContainer);
    assert h1.regs == map[] && h1.w.scopes[1] == h.w.scopes[1];
    BrokenIsIllFormed(map[t := Broken()], t);
  }

  /**
    A request scope that outlives its container: after `a` is registered again with
    a missing dependency, the scope still hands out the instance it had cached.
   */
  lemma StaleScopeResolvesIllFormed()
    ensures exists ops, t ::
      var h := Run(ops);
      |h.w.scopes| == 2 && !h.w.scopes[1].disposed && Succeeds(h.regs, h.w, 1, t) && !WellFormed(h.regs, t)
  {
    var t := Custom("a");
    var ops := [Register(t, Registration(Scoped, Leaf(true))), CreateScope, ResolveIn(1, t)];
    var h2 := Step(Step(Initial(), ops[0]), ops[1]);
    LeafResolves(h2.regs, h2.w, 1, [], None, t);
    var h3 := Step(h2, ops[2]);
    assert t in h3.w.scopes[1].scoped;
    assert ops[1..][1..] == [ops[2]] && [ops[2]][1..] == [];
    assert Run(ops) == RunFrom(Step(Initial(), ops[0]), ops[1..]) == RunFrom(h2, [ops[2]]) == h3;
    CachedSurvivesContainer(h3, t);
    RunExtends(ops, DisposeContainer);
    RunExtends(ops + [DisposeContainer], Register(t, Broken()));
  }

  /** A token whose only dependency is an uncached leaf, resolved one factory down. */
  lemma {:induction false} SingleLeafResolves(
    regs: Registry, w: World, s: nat, stack: seq<Token>, active: Option<Lifetime>, t: Token)
    requires s < |w.scopes| && !w.scopes[s].disposed && Elements(stack) <= regs.Keys
    requires t in regs && t !in stack && Cached(regs, w, s, t) == None
    requires regs[t].factory.deps == [] && !regs[t].factory.throws
    requires active == Some(Singleton) ==> regs[t].lifetime != Scoped
    ensures var o := Instance(|w.built|, t, regs[t].lifetime, s, regs[t].factory.disposable, []);
      ResolveAll(regs, w, s, stack, active, [t]) == (Complete(w, s, o), AllResolved([o]))
  {
    LeafResolves(regs, w, s, stack, active, t);
    var o := Instance(|w.built|, t, regs[t].lifetime, s, regs[t].factory.disposable, []);
    var w' := Complete(w, s, o);
    assert [t][0] == t && [t][1..] == [] && [o] + [] == [o];
    assert ResolveAll(regs, w', s, stack, active, []) == (w', AllResolved([]));
  }

  /**
    The root scope can hold a scoped instance: only the token asked for is checked,
    not what its factory resolves.
   */
  lemma RootMayHoldScoped()
    ensures exists ops :: var h := Run(ops); RootOpen(h) && h.w.scopes[0].scoped != map[]
  {
    var ops := [
      Register(Custom("s"), Registration(Scoped, Leaf(false))),
      Register(Custom("t"), Registration(Transient, Factory([Custom("s")], false, false))), ResolveRoot(Custom("t"))];
    var h1 := Step(Initial(), ops[0]);
    var h2 := Step(h1, ops[1]);
    var h3 := Step(h2, ops[2]);
    assert ops[1..][1..] == [ops[2]] && [ops[2]][1..] == [];
    assert Run(ops) == RunFrom(h1, ops[1..]) == RunFrom(h2, [ops[2]]) == RunFrom(h3, []) == h3;
    assert [] + [Custom("t")] == [Custom("t")];
    SingleLeafResolves(h2.regs, h2.w, 0, [Custom("t")], None, Custom("s"));
    var w' := ResolveAll(h2.regs, h2.w, 0, [Custom("t")], None, [Custom("s")]).0;
    assert Custom("s") in w'.scopes[0].scoped;
    assert Construct(h2.regs, h2.w, 0, [], None, Custom("t")).0.scopes == w'.scopes;
    assert Custom("s") in h3.w.scopes[0].scoped;
    assert RootOpen(Run(ops)) && Run(ops).w.scopes[0].scoped != map[];
  }

  // ---- Instance identity ----------------------------------------------------

  /** Who shares an object with whom, over any two successful resolves of a run. */
  lemma InstanceIdentity(ops: seq<Op>, i: nat, j: nat)
    requires i < j < |Run(ops).deliveries|
    ensures var d, d' := Run(ops).deliveries[i], Run(ops).deliveries[j];
      && (SameSingleton(d, d') ==> d.instance == d'.instance)
      && (d.instance.lifetime == Scoped && d'.instance.lifetime == Scoped && d.instance.token == d'.instance.token ==>
          (d.instance == d'.instance <==> d.scope == d'.scope))
      && (d.instance.lifetime == Transient || d'.instance.lifetime == Transient ==> d.instance != d'.instance)
  {
    RunKeepsInvariant(ops);
    var h := Run(ops);
    var d, d' := h.deliveries[i], h.deliveries[j];
    assert DeliveryValid(h, d) && DeliveryValid(h, d');
    assert DeliveriesAgree(d, d');
  }

  /**
    Since the container was last disposed of, no singleton factory has completed
    twice; a scoped factory never completes twice for one scope.
   */
  lemma FactoriesCompleteOnce(ops: seq<Op>, i: nat, j: nat)
    requires i < j < |Run(ops).w.built|
    ensures var h := Run(ops);
      var o, o' := h.w.built[i], h.w.built[j];
      && (h.epoch <= i && o.lifetime == Singleton && o'.lifetime == Singleton ==> o.token != o'.token)
      && (o.lifetime == Scoped && o'.lifetime == Scoped && o.token == o'.token ==> o.scope != o'.scope)
      && (RootOpen(h) ==> h.epoch == 0)
  {
    RunKeepsInvariant(ops);
    var h := Run(ops);
    assert h.w.built[i].id == i && h.w.built[j].id == j;
  }

  // ---- Disposal -------------------------------------------------------------

  /** `x` is among the objects `y` was built from, directly or through others. */
  ghost predicate Uses(y: Instance, x: Instance)
    decreases y
  {
    exists p :: p in y.parts && (p == x || Uses(p, x))
  }

  lemma {:induction false} UsedIsOlder(built: seq<Instance>, y: Instance, x: Instance)
    requires forall i :: 0 <= i < |built| ==> PartsLogged(built, built[i])
    requires Logged(built, y) && Uses(y, x)
    ensures x.id < y.id
    decreases y
  {
    var p :| p in y.parts && (p == x || Uses(p, x));
    assert PartsLogged(built, built[y.id]);
    if p != x {
      UsedIsOlder(built, p, x);
    }
  }

  /** An instance has been disposed of exactly when its owner was closed after it was built, and only once. */
  lemma DisposalIsExact(ops: seq<Op>, o: Instance)
    ensures var h := Run(ops); o in h.disposals <==> Due(h, o)
    ensures var h := Run(ops); multiset(h.disposals)[o] <= 1
    ensures var h := Run(ops);
      Logged(h.w.built, o) && o.disposable && 0 < Owner(o) < |h.w.scopes| ==>
        (o in h.disposals <==> h.w.scopes[Owner(o)].disposed)
  {
    RunKeepsInvariant(ops);
    var h := Run(ops);
    DistinctOccursOnce(h.disposals, o);
  }

  lemma {:induction false} DistinctOccursOnce(s: seq<Instance>, o: Instance)
    requires forall i, j :: 0 <= i < j < |s| ==> s[i] != s[j]
    ensures multiset(s)[o] <= 1
  {
    if s != [] {
      DistinctOccursOnce(s[1..], o);
      assert s == [s[0]] + s[1..];
      if s[0] == o {
        assert forall j :: 0 <= j < |s[1..]| ==> s[1..][j] != s[0];
        assert o !in s[1..];
      }
    }
  }

  /** Within one owner, whatever uses an object is disposed of before it. */
  lemma DependentsGoFirst(ops: seq<Op>, i: nat, j: nat)
    requires i < j < |Run(ops).disposals|
    requires Owner(Run(ops).disposals[i]) == Owner(Run(ops).disposals[j])
    ensures !Uses(Run(ops).disposals[j], Run(ops).disposals[i])
  {
    RunKeepsInvariant(ops);
    var h := Run(ops);
    var x, y := h.disposals[i], h.disposals[j];
    assert y in h.disposals && Due(h, y);
    if Uses(y, x) {
      UsedIsOlder(h.w.built, y, x);
      assert false;
    }
  }

  /** What one `dispose()` of an open scope does: its owned instances, youngest first, and nothing else. */
  lemma ClosingDisposesTheOwned(ops: seq<Op>, s: nat)
    requires var h := Run(ops); 0 < s < |h.w.scopes| && !h.w.scopes[s].disposed
    ensures var h := Run(ops);
      var h' := Step(h, DisposeScope(s));
      && h.disposals <= h'.disposals
      && (forall o :: o in h'.disposals[|h.disposals|..] <==> o in h.w.built && o.disposable && Owner(o) == s)
      && (forall o :: o in h'.disposals[|h.disposals|..] ==> o !in h.disposals)
      && Step(h', DisposeScope(s)) == h'
  {
    RunKeepsInvariant(ops);
    var h := Run(ops);
    var h' := Step(h, DisposeScope(s));
    assert h'.disposals[|h.disposals|..] == Reverse(h.w.scopes[s].tracked);
    forall o
      ensures o in Reverse(h.w.scopes[s].tracked) <==> o in h.w.built && o.disposable && Owner(o) == s
    {
      ReverseContents(h.w.scopes[s].tracked, o);
      OwnedContents(h.w.built, s, o);
    }
  }

  /**
    A request: its scope is created, anything happens, and the scope is disposed in
    the end.  Whatever the request built for itself has then been disposed of once.
   */
  lemma RequestIsReclaimed(ops: seq<Op>, body: seq<Op>, o: Instance)
    requires var s := |Run(ops).w.scopes|;
      var h := Run(ops + [CreateScope] + body + [DisposeScope(s)]);
      o in h.w.built && o.disposable && Owner(o) == s
    ensures var s := |Run(ops).w.scopes|;
      multiset(Run(ops + [CreateScope] + body + [DisposeScope(s)]).disposals)[o] == 1
  {
    var s := |Run(ops).w.scopes|;
    var all := ops + [CreateScope] + body;
    RunSplits(Initial(), ops, [CreateScope]);
    RunSplits(Initial(), ops + [CreateScope], body);
    RunSplits(Initial(), all, [DisposeScope(s)]);
    ScopesOnlyGrow(Run(ops + [CreateScope]), body);
    var h := Run(all + [DisposeScope(s)]);
    assert [CreateScope][1..] == [] && [DisposeScope(s)][1..] == [];
    assert h == Step(Run(all), DisposeScope(s));
    assert h.w.scopes[s].disposed;
    RunKeepsInvariant(all + [DisposeScope(s)]);
    var i :| 0 <= i < |h.w.built| && h.w.built[i] == o;
    assert Logged(h.w.built, o);
    DisposalIsExact(all + [DisposeScope(s)], o);
    assert 0 < s;
  }

  lemma {:induction false} RunSplits(h: History, ops: seq<Op>, more: seq<Op>)
    requires 0 < |h.w.scopes|
    ensures RunFrom(h, ops + more) == RunFrom(RunFrom(h, ops), more)
    decreases |ops|
  {
    if ops == [] {
      assert ops + more == more;
    } else {
      RunSplits(Step(h, ops[0]), ops[1..], more);
      assert (ops + more)[1..] == ops[1..] + more;
    }
  }

  lemma RunExtends(ops: seq<Op>, op: Op)
    ensures Run(ops + [op]) == Step(Run(ops), op)
  {
    RunSplits(Initial(), ops, [op]);
    assert [op][1..] == [];
  }

  // ---- What is registered ---------------------------------------------------

  /** A registration of `t` that the container has not been disposed of since. */
  ghost predicate RegisteredAt(ops: seq<Op>, i: int, t: Token) {
    && 0 <= i < |ops| && ops[i].Register? && ops[i].token == t
    && DisposeContainer !in ops[i..]
  }

  lemma {:induction false} RegisteredIff(ops: seq<Op>, t: Token)
    ensures t in Run(ops).regs <==> exists i :: RegisteredAt(ops, i, t)
    decreases |ops|
  {
    if ops != [] {
      var n := |ops| - 1;
      assert ops == ops[..n] + [ops[n]];
      RunExtends(ops[..n], ops[n]);
      RegisteredIff(ops[..n], t);
      forall i | 0 <= i < n
        ensures RegisteredAt(ops, i, t) <==> RegisteredAt(ops[..n], i, t) && ops[n] != DisposeContainer
      {
        assert ops[i..] == ops[..n][i..] + [ops[n]];
      }
      assert RegisteredAt(ops, n, t) <==> ops[n].Register? && ops[n].token == t;
    }
  }

  /** A registration that finds its token free decides until the container is disposed of. */
  lemma {:induction false} RegistrationDecides(before: seq<Op>, t: Token, r: Registration, after: seq<Op>)
    requires t !in Run(before).regs && DisposeContainer !in after
    ensures var h := Run(before + [Register(t, r)] + after); t in h.regs && h.regs[t] == r
    decreases |after|
  {
    if after == [] {
      RunExtends(before, Register(t, r));
      assert before + [Register(t, r)] + [] == before + [Register(t, r)];
    } else {
      var n := |after| - 1;
      RegistrationDecides(before, t, r, after[..n]);
      RunExtends(before + [Register(t, r)] + after[..n], after[n]);
      assert before + [Register(t, r)] + after == before + [Register(t, r)] + after[..n] + [after[n]];
    }
  }

  lemma {:induction false} ScopesOnlyGrow(h: History, ops: seq<Op>)
    requires 0 < |h.w.scopes|
    ensures |RunFrom(h, ops).w.scopes| >= |h.w.scopes|
    decreases |ops|
  {
    if ops != [] {
      ScopesOnlyGrow(Step(h, ops[0]), ops[1..]);
    }
  }

  // ---- Where dependents do not go first ---------------------------------------

  /**
    Across owners the order can be the wrong way round: a transient built for a
    singleton is tracked by the requesting scope, so closing that scope disposes of
    it while the singleton that uses it is still being handed out.
   */
  lemma SingletonOutlivesItsPart()
    ensures exists ops, x, y ::
      var h := Run(ops);
      && Uses(y, x) && x in h.disposals && y !in h.disposals
      && y.token in h.w.singletons && h.w.singletons[y.token] == y && RootOpen(h)
  {
    var ops := [
      Register(Custom("x"), Registration(Transient, Leaf(true))),
      Register(Custom("y"), Registration(Singleton, Factory([Custom("x")], true, false))),
      CreateScope, ResolveIn(1, Custom("y")), DisposeScope(1)];
    var h1 := Step(Initial(), ops[0]);
    var h2 := Step(h1, ops[1]);
    var h3 := Step(h2, ops[2]);
    assert ops[1..][1..][1..] == ops[3..];
    assert Run(ops) == RunFrom(h1, ops[1..]) == RunFrom(h2, ops[1..][1..]) == RunFrom(h3, ops[3..]);
    assert h3.regs == map[Custom("x") := Registration(Transient, Leaf(true)),
                          Custom("y") := Registration(Singleton, Factory([Custom("x")], true, false))];
    assert h3.w == World(map[], [EMPTY_SCOPE, EMPTY_SCOPE], []);
    var x, y := SingletonTakesTransient(h3);
    var h4 := Step(h3, ops[3]);
    var h5 := Step(h4, ops[4]);
    assert ops[3..][1..] == [ops[4]] && [ops[4]][1..] == [];
    assert Run(ops) == RunFrom(h4, [ops[4]]) == RunFrom(h5, []) == h5;
    ReverseContents([x], x);
    ReverseContents([x], y);
    assert h5.disposals == Reverse([x]);
  }

  lemma SingletonTakesTransient(h: History) returns (x: Instance, y: Instance)
    requires h.regs == map[Custom("x") := Registration(Transient, Leaf(true)),
                           Custom("y") := Registration(Singleton, Factory([Custom("x")], true, false))]
    requires h.w == World(map[], [EMPTY_SCOPE, EMPTY_SCOPE], [])
    ensures x != y && Uses(y, x)
    ensures var h' := Step(h, ResolveIn(1, Custom("y")));
      && h'.w.singletons == map[Custom("y") := y] && |h'.w.scopes| == 2
      && h'.w.scopes[1].tracked == [x] && !h'.w.scopes[1].disposed && !h'.w.scopes[0].disposed
      && h'.disposals == h.disposals && y.token == Custom("y")
  {
    x := Instance(0, Custom("x"), Transient, 1, true, []);
    y := Instance(1, Custom("y"), Singleton, 1, true, [x]);
    assert [] + [Custom("y")] == [Custom("y")];
    SingleLeafResolves(h.regs, h.w, 1, [Custom("y")], Some(Singleton), Custom("x"));
    var w' := Complete(h.w, 1, x);
    assert Construct(h.regs, h.w, 1, [], None, Custom("y")) == (w'.(built := w'.built + [y]), Resolved(y));
    assert Resolve(h.regs, h.w, 1, [], None, Custom("y")) == (Complete(w', 1, y), Resolved(y));
    assert x in y.parts;
  }
}
