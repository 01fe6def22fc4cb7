/**
  Resolving a token succeeds exactly when its dependency closure is well formed,
  whatever the caches hold, and a failure names a chain that explains it.
 */
module Exactness {
  import opened Wrappers
  import opened Tokens
  import opened DependencyGraph
  import opened Resolver

  // ---- What resolving through a scope cannot touch --------------------------

  /** Scopes keep their number and their disposed flags, and the log only grows. */
  ghost predicate Frame(w: World, w': World) {
    && |w'.scopes| == |w.scopes|
    && w.built <= w'.built
    && forall k :: 0 <= k < |w.scopes| ==> w'.scopes[k].disposed == w.scopes[k].disposed
  }

  lemma {:induction false} ResolveFrames(
    regs: Registry, w: World, s: nat, stack: seq<Token>, active: Option<Lifetime>, t: Token)
    requires s < |w.scopes| && Elements(stack) <= regs.Keys
    ensures Frame(w, Resolve(regs, w, s, stack, active, t).0)
    decreases regs.Keys - Elements(stack), 1, 0
  {
    if && !w.scopes[s].disposed && t in regs && t !in stack
       && !(active == Some(Singleton) && regs[t].lifetime == Scoped) {
      if Cached(regs, w, s, t) == None {
        ConstructFrames(regs, w, s, stack, active, t);
      }
    }
  }

  lemma {:induction false} ConstructFrames(
    regs: Registry, w: World, s: nat, stack: seq<Token>, active: Option<Lifetime>, t: Token)
    requires s < |w.scopes| && Elements(stack) <= regs.Keys && t in regs && t !in stack
    ensures var (w', r) := Construct(regs, w, s, stack, active, t);
      Frame(w, w') && (r.Resolved? ==> Frame(w, Adopt(w', s, r.instance)))
    decreases regs.Keys - Elements(stack), 0, 0
  {
    assert t in Elements(stack + [t]) && t !in Elements(stack);
    assert Elements(stack + [t]) == Elements(stack) + {t};
    ResolveAllFrames(regs, w, s, stack + [t], Activate(regs, t, active), regs[t].factory.deps);
  }

  lemma {:induction false} ResolveAllFrames(
    regs: Registry, w: World, s: nat, stack: seq<Token>, active: Option<Lifetime>, ts: seq<Token>)
    requires s < |w.scopes| && Elements(stack) <= regs.Keys
    ensures Frame(w, ResolveAll(regs, w, s, stack, active, ts).0)
    decreases regs.Keys - Elements(stack), 2, |ts|
  {
    if ts != [] {
      ResolveFrames(regs, w, s, stack, active, ts[0]);
      var (w', first) := Resolve(regs, w, s, stack, active, ts[0]);
      if first.Resolved? {
        ResolveAllFrames(regs, w', s, stack, active, ts[1..]);
      }
    }
  }

  /** Only scope `s` builds, and only it caches scoped instances; other request scopes are untouched. */
  ghost predicate Confined(regs: Registry, w: World, w': World, s: nat) {
    && |w'.scopes| == |w.scopes| && |w.built| <= |w'.built|
    && (forall i :: |w.built| <= i < |w'.built| ==> w'.built[i].scope == s)
    && (forall k :: 0 <= k < |w.scopes| && k != s ==> w'.scopes[k].scoped == w.scopes[k].scoped)
    && (forall k :: 0 < k < |w.scopes| && k != s ==> w'.scopes[k] == w.scopes[k])
    && (s < |w.scopes| ==> forall t :: t in w'.scopes[s].scoped && t !in w.scopes[s].scoped ==>
      t in regs && regs[t].lifetime == Scoped)
    && (forall t :: t in w'.singletons && t !in w.singletons ==> t in regs && regs[t].lifetime == Singleton)
  }

  lemma {:induction false} ResolveIsConfined(
    regs: Registry, w: World, s: nat, stack: seq<Token>, active: Option<Lifetime>, t: Token)
    requires s < |w.scopes| && Elements(stack) <= regs.Keys
    ensures Confined(regs, w, Resolve(regs, w, s, stack, active, t).0, s)
    decreases regs.Keys - Elements(stack), 1, 0
  {
    if && !w.scopes[s].disposed && t in regs && t !in stack
       && !(active == Some(Singleton) && regs[t].lifetime == Scoped) {
      if Cached(regs, w, s, t) == None {
        ConstructIsConfined(regs, w, s, stack, active, t);
      }
    }
  }

  lemma {:induction false} ConstructIsConfined(
    regs: Registry, w: World, s: nat, stack: seq<Token>, active: Option<Lifetime>, t: Token)
    requires s < |w.scopes| && Elements(stack) <= regs.Keys && t in regs && t !in stack
    ensures var (w', r) := Construct(regs, w, s, stack, active, t);
      Confined(regs, w, if r.Resolved? then Adopt(w', s, r.instance) else w', s)
    decreases regs.Keys - Elements(stack), 0, 0
  {
    var stack' := stack + [t];
    assert t in Elements(stack') && t !in Elements(stack);
    assert Elements(stack') == Elements(stack) + {t};
    var active' := Activate(regs, t, active);
    var f := regs[t].factory;
    ResolveAllIsConfined(regs, w, s, stack', active', f.deps);
    ResolveAllFrames(regs, w, s, stack', active', f.deps);
  }

  lemma {:induction false} ResolveAllIsConfined(
    regs: Registry, w: World, s: nat, stack: seq<Token>, active: Option<Lifetime>, ts: seq<Token>)
    requires s < |w.scopes| && Elements(stack) <= regs.Keys
    ensures Confined(regs, w, ResolveAll(regs, w, s, stack, active, ts).0, s)
    decreases regs.Keys - Elements(stack), 2, |ts|
  {
    if ts != [] {
      ResolveIsConfined(regs, w, s, stack, active, ts[0]);
      var (w', first) := Resolve(regs, w, s, stack, active, ts[0]);
      if first.Resolved? {
        ResolveAllIsConfined(regs, w', s, stack, active, ts[1..]);
        ResolveAllFrames(regs, w', s, stack, active, ts[1..]);
      }
    }
  }

  // ---- Failures name their cause --------------------------------------------

  /** The chain an error reports. */
  function ErrorPath(e: Error): seq<Token> {
    match e
    case ScopeClosed(t) => [t]
    case ScopedFromRoot(t) => [t]
    case NotRegistered(_, p) => p
    case Circular(p) => p
    case Captive(p) => p
    case FactoryThrew(p) => p
  }

  /** The reported chain is a real one and its last token is what the error says it is. */
  ghost predicate Explains(regs: Registry, e: Error) {
    var p := ErrorPath(e);
    && IsPath(regs, p)
    && var last := p[|p| - 1];
       match e
       case NotRegistered(t, _) => t == last && last !in regs
       case Circular(_) => last in p[..|p| - 1]
       case Captive(_) =>
         last !in p[..|p| - 1] && exists i :: 0 <= i < |p| - 1 && Captures(regs, p[i], last)
       case FactoryThrew(_) => last in regs && regs[last].factory.throws
       case _ => false
  }

  ghost predicate SomeSingleton(regs: Registry, stack: seq<Token>) {
    exists i :: 0 <= i < |stack| && stack[i] in regs && regs[stack[i]].lifetime == Singleton
  }

  lemma ActivateKeeps(regs: Registry, stack: seq<Token>, active: Option<Lifetime>, t: Token)
    requires t in regs
    requires active == Some(Singleton) <==> SomeSingleton(regs, stack)
    ensures Activate(regs, t, active) == Some(Singleton) <==> SomeSingleton(regs, stack + [t])
  {
    var stack' := stack + [t];
    assert forall i :: 0 <= i < |stack| ==> stack'[i] == stack[i];
    assert stack'[|stack|] == t;
  }

  lemma CaptiveIsExplained(regs: Registry, stack: seq<Token>, t: Token)
    requires IsPath(regs, stack + [t]) && SomeSingleton(regs, stack)
    requires t in regs && regs[t].lifetime == Scoped && t !in stack
    ensures Explains(regs, Captive(stack + [t]))
  {
    assert (stack + [t])[..|stack|] == stack;
    var i :| 0 <= i < |stack| && stack[i] in regs && regs[stack[i]].lifetime == Singleton;
    assert Captures(regs, (stack + [t])[i], t);
  }

  /** The dependencies of `t` continue every chain that led to `t`. */
  lemma DependenciesExtend(regs: Registry, stack: seq<Token>, t: Token)
    requires IsPath(regs, stack + [t]) && t in regs
    ensures forall d :: d in regs[t].factory.deps ==> IsPath(regs, stack + [t] + [d])
  {
    assert forall d :: d in regs[t].factory.deps ==> Edge(regs, (stack + [t])[|stack|], d);
  }

  lemma {:induction false} FailureIsExplained(
    regs: Registry, w: World, s: nat, stack: seq<Token>, active: Option<Lifetime>, t: Token)
    requires s < |w.scopes| && Elements(stack) <= regs.Keys && !w.scopes[s].disposed
    requires IsPath(regs, stack + [t])
    requires active == Some(Singleton) <==> SomeSingleton(regs, stack)
    ensures var r := Resolve(regs, w, s, stack, active, t).1;
      r.Failed? ==> Explains(regs, r.error) && stack + [t] <= ErrorPath(r.error)
    decreases regs.Keys - Elements(stack), 1, 0
  {
    if t !in stack && t in regs {
      if active == Some(Singleton) && regs[t].lifetime == Scoped {
        CaptiveIsExplained(regs, stack, t);
      } else if Cached(regs, w, s, t) == None {
        assert t in Elements(stack + [t]) && t !in Elements(stack);
        assert Elements(stack + [t]) == Elements(stack) + {t};
        ActivateKeeps(regs, stack, active, t);
        DependenciesExtend(regs, stack, t);
        FailureInList(regs, w, s, stack + [t], Activate(regs, t, active), regs[t].factory.deps);
      }
    }
  }

  lemma {:induction false} FailureInList(
    regs: Registry, w: World, s: nat, stack: seq<Token>, active: Option<Lifetime>, ts: seq<Token>)
    requires s < |w.scopes| && Elements(stack) <= regs.Keys && !w.scopes[s].disposed
    requires forall d :: d in ts ==> IsPath(regs, stack + [d])
    requires active == Some(Singleton) <==> SomeSingleton(regs, stack)
    ensures var r := ResolveAll(regs, w, s, stack, active, ts).1;
      r.SomeFailed? ==> Explains(regs, r.error) && stack <= ErrorPath(r.error)
    decreases regs.Keys - Elements(stack), 2, |ts|
  {
    if ts != [] {
      FailureIsExplained(regs, w, s, stack, active, ts[0]);
      ResolveFrames(regs, w, s, stack, active, ts[0]);
      var (w', first) := Resolve(regs, w, s, stack, active, ts[0]);
      if first.Resolved? {
        FailureInList(regs, w', s, stack, active, ts[1..]);
      }
    }
  }

  lemma ExplainedIsUnclean(regs: Registry, e: Error)
    requires Explains(regs, e)
    ensures !Clean(regs, ErrorPath(e))
  {
    var p := ErrorPath(e);
    var n := |p| - 1;
    match e
    case NotRegistered(t, _) => assert !Buildable(regs, p[n]);
    case FactoryThrew(_) => assert !Buildable(regs, p[n]);
    case Circular(_) =>
      var i :| 0 <= i < n && p[..n][i] == p[n];
      assert p[i] == p[n];
    case Captive(_) =>
      var i :| 0 <= i < n && Captures(regs, p[i], p[n]);
    case _ =>
  }

  // ---- Successes are well formed --------------------------------------------

  ghost predicate SingletonsSound(regs: Registry, w: World) {
    forall t :: t in w.singletons && t in regs && regs[t].lifetime == Singleton ==> WellFormed(regs, t)
  }

  /** Whatever scope `s` has cached and would return could also be built. */
  ghost predicate ScopedSound(regs: Registry, w: World, s: nat)
    requires s < |w.scopes|
  {
    forall t :: t in w.scopes[s].scoped && t in regs && regs[t].lifetime == Scoped ==> WellFormed(regs, t)
  }

  /** A clean chain that also repeats nothing from, and is not captured by, the stack below it. */
  ghost predicate Fits(regs: Registry, stack: seq<Token>, p: seq<Token>) {
    && Clean(regs, p)
    && (forall i, j :: 0 <= i < |stack| && 0 <= j < |p| ==> stack[i] != p[j])
    && (forall i, j :: 0 <= i < |stack| && 0 <= j < |p| ==> !Captures(regs, stack[i], p[j]))
  }

  ghost predicate AllFit(regs: Registry, stack: seq<Token>, t: Token) {
    forall p :: IsPath(regs, p) && p[0] == t ==> Fits(regs, stack, p)
  }

  /** A chain from `t` back to a token that led to `t` closes a cycle through `t`. */
  lemma LeadingBackIsUnclean(regs: Registry, stack: seq<Token>, t: Token, p: seq<Token>, i: nat, j: nat)
    requires IsPath(regs, stack + [t]) && t !in stack
    requires IsPath(regs, p) && p[0] == t
    requires i < |stack| && j < |p| && stack[i] == p[j]
    ensures !WellFormed(regs, t)
  {
    var up := (stack + [t])[i..|stack| + 1];
    PathSlice(regs, stack + [t], i, |stack| + 1);
    assert p[j] == up[0] && stack[i] in stack;
    PathSlice(regs, p, 0, j);
    assert Edge(regs, p[j - 1], p[j]);
    var loop := p[..j] + up;
    assert loop[0] == t && loop[|loop| - 1] == t && |loop| > 1;
    assert IsPath(regs, loop) && !Clean(regs, loop);
  }

  /** A scoped token on the chain of a singleton is captured by that singleton too. */
  lemma CapturedBelow(regs: Registry, stack: seq<Token>, p: seq<Token>, i: nat, j: nat)
    requires i < |stack| && j < |p| && Captures(regs, stack[i], p[j]) && p[0] in regs
    ensures SomeSingleton(regs, stack)
    ensures regs[p[0]].lifetime == Singleton ==> !Clean(regs, p)
  {
    if regs[p[0]].lifetime == Singleton {
      assert Captures(regs, p[0], p[j]);
    }
  }

  /** A well-formed token below the stack cannot lead back into it. */
  lemma CachedFits(regs: Registry, stack: seq<Token>, active: Option<Lifetime>, t: Token)
    requires IsPath(regs, stack + [t]) && WellFormed(regs, t) && t !in stack
    requires active == Some(Singleton) <==> SomeSingleton(regs, stack)
    requires t in regs && (regs[t].lifetime == Singleton || active != Some(Singleton))
    ensures AllFit(regs, stack, t)
  {
    forall p | IsPath(regs, p) && p[0] == t
      ensures Fits(regs, stack, p)
    {
      assert Clean(regs, p);
      forall i, j | 0 <= i < |stack| && 0 <= j < |p|
        ensures stack[i] != p[j]
      {
        if stack[i] == p[j] {
          LeadingBackIsUnclean(regs, stack, t, p, i, j);
          assert false;
        }
      }
      forall i, j | 0 <= i < |stack| && 0 <= j < |p|
        ensures !Captures(regs, stack[i], p[j])
      {
        if Captures(regs, stack[i], p[j]) {
          CapturedBelow(regs, stack, p, i, j);
          assert false;
        }
      }
    }
  }

  /** The chains of a freshly built token, from those of its dependencies. */
  lemma BuiltFits(regs: Registry, stack: seq<Token>, active: Option<Lifetime>, t: Token)
    requires t in regs && !regs[t].factory.throws && t !in stack
    requires active == Some(Singleton) <==> SomeSingleton(regs, stack)
    requires !(active == Some(Singleton) && regs[t].lifetime == Scoped)
    requires forall d :: d in regs[t].factory.deps ==> AllFit(regs, stack + [t], d)
    ensures AllFit(regs, stack, t)
  {
    var stack' := stack + [t];
    forall p | IsPath(regs, p) && p[0] == t
      ensures Fits(regs, stack, p)
    {
      assert Buildable(regs, t);
      if |p| > 1 {
        var q := p[1..];
        PathSlice(regs, p, 1, |p|);
        assert Edge(regs, p[0], p[1]);
        assert Fits(regs, stack', q);
        assert forall j :: 0 <= j < |q| ==> p[j + 1] == q[j];
        assert forall i :: 0 <= i < |stack| ==> stack'[i] == stack[i];
        assert stack'[|stack|] == t;
        forall j | 0 <= j < |p|
          ensures Buildable(regs, p[j])
          ensures j > 0 ==> p[j] != t && !Captures(regs, t, p[j])
          ensures forall i :: 0 <= i < |stack| ==> stack[i] != p[j] && !Captures(regs, stack[i], p[j])
        {
          if j > 0 {
            assert p[j] == q[j - 1];
          } else {
            NotCaptured(regs, stack, active, t);
          }
        }
        forall i, j | 0 <= i < j < |p|
          ensures p[i] != p[j] && !Captures(regs, p[i], p[j])
        {
          if i > 0 {
            assert p[i] == q[i - 1] && p[j] == q[j - 1];
          }
        }
      } else {
        NotCaptured(regs, stack, active, t);
      }
    }
  }

  lemma NotCaptured(regs: Registry, stack: seq<Token>, active: Option<Lifetime>, t: Token)
    requires t in regs && !(active == Some(Singleton) && regs[t].lifetime == Scoped)
    requires active == Some(Singleton) <==> SomeSingleton(regs, stack)
    ensures forall i :: 0 <= i < |stack| ==> !Captures(regs, stack[i], t)
  {
    forall i | 0 <= i < |stack|
      ensures !Captures(regs, stack[i], t)
    {
      if Captures(regs, stack[i], t) {
        assert SomeSingleton(regs, stack);
      }
    }
  }

  lemma AdoptShape(w: World, s: nat, o: Instance)
    requires s < |w.scopes|
    ensures var w' := Adopt(w, s, o);
      && w'.singletons == (if o.lifetime == Singleton then w.singletons[o.token := o] else w.singletons)
      && w'.scopes[s].scoped ==
        (if o.lifetime == Scoped then w.scopes[s].scoped[o.token := o] else w.scopes[s].scoped)
  {
  }

  /** The cached scoped instances matter only outside singletons: inside one, a scoped token is refused. */
  lemma {:induction false} SuccessIsWellFormed(
    regs: Registry, w: World, s: nat, stack: seq<Token>, active: Option<Lifetime>, t: Token)
    requires s < |w.scopes| && Elements(stack) <= regs.Keys
    requires SingletonsSound(regs, w) && IsPath(regs, stack + [t])
    requires active == Some(Singleton) <==> SomeSingleton(regs, stack)
    ensures var (w', r) := Resolve(regs, w, s, stack, active, t);
      && SingletonsSound(regs, w')
      && (ScopedSound(regs, w, s) ==> ScopedSound(regs, w', s))
      && (r.Resolved? && (ScopedSound(regs, w, s) || (t in regs && Activate(regs, t, active) == Some(Singleton))) ==>
        AllFit(regs, stack, t))
    decreases regs.Keys - Elements(stack), 1, 0
  {
    if && !w.scopes[s].disposed && t in regs && t !in stack
       && !(active == Some(Singleton) && regs[t].lifetime == Scoped) {
      var sound := ScopedSound(regs, w, s) || Activate(regs, t, active) == Some(Singleton);
      if Cached(regs, w, s, t).Some? {
        if sound {
          CachedFits(regs, stack, active, t);
        }
      } else {
        var path := stack + [t];
        assert t in Elements(path) && t !in Elements(stack);
        assert Elements(path) == Elements(stack) + {t};
        ActivateKeeps(regs, stack, active, t);
        DependenciesExtend(regs, stack, t);
        SuccessInList(regs, w, s, path, Activate(regs, t, active), regs[t].factory.deps);
        var (w', r) := Construct(regs, w, s, stack, active, t);
        if r.Resolved? {
          AdoptShape(w', s, r.instance);
          if sound {
            BuiltFits(regs, stack, active, t);
          }
        }
      }
    }
  }

  lemma {:induction false} SuccessInList(
    regs: Registry, w: World, s: nat, stack: seq<Token>, active: Option<Lifetime>, ts: seq<Token>)
    requires s < |w.scopes| && Elements(stack) <= regs.Keys && SingletonsSound(regs, w)
    requires forall d :: d in ts ==> IsPath(regs, stack + [d])
    requires active == Some(Singleton) <==> SomeSingleton(regs, stack)
    ensures var (w', r) := ResolveAll(regs, w, s, stack, active, ts);
      && SingletonsSound(regs, w')
      && (ScopedSound(regs, w, s) ==> ScopedSound(regs, w', s))
      && (r.AllResolved? && (ScopedSound(regs, w, s) || active == Some(Singleton)) ==>
        forall d :: d in ts ==> AllFit(regs, stack, d))
    decreases regs.Keys - Elements(stack), 2, |ts|
  {
    if ts != [] {
      SuccessIsWellFormed(regs, w, s, stack, active, ts[0]);
      var (w', first) := Resolve(regs, w, s, stack, active, ts[0]);
      if first.Resolved? {
        SuccessInList(regs, w', s, stack, active, ts[1..]);
      }
    }
  }

  // ---- The main theorem -----------------------------------------------------

  /** Resolving `t` from outside any factory, as `ContainerScope.resolve` does. */
  predicate Succeeds(regs: Registry, w: World, s: nat, t: Token)
    requires s < |w.scopes|
  {
    Resolve(regs, w, s, [], None, t).1.Resolved?
  }

  lemma SucceedsOnlyIfWellFormed(regs: Registry, w: World, s: nat, t: Token)
    requires s < |w.scopes| && SingletonsSound(regs, w) && ScopedSound(regs, w, s)
    requires Succeeds(regs, w, s, t)
    ensures WellFormed(regs, t)
  {
    assert [] + [t] == [t];
    SuccessIsWellFormed(regs, w, s, [], None, t);
  }

  lemma {:induction false} FailsOnlyIfIllFormed(regs: Registry, w: World, s: nat, t: Token)
    requires s < |w.scopes| && !w.scopes[s].disposed && !Succeeds(regs, w, s, t)
    ensures Explains(regs, Resolve(regs, w, s, [], None, t).1.error)
    ensures !WellFormed(regs, t)
  {
    assert [] + [t] == [t];
    FailureIsExplained(regs, w, s, [], None, t);
    var e := Resolve(regs, w, s, [], None, t).1.error;
    ExplainedIsUnclean(regs, e);
    assert ErrorPath(e)[0] == t;
  }

  lemma ResolvesExactlyTheWellFormed(regs: Registry, w: World, s: nat, t: Token)
    requires s < |w.scopes| && !w.scopes[s].disposed
    requires SingletonsSound(regs, w) && ScopedSound(regs, w, s)
    ensures Succeeds(regs, w, s, t) <==> WellFormed(regs, t)
  {
    if Succeeds(regs, w, s, t) {
      SucceedsOnlyIfWellFormed(regs, w, s, t);
    } else {
      FailsOnlyIfIllFormed(regs, w, s, t);
    }
  }

  /**
    The exact limit of that theorem: it holds at a scope for every token if and
    only if what the scope has cached is itself still well formed.
   */
  lemma ExactIffCacheSound(regs: Registry, w: World, s: nat)
    requires s < |w.scopes| && !w.scopes[s].disposed && SingletonsSound(regs, w)
    ensures (forall t :: Succeeds(regs, w, s, t) <==> WellFormed(regs, t)) <==> ScopedSound(regs, w, s)
  {
    if ScopedSound(regs, w, s) {
      forall t
        ensures Succeeds(regs, w, s, t) <==> WellFormed(regs, t)
      {
        ResolvesExactlyTheWellFormed(regs, w, s, t);
      }
    } else {
      var t :| t in w.scopes[s].scoped && t in regs && regs[t].lifetime == Scoped && !WellFormed(regs, t);
      assert Succeeds(regs, w, s, t);
    }
  }
}
