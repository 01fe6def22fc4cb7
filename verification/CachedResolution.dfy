/**
  What resolves through a scope that may have outlived its registrations: a scoped token
  the scope has cached is handed out as it is, so only the chains down to such tokens count.
 */
module CachedResolution {
  import opened Wrappers
  import opened Tokens
  import opened DependencyGraph
  import opened Resolver
  import opened Exactness
  import opened ContainerHistory

  /** The registrations with nothing below the cached scoped tokens: every chain is cut there. */
  function CutAt(regs: Registry, scoped: map<Token, Instance>): Registry {
    map t | t in regs ::
      if regs[t].lifetime == Scoped && t in scoped then
        Registration(Scoped, Factory([], regs[t].factory.disposable, false))
      else regs[t]
  }

  lemma CutKeepsKeys(regs: Registry, scoped: map<Token, Instance>)
    ensures CutAt(regs, scoped).Keys == regs.Keys
  {
  }

  /** Cutting chains spoils nothing. */
  lemma CutKeepsWellFormed(regs: Registry, scoped: map<Token, Instance>, t: Token)
    requires WellFormed(regs, t)
    ensures WellFormed(CutAt(regs, scoped), t)
  {
    var cut := CutAt(regs, scoped);
    forall p | IsPath(cut, p) && p[0] == t
      ensures Clean(cut, p)
    {
      forall i, j | 0 <= i && j == i + 1 && j < |p|
        ensures Edge(regs, p[i], p[j])
      {
        assert Edge(cut, p[i], p[j]);
      }
      assert IsPath(regs, p) && Clean(regs, p);
      assert forall i :: 0 <= i < |p| ==> Buildable(regs, p[i]);
    }
  }

  lemma CutTokenIsWellFormed(regs: Registry, scoped: map<Token, Instance>, t: Token)
    requires t in regs && regs[t].lifetime == Scoped && t in scoped
    ensures WellFormed(CutAt(regs, scoped), t)
  {
    var cut := CutAt(regs, scoped);
    forall p | IsPath(cut, p) && p[0] == t
      ensures Clean(cut, p)
    {
      assert |p| > 1 ==> Edge(cut, p[0], p[1]);
    }
  }

  /** Scope `s` has everything cached that it had cached when the chains were cut. */
  ghost predicate StillCached(scoped: map<Token, Instance>, w: World, s: nat)
    requires s < |w.scopes|
  {
    scoped.Keys <= w.scopes[s].scoped.Keys
  }

  /** The factories of cached scoped tokens are never run, so a resolve does not notice the cut. */
  lemma {:induction false} ResolveIgnoresCut(
    regs: Registry, scoped: map<Token, Instance>, w: World, s: nat, stack: seq<Token>, active: Option<Lifetime>,
    t: Token)
    requires s < |w.scopes| && Elements(stack) <= regs.Keys == CutAt(regs, scoped).Keys && StillCached(scoped, w, s)
    ensures var r := Resolve(regs, w, s, stack, active, t);
      Resolve(CutAt(regs, scoped), w, s, stack, active, t) == r && StillCached(scoped, r.0, s)
    decreases regs.Keys - Elements(stack), 1, 0
  {
    if && !w.scopes[s].disposed && t in regs && t !in stack
       && !(active == Some(Singleton) && regs[t].lifetime == Scoped) {
      if Cached(regs, w, s, t) == None {
        ConstructIgnoresCut(regs, scoped, w, s, stack, active, t);
      }
    }
  }

  lemma {:induction false} ConstructIgnoresCut(
    regs: Registry, scoped: map<Token, Instance>, w: World, s: nat, stack: seq<Token>, active: Option<Lifetime>,
    t: Token)
    requires s < |w.scopes| && Elements(stack) <= regs.Keys == CutAt(regs, scoped).Keys && StillCached(scoped, w, s)
    requires t in regs && t !in stack && Cached(regs, w, s, t) == None
    ensures var (w', r) := Construct(regs, w, s, stack, active, t);
      && Construct(CutAt(regs, scoped), w, s, stack, active, t) == (w', r)
      && StillCached(scoped, if r.Resolved? then Adopt(w', s, r.instance) else w', s)
    decreases regs.Keys - Elements(stack), 0, 0
  {
    var stack' := stack + [t];
    assert t in Elements(stack') && t !in Elements(stack);
    assert Elements(stack') == Elements(stack) + {t};
    assert CutAt(regs, scoped)[t] == regs[t];
    ListIgnoresCut(regs, scoped, w, s, stack', Activate(regs, t, active), regs[t].factory.deps);
  }

  lemma {:induction false} ListIgnoresCut(
    regs: Registry, scoped: map<Token, Instance>, w: World, s: nat, stack: seq<Token>, active: Option<Lifetime>,
    ts: seq<Token>)
    requires s < |w.scopes| && Elements(stack) <= regs.Keys == CutAt(regs, scoped).Keys && StillCached(scoped, w, s)
    ensures var r := ResolveAll(regs, w, s, stack, active, ts);
      ResolveAll(CutAt(regs, scoped), w, s, stack, active, ts) == r && StillCached(scoped, r.0, s)
    decreases regs.Keys - Elements(stack), 2, |ts|
  {
    if ts != [] {
      ResolveIgnoresCut(regs, scoped, w, s, stack, active, ts[0]);
      var (w', first) := Resolve(regs, w, s, stack, active, ts[0]);
      if first.Resolved? {
        ListIgnoresCut(regs, scoped, w', s, stack, active, ts[1..]);
      }
    }
  }

  /** A resolve through an open scope succeeds exactly if every chain, cut at what the scope has cached, is clean. */
  lemma ResolvesExactlyTheCut(regs: Registry, w: World, s: nat, t: Token)
    requires s < |w.scopes| && !w.scopes[s].disposed && SingletonsSound(regs, w)
    ensures Succeeds(regs, w, s, t) <==> WellFormed(CutAt(regs, w.scopes[s].scoped), t)
  {
    var scoped := w.scopes[s].scoped;
    var cut := CutAt(regs, scoped);
    CutKeepsKeys(regs, scoped);
    ResolveIgnoresCut(regs, scoped, w, s, [], None, t);
    forall u | u in w.singletons && u in cut && cut[u].lifetime == Singleton
      ensures WellFormed(cut, u)
    {
      CutKeepsWellFormed(regs, scoped, u);
    }
    forall u | u in scoped && u in cut && cut[u].lifetime == Scoped
      ensures WellFormed(cut, u)
    {
      CutTokenIsWellFormed(regs, scoped, u);
    }
    ResolvesExactlyTheWellFormed(cut, w, s, t);
  }

  /** In any run at all, token by token, also where the scope has outlived the container or its registrations. */
  lemma CutResolutionIsExact(ops: seq<Op>, s: nat, t: Token)
    requires var h := Run(ops); s < |h.w.scopes| && !h.w.scopes[s].disposed
    ensures var h := Run(ops);
      Succeeds(h.regs, h.w, s, t) <==> WellFormed(CutAt(h.regs, h.w.scopes[s].scoped), t)
  {
    RunKeepsInvariant(ops);
    var h := Run(ops);
    ResolvesExactlyTheCut(h.regs, h.w, s, t);
  }
}
