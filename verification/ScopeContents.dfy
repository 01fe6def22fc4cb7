/**
  What a scope ends up caching: exactly the scoped tokens below those it has resolved.
  For the root scope this says when it comes to hold request-scoped instances.
 */
module ScopeContents {
  import opened Wrappers
  import opened Tokens
  import opened DependencyGraph
  import opened Resolver
  import opened Exactness
  import opened ContainerHistory
  import opened ContainerGuarantees

  ghost predicate Leads(regs: Registry, p: seq<Token>, t: Token, u: Token) {
    IsPath(regs, p) && p[0] == t && p[|p| - 1] == u
  }

  /** `u` is scoped and some chain of dependencies leads from `t` to it. */
  ghost predicate ScopedBelow(regs: Registry, t: Token, u: Token) {
    u in regs && regs[u].lifetime == Scoped && exists p :: Leads(regs, p, t, u)
  }

  /** Whatever is cached has everything scoped below it cached too. */
  ghost predicate Gathered(regs: Registry, scoped: map<Token, Instance>) {
    forall x, u :: x in scoped && ScopedBelow(regs, x, u) ==> u in scoped
  }

  lemma BelowItself(regs: Registry, t: Token)
    requires t in regs && regs[t].lifetime == Scoped
    ensures ScopedBelow(regs, t, t)
  {
    assert Leads(regs, [t], t, t);
  }

  lemma BelowDependency(regs: Registry, t: Token, d: Token, u: Token)
    requires Edge(regs, t, d) && ScopedBelow(regs, d, u)
    ensures ScopedBelow(regs, t, u)
  {
    var p :| Leads(regs, p, d, u);
    assert Leads(regs, [t] + p, t, u);
  }

  lemma BelowOneOf(regs: Registry, t: Token, u: Token) returns (d: Token)
    requires t in regs && t != u && ScopedBelow(regs, t, u)
    ensures d in regs[t].factory.deps && ScopedBelow(regs, d, u)
  {
    var p :| Leads(regs, p, t, u);
    d := p[1];
    assert Edge(regs, p[0], p[1]);
    PathSlice(regs, p, 1, |p|);
    assert Leads(regs, p[1..], d, u);
  }

  // ---- One resolve ------------------------------------------------------------------

  /** The scoped map of the resolving scope grows by tokens below `ts` and stays gathered. */
  ghost predicate GrowsBelow(
    regs: Registry, before: map<Token, Instance>, after: map<Token, Instance>, ts: seq<Token>)
  {
    && Gathered(regs, after) && before.Keys <= after.Keys
    && forall u :: u in after && u !in before ==> BelowSome(regs, ts, u)
  }

  ghost predicate BelowSome(regs: Registry, ts: seq<Token>, u: Token) {
    exists d :: d in ts && ScopedBelow(regs, d, u)
  }

  ghost predicate HasAllBelow(regs: Registry, scoped: map<Token, Instance>, t: Token) {
    forall u :: ScopedBelow(regs, t, u) ==> u in scoped
  }

  /** Adopting an instance whose dependencies are gathered. */
  lemma AdoptGathers(regs: Registry, before: map<Token, Instance>, w: World, s: nat, o: Instance)
    requires s < |w.scopes| && o.token in regs && o.lifetime == regs[o.token].lifetime
    requires GrowsBelow(regs, before, w.scopes[s].scoped, regs[o.token].factory.deps)
    requires forall d :: d in regs[o.token].factory.deps ==> HasAllBelow(regs, w.scopes[s].scoped, d)
    requires o.lifetime == Singleton ==> WellFormed(regs, o.token)
    ensures var after := Adopt(w, s, o).scopes[s].scoped;
      GrowsBelow(regs, before, after, [o.token]) && HasAllBelow(regs, after, o.token)
  {
    var t := o.token;
    var mid, after := w.scopes[s].scoped, Adopt(w, s, o).scopes[s].scoped;
    AdoptShape(w, s, o);
    GrowthIsBelowParent(regs, before, mid, t);
    if o.lifetime == Scoped {
      BelowItself(regs, t);
      assert t in [t];
    }
    forall u | ScopedBelow(regs, t, u)
      ensures u in after
    {
      if u != t {
        var d := BelowOneOf(regs, t, u);
        assert HasAllBelow(regs, mid, d);
      }
    }
  }

  lemma GrowthIsBelowParent(regs: Registry, before: map<Token, Instance>, after: map<Token, Instance>, t: Token)
    requires t in regs && GrowsBelow(regs, before, after, regs[t].factory.deps)
    ensures GrowsBelow(regs, before, after, [t])
  {
    forall u | u in after && u !in before
      ensures BelowSome(regs, [t], u)
    {
      var d :| d in regs[t].factory.deps && ScopedBelow(regs, d, u);
      BelowDependency(regs, t, d, u);
      assert t in [t];
    }
  }

  lemma {:induction false} ResolveGathers(
    regs: Registry, w: World, s: nat, stack: seq<Token>, active: Option<Lifetime>, t: Token)
    requires s < |w.scopes| && Elements(stack) <= regs.Keys
    requires SingletonsSound(regs, w) && ScopedSound(regs, w, s) && IsPath(regs, stack + [t])
    requires active == Some(Singleton) <==> SomeSingleton(regs, stack)
    requires Gathered(regs, w.scopes[s].scoped)
    ensures var (w', r) := Resolve(regs, w, s, stack, active, t);
      && GrowsBelow(regs, w.scopes[s].scoped, w'.scopes[s].scoped, [t])
      && (r.Resolved? ==> HasAllBelow(regs, w'.scopes[s].scoped, t))
    decreases regs.Keys - Elements(stack), 1, 0
  {
    SuccessIsWellFormed(regs, w, s, stack, active, t);
    if && !w.scopes[s].disposed && t in regs && t !in stack
       && !(active == Some(Singleton) && regs[t].lifetime == Scoped) {
      if Cached(regs, w, s, t) == None {
        var path := stack + [t];
        assert t in Elements(path) && t !in Elements(stack);
        assert Elements(path) == Elements(stack) + {t};
        ActivateKeeps(regs, stack, active, t);
        DependenciesExtend(regs, stack, t);
        ListGathers(regs, w, s, path, Activate(regs, t, active), regs[t].factory.deps);
        var w1 := ResolveAll(regs, w, s, path, Activate(regs, t, active), regs[t].factory.deps).0;
        GrowthIsBelowParent(regs, w.scopes[s].scoped, w1.scopes[s].scoped, t);
        var (w2, built) := Construct(regs, w, s, stack, active, t);
        assert w2.scopes == w1.scopes;
        if built.Resolved? {
          AdoptGathers(regs, w.scopes[s].scoped, w2, s, built.instance);
        }
      }
    }
  }

  lemma {:induction false} ListGathers(
    regs: Registry, w: World, s: nat, stack: seq<Token>, active: Option<Lifetime>, ts: seq<Token>)
    requires s < |w.scopes| && Elements(stack) <= regs.Keys
    requires SingletonsSound(regs, w) && ScopedSound(regs, w, s)
    requires forall d :: d in ts ==> IsPath(regs, stack + [d])
    requires active == Some(Singleton) <==> SomeSingleton(regs, stack)
    requires Gathered(regs, w.scopes[s].scoped)
    ensures var (w', r) := ResolveAll(regs, w, s, stack, active, ts);
      && GrowsBelow(regs, w.scopes[s].scoped, w'.scopes[s].scoped, ts)
      && (r.AllResolved? ==> forall d :: d in ts ==> HasAllBelow(regs, w'.scopes[s].scoped, d))
    decreases regs.Keys - Elements(stack), 2, |ts|
  {
    if ts != [] {
      ResolveGathers(regs, w, s, stack, active, ts[0]);
      SuccessIsWellFormed(regs, w, s, stack, active, ts[0]);
      var (w1, first) := Resolve(regs, w, s, stack, active, ts[0]);
      assert ts == [ts[0]] + ts[1..];
      if first.Resolved? {
        ListGathers(regs, w1, s, stack, active, ts[1..]);
      }
    }
  }

  // ---- Every run ----------------------------------------------------------------------

  ghost predicate AllGathered(h: History) {
    RootOpen(h) ==> forall k :: 0 <= k < |h.w.scopes| ==> Gathered(h.regs, h.w.scopes[k].scoped)
  }

  /** A further registration puts nothing below what is cached: that was well formed already. */
  lemma RegisterKeepsGathered(regs: Registry, t: Token, r: Registration, scoped: map<Token, Instance>)
    requires t !in regs && Gathered(regs, scoped) && forall x :: x in scoped ==> WellFormed(regs, x)
    ensures Gathered(regs[t := r], scoped)
  {
    forall x, u | x in scoped && ScopedBelow(regs[t := r], x, u)
      ensures u in scoped
    {
      var p :| Leads(regs[t := r], p, x, u);
      PathSurvivesRegistration(regs, t, r, p);
      assert Clean(regs, p) && Buildable(regs, p[|p| - 1]);
      assert Leads(regs, p, x, u);
      assert ScopedBelow(regs, x, u);
    }
  }

  lemma {:induction false} ResolveKeepsGathered(h: History, s: nat, t: Token)
    requires Invariant(h) && RootOpen(h) && AllGathered(h) && s < |h.w.scopes| && !h.w.scopes[s].disposed
    ensures var (w', r) := Resolve(h.regs, h.w, s, [], None, t);
      && (forall k :: 0 <= k < |h.w.scopes| ==> Gathered(h.regs, w'.scopes[k].scoped))
      && GrowsBelow(h.regs, h.w.scopes[s].scoped, w'.scopes[s].scoped, [t])
      && (r.Resolved? ==> HasAllBelow(h.regs, w'.scopes[s].scoped, t))
  {
    assert [] + [t] == [t];
    ResolveGathers(h.regs, h.w, s, [], None, t);
    ResolveIsConfined(h.regs, h.w, s, [], None, t);
  }

  lemma {:induction false} DeliverKeepsGathered(h: History, s: nat, t: Token)
    requires Invariant(h) && AllGathered(h) && s < |h.w.scopes|
    ensures AllGathered(Deliver(h, s, Resolve(h.regs, h.w, s, [], None, t)))
  {
    var h' := Deliver(h, s, Resolve(h.regs, h.w, s, [], None, t));
    if RootOpen(h') && !h.w.scopes[s].disposed {
      ResolveFrames(h.regs, h.w, s, [], None, t);
      ResolveKeepsGathered(h, s, t);
    }
  }

  lemma RegisterStepKeepsGathered(h: History, t: Token, r: Registration)
    requires CachesRegistered(h) && AllGathered(h) && 0 < |h.w.scopes|
    ensures AllGathered(Step(h, Register(t, r)))
  {
    if t !in h.regs && RootOpen(h) {
      forall k | 0 <= k < |h.w.scopes|
        ensures Gathered(h.regs[t := r], h.w.scopes[k].scoped)
      {
        RegisterKeepsGathered(h.regs, t, r, h.w.scopes[k].scoped);
      }
    }
  }

  lemma StepKeepsGathered(h: History, op: Op)
    requires Invariant(h) && AllGathered(h) && 0 < |h.w.scopes|
    ensures AllGathered(Step(h, op))
  {
    match op
    case Register(t, r) => RegisterStepKeepsGathered(h, t, r);
    case ResolveIn(s, t) =>
      if 1 <= s < |h.w.scopes| {
        DeliverKeepsGathered(h, s, t);
      }
    case ResolveRoot(t) =>
      if !(t in h.regs && h.regs[t].lifetime == Scoped) {
        DeliverKeepsGathered(h, 0, t);
      }
    case _ =>
  }

  lemma {:induction false} RunKeepsGathered(ops: seq<Op>)
    ensures AllGathered(Run(ops))
    decreases |ops|
  {
    if ops != [] {
      var init, op := ops[..|ops| - 1], ops[|ops| - 1];
      RunKeepsGathered(init);
      RunKeepsInvariant(init);
      RunExtends(init, op);
      assert ops == init + [op];
      StepKeepsGathered(Run(init), op);
    }
  }

  /**
    A successful resolve through any open scope leaves the scope caching what it did
    before and the scoped tokens below the one resolved; nothing else, and none missing.
   */
  lemma {:induction false} ScopeCachesExactly(ops: seq<Op>, s: nat, t: Token, u: Token)
    requires var h := Run(ops);
      RootOpen(h) && s < |h.w.scopes| && !h.w.scopes[s].disposed && Succeeds(h.regs, h.w, s, t)
    ensures var h := Run(ops);
      u in Resolve(h.regs, h.w, s, [], None, t).0.scopes[s].scoped <==>
        u in h.w.scopes[s].scoped || ScopedBelow(h.regs, t, u)
  {
    RunKeepsInvariant(ops);
    RunKeepsGathered(ops);
    ResolveKeepsGathered(Run(ops), s, t);
  }

  /** A resolve from the root leaves scoped instances there exactly if a scoped token is below the one resolved. */
  lemma RootHoldsScopedIff(ops: seq<Op>, t: Token)
    requires var h := Run(ops);
      RootOpen(h) && h.w.scopes[0].scoped == map[] && RootOutcome(h.regs, h.w, t).1.Resolved?
    ensures var h := Run(ops);
      Step(h, ResolveRoot(t)).w.scopes[0].scoped != map[] <==> exists u :: ScopedBelow(h.regs, t, u)
  {
    var h := Run(ops);
    var scoped := Step(h, ResolveRoot(t)).w.scopes[0].scoped;
    assert scoped == Resolve(h.regs, h.w, 0, [], None, t).0.scopes[0].scoped;
    forall u
      ensures u in scoped <==> ScopedBelow(h.regs, t, u)
    {
      ScopeCachesExactly(ops, 0, t, u);
    }
    if scoped != map[] {
      var u :| u in scoped;
    }
  }
}
