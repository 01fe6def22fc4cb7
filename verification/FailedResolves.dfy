/**
  What a resolve leaves behind, above all one that fails: nothing a factory has returned by
  then is lost.  Dependencies are resolved in their order, so everything in front of the
  first one that cannot be had is cached, tracked or logged afterwards.
 */
module FailedResolves {
  import opened Wrappers
  import opened Tokens
  import opened DependencyGraph
  import opened Resolver
  import opened Exactness
  import opened ContainerHistory
  import opened ContainerGuarantees
  import opened ScopeContents

  /**
    The world `w'` has what a resolve of `d` through scope `s` since `w` leaves: the cached
    instance, or a transient of its own, tracked if it is disposable.
   */
  ghost predicate Kept(regs: Registry, w: World, w': World, s: nat, d: Token)
    requires s < |w'.scopes|
  {
    && d in regs
    && match regs[d].lifetime
       case Singleton => d in w'.singletons
       case Scoped => d in w'.scopes[s].scoped
       case Transient => exists i :: |w.built| <= i < |w'.built| && IsTransientOf(regs, w', s, d, w'.built[i])
  }

  ghost predicate IsTransientOf(regs: Registry, w: World, s: nat, d: Token, o: Instance)
    requires d in regs && s < |w.scopes|
  {
    && o.token == d && o.lifetime == Transient && o.scope == s && o.disposable == regs[d].factory.disposable
    && (o.disposable ==> o in w.scopes[s].tracked)
  }

  /** Caches, tracking and log lose nothing. */
  ghost predicate OnlyGrows(w: World, w': World, s: nat) {
    && |w'.scopes| == |w.scopes| && w.built <= w'.built && w.singletons.Keys <= w'.singletons.Keys
    && (s < |w.scopes| ==>
      && w'.scopes[s].disposed == w.scopes[s].disposed
      && w.scopes[s].scoped.Keys <= w'.scopes[s].scoped.Keys
      && forall o :: o in w.scopes[s].tracked ==> o in w'.scopes[s].tracked)
  }

  lemma KeptStays(regs: Registry, w: World, w1: World, w2: World, s: nat, d: Token)
    requires s < |w1.scopes| && Kept(regs, w, w1, s, d) && OnlyGrows(w1, w2, s)
    ensures Kept(regs, w, w2, s, d)
  {
    if regs[d].lifetime == Transient {
      var i :| |w.built| <= i < |w1.built| && IsTransientOf(regs, w1, s, d, w1.built[i]);
      assert w2.built[i] == w1.built[i] && IsTransientOf(regs, w2, s, d, w2.built[i]);
    }
  }

  lemma KeptSinceEarlier(regs: Registry, w: World, w1: World, w2: World, s: nat, d: Token)
    requires s < |w2.scopes| && Kept(regs, w1, w2, s, d) && |w.built| <= |w1.built|
    ensures Kept(regs, w, w2, s, d)
  {
  }

  lemma AdoptGrows(w: World, s: nat, o: Instance)
    requires s < |w.scopes|
    ensures OnlyGrows(w, Adopt(w, s, o), s)
  {
  }

  // ---- Along the chain an error reports ---------------------------------------------

  /**
    For every factory on the chain: what it resolved in front of the token that failed is
    kept; a factory that threw itself had resolved everything.
   */
  ghost predicate FrontsKept(regs: Registry, w: World, w': World, s: nat, e: Error, from: nat)
    requires s < |w'.scopes|
  {
    var p := ErrorPath(e);
    && (forall i :: from <= i < |p| - 1 ==> FrontKept(regs, w, w', s, p[i], p[i + 1]))
    && (e.FactoryThrew? && p != [] && p[|p| - 1] in regs ==>
      forall d :: d in regs[p[|p| - 1]].factory.deps ==> Kept(regs, w, w', s, d))
  }

  /** `u`'s factory failed at one of its dependencies on `v`, and everything in front of that is kept. */
  ghost predicate FrontKept(regs: Registry, w: World, w': World, s: nat, u: Token, v: Token)
    requires s < |w'.scopes|
  {
    u in regs && exists k :: FailedAt(regs, w, w', s, regs[u].factory.deps, k, v)
  }

  ghost predicate FailedAt(regs: Registry, w: World, w': World, s: nat, ts: seq<Token>, k: int, v: Token)
    requires s < |w'.scopes|
  {
    0 <= k < |ts| && ts[k] == v && forall j :: 0 <= j < k ==> Kept(regs, w, w', s, ts[j])
  }

  lemma FrontsSinceEarlier(regs: Registry, w: World, w1: World, w2: World, s: nat, e: Error, from: nat)
    requires s < |w2.scopes| && FrontsKept(regs, w1, w2, s, e, from) && |w.built| <= |w1.built|
    ensures FrontsKept(regs, w, w2, s, e, from)
  {
    var p := ErrorPath(e);
    forall i | from <= i < |p| - 1
      ensures FrontKept(regs, w, w2, s, p[i], p[i + 1])
    {
      assert FrontKept(regs, w1, w2, s, p[i], p[i + 1]);
      var k :| FailedAt(regs, w1, w2, s, regs[p[i]].factory.deps, k, p[i + 1]);
      assert FailedAt(regs, w, w2, s, regs[p[i]].factory.deps, k, p[i + 1]);
    }
    forall d | Kept(regs, w1, w2, s, d)
      ensures Kept(regs, w, w2, s, d)
    {
      KeptSinceEarlier(regs, w, w1, w2, s, d);
    }
  }

  lemma {:induction false} ResolveKeepsFronts(
    regs: Registry, w: World, s: nat, stack: seq<Token>, active: Option<Lifetime>, t: Token)
    requires s < |w.scopes| && !w.scopes[s].disposed && Elements(stack) <= regs.Keys
    ensures var (w', r) := Resolve(regs, w, s, stack, active, t);
      && OnlyGrows(w, w', s)
      && (r.Resolved? ==> Kept(regs, w, w', s, t))
      && (r.Failed? ==> stack + [t] <= ErrorPath(r.error) && FrontsKept(regs, w, w', s, r.error, |stack|))
    decreases regs.Keys - Elements(stack), 1, 0
  {
    if && t in regs && t !in stack
       && !(active == Some(Singleton) && regs[t].lifetime == Scoped) {
      if Cached(regs, w, s, t) == None {
        ConstructKeepsFronts(regs, w, s, stack, active, t);
      }
    }
  }

  lemma {:induction false} ConstructKeepsFronts(
    regs: Registry, w: World, s: nat, stack: seq<Token>, active: Option<Lifetime>, t: Token)
    requires s < |w.scopes| && !w.scopes[s].disposed && Elements(stack) <= regs.Keys
    requires t in regs && t !in stack && Cached(regs, w, s, t) == None
    ensures var (w', r) := Construct(regs, w, s, stack, active, t);
      var w'' := if r.Resolved? then Adopt(w', s, r.instance) else w';
      && OnlyGrows(w, w'', s)
      && (r.Resolved? ==> Kept(regs, w, w'', s, t))
      && (r.Resolved? ==> forall d :: d in regs[t].factory.deps ==> Kept(regs, w, w'', s, d))
      && (r.Failed? ==> stack + [t] <= ErrorPath(r.error) && FrontsKept(regs, w, w'', s, r.error, |stack|))
    decreases regs.Keys - Elements(stack), 0, 0
  {
    var stack' := stack + [t];
    assert t in Elements(stack') && t !in Elements(stack);
    assert Elements(stack') == Elements(stack) + {t};
    var active' := Activate(regs, t, active);
    var f := regs[t].factory;
    ListKeepsFronts(regs, w, s, stack', active', f.deps);
    var (w', parts) := ResolveAll(regs, w, s, stack', active', f.deps);
    if parts.SomeFailed? {
      var k :| FailedAt(regs, w, w', s, f.deps, k, ErrorPath(parts.error)[|stack'|]);
      assert FrontKept(regs, w, w', s, t, ErrorPath(parts.error)[|stack'|]);
    } else if !f.throws {
      var o := Instance(|w'.built|, t, regs[t].lifetime, s, f.disposable, parts.instances);
      var w1 := w'.(built := w'.built + [o]);
      AdoptGrows(w1, s, o);
      assert OnlyGrows(w', w1, s);
      OwnIsKept(regs, w, w', s, o);
      forall d | d in f.deps
        ensures Kept(regs, w, Adopt(w1, s, o), s, d)
      {
        KeptStays(regs, w, w', w1, s, d);
        KeptStays(regs, w, w1, Adopt(w1, s, o), s, d);
      }
    }
  }

  lemma OwnIsKept(regs: Registry, w: World, w': World, s: nat, o: Instance)
    requires s < |w'.scopes| && |w.built| <= |w'.built| && o.token in regs && o.scope == s
    requires o.lifetime == regs[o.token].lifetime && o.disposable == regs[o.token].factory.disposable
    ensures Kept(regs, w, Adopt(w'.(built := w'.built + [o]), s, o), s, o.token)
  {
    var w'' := Adopt(w'.(built := w'.built + [o]), s, o);
    assert w''.built[|w'.built|] == o;
    if o.lifetime == Transient {
      assert IsTransientOf(regs, w'', s, o.token, w''.built[|w'.built|]);
    }
  }

  lemma {:induction false} ListKeepsFronts(
    regs: Registry, w: World, s: nat, stack: seq<Token>, active: Option<Lifetime>, ts: seq<Token>)
    requires s < |w.scopes| && !w.scopes[s].disposed && Elements(stack) <= regs.Keys
    ensures var (w', r) := ResolveAll(regs, w, s, stack, active, ts);
      && OnlyGrows(w, w', s)
      && (r.AllResolved? ==> forall d :: d in ts ==> Kept(regs, w, w', s, d))
      && (r.SomeFailed? ==>
        && |stack| < |ErrorPath(r.error)| && stack <= ErrorPath(r.error)
        && FrontsKept(regs, w, w', s, r.error, |stack|)
        && exists k :: FailedAt(regs, w, w', s, ts, k, ErrorPath(r.error)[|stack|]))
    decreases regs.Keys - Elements(stack), 2, |ts|
  {
    if ts != [] {
      ResolveKeepsFronts(regs, w, s, stack, active, ts[0]);
      var (w1, first) := Resolve(regs, w, s, stack, active, ts[0]);
      if first.Resolved? {
        ListKeepsFronts(regs, w1, s, stack, active, ts[1..]);
        ConsKeepsFronts(regs, w, s, stack, active, ts);
      } else {
        assert FailedAt(regs, w, w1, s, ts, 0, ErrorPath(first.error)[|stack|]);
      }
    }
  }

  /** The step of the list: what the first one left stays, and what the others keep is kept since before. */
  lemma {:induction false} ConsKeepsFronts(
    regs: Registry, w: World, s: nat, stack: seq<Token>, active: Option<Lifetime>, ts: seq<Token>)
    requires s < |w.scopes| && Elements(stack) <= regs.Keys && ts != []
    requires var (w1, first) := Resolve(regs, w, s, stack, active, ts[0]);
      && first.Resolved? && OnlyGrows(w, w1, s) && Kept(regs, w, w1, s, ts[0])
      && var (w2, r) := ResolveAll(regs, w1, s, stack, active, ts[1..]);
         && OnlyGrows(w1, w2, s)
         && (r.AllResolved? ==> forall d :: d in ts[1..] ==> Kept(regs, w1, w2, s, d))
         && (r.SomeFailed? ==>
           && |stack| < |ErrorPath(r.error)| && FrontsKept(regs, w1, w2, s, r.error, |stack|)
           && exists k :: FailedAt(regs, w1, w2, s, ts[1..], k, ErrorPath(r.error)[|stack|]))
    ensures var w1 := Resolve(regs, w, s, stack, active, ts[0]).0;
      var (w2, r) := ResolveAll(regs, w1, s, stack, active, ts[1..]);
      && OnlyGrows(w, w2, s)
      && (r.AllResolved? ==> forall d :: d in ts ==> Kept(regs, w, w2, s, d))
      && (r.SomeFailed? ==>
        && FrontsKept(regs, w, w2, s, r.error, |stack|)
        && exists k :: FailedAt(regs, w, w2, s, ts, k, ErrorPath(r.error)[|stack|]))
  {
    var w1 := Resolve(regs, w, s, stack, active, ts[0]).0;
    var (w2, r) := ResolveAll(regs, w1, s, stack, active, ts[1..]);
    KeptStays(regs, w, w1, w2, s, ts[0]);
    forall d | Kept(regs, w1, w2, s, d)
      ensures Kept(regs, w, w2, s, d)
    {
      KeptSinceEarlier(regs, w, w1, w2, s, d);
    }
    assert ts == [ts[0]] + ts[1..];
    if r.SomeFailed? {
      FrontsSinceEarlier(regs, w, w1, w2, s, r.error, |stack|);
      var v := ErrorPath(r.error)[|stack|];
      var k :| FailedAt(regs, w1, w2, s, ts[1..], k, v);
      forall j | 0 <= j < k + 1
        ensures Kept(regs, w, w2, s, ts[j])
      {
        assert j > 0 ==> ts[j] == ts[1..][j - 1] && Kept(regs, w1, w2, s, ts[1..][j - 1]);
      }
      assert FailedAt(regs, w, w2, s, ts, k + 1, v);
    }
  }

  // ---- In every run --------------------------------------------------------------------

  /** The operation that resolves `t` through scope `s`; the root scope is asked through the container. */
  function ResolveOp(s: nat, t: Token): Op {
    if s == 0 then ResolveRoot(t) else ResolveIn(s, t)
  }

  /** The scope is open and its resolves of `t` reach the resolution algorithm. */
  ghost predicate Reaches(h: History, s: nat, t: Token) {
    && s < |h.w.scopes| && !h.w.scopes[s].disposed
    && (s == 0 ==> !(t in h.regs && h.regs[t].lifetime == Scoped))
  }

  lemma {:induction false} ResolveOpRuns(ops: seq<Op>, s: nat, t: Token)
    requires Reaches(Run(ops), s, t)
    ensures var h := Run(ops);
      Run(ops + [ResolveOp(s, t)]).w == Resolve(h.regs, h.w, s, [], None, t).0
  {
    RunExtends(ops, ResolveOp(s, t));
  }

  /**
    In every run, a resolve that fails through an open scope keeps, for every factory on the
    chain it reports, what that factory had resolved in front of the failure.
   */
  lemma {:induction false} FailedResolveKeepsFronts(ops: seq<Op>, s: nat, t: Token)
    requires Reaches(Run(ops), s, t) && !Succeeds(Run(ops).regs, Run(ops).w, s, t)
    ensures var (h, h') := (Run(ops), Run(ops + [ResolveOp(s, t)]));
      var e := Resolve(h.regs, h.w, s, [], None, t).1.error;
      OnlyGrows(h.w, h'.w, s) && FrontsKept(h.regs, h.w, h'.w, s, e, 0)
  {
    var h := Run(ops);
    ResolveKeepsFronts(h.regs, h.w, s, [], None, t);
    ResolveOpRuns(ops, s, t);
  }

  // ---- By the registrations alone -----------------------------------------------------

  /** `d` can be had below `t`: it is well formed, and nothing below a singleton is scoped. */
  ghost predicate Obtainable(regs: Registry, t: Token, d: Token) {
    && WellFormed(regs, d)
    && (t in regs && regs[t].lifetime == Singleton ==> forall u :: !ScopedBelow(regs, d, u))
  }

  /** No error names a dependency that can be had as the one behind `t`. */
  lemma ErrorsSpareTheObtainable(regs: Registry, t: Token, e: Error)
    requires Explains(regs, e) && |ErrorPath(e)| >= 2 && ErrorPath(e)[0] == t
    ensures !Obtainable(regs, t, ErrorPath(e)[1])
  {
    var p := ErrorPath(e);
    PathSlice(regs, p, 1, |p|);
    var q := p[1..];
    assert q[|q| - 1] == p[|p| - 1];
    if e.Circular? {
      CycleThroughHead(regs, p);
    } else if e.Captive? {
      CapturedChain(regs, p);
    } else {
      assert !Clean(regs, q);
    }
  }

  /** A singleton captures the end of a chain: it is the head, or the rest of the chain is unclean. */
  lemma CapturedChain(regs: Registry, p: seq<Token>)
    requires IsPath(regs, p) && |p| >= 2 && exists i :: 0 <= i < |p| - 1 && Captures(regs, p[i], p[|p| - 1])
    ensures !Obtainable(regs, p[0], p[1])
  {
    var n := |p| - 1;
    PathSlice(regs, p, 1, |p|);
    var q := p[1..];
    var i :| 0 <= i < n && Captures(regs, p[i], p[n]);
    if i > 0 {
      assert Captures(regs, q[i - 1], q[n - 1]) && !Clean(regs, q);
    } else {
      assert Leads(regs, q, p[1], p[n]);
      assert ScopedBelow(regs, p[1], p[n]);
    }
  }

  /** A chain that comes back to where it has been is not clean behind its head. */
  lemma CycleThroughHead(regs: Registry, p: seq<Token>)
    requires IsPath(regs, p) && |p| >= 2 && p[|p| - 1] in p[..|p| - 1]
    ensures !WellFormed(regs, p[1])
  {
    var n := |p| - 1;
    var i :| 0 <= i < n && p[..n][i] == p[n];
    if i > 0 {
      PathSlice(regs, p, 1, |p|);
      assert p[1..][i - 1] == p[1..][n - 1];
    } else {
      var round := p[1..] + [p[1]];
      forall a, b | 0 <= a && b == a + 1 && b < |round|
        ensures Edge(regs, round[a], round[b])
      {
        assert Edge(regs, p[0], p[1]);
        assert b < n ==> Edge(regs, p[a + 1], p[b + 1]);
      }
      assert IsPath(regs, round) && round[0] == round[n];
      assert !Clean(regs, round);
    }
  }

  /** What a resolve that fails with `e` leaves of the dependencies of `t`. */
  lemma FrontsOfHead(regs: Registry, w: World, w': World, s: nat, t: Token, e: Error, i: nat)
    requires s < |w'.scopes| && t in regs && i < |regs[t].factory.deps|
    requires Explains(regs, e) && ErrorPath(e)[0] == t && FrontsKept(regs, w, w', s, e, 0)
    requires forall j :: 0 <= j <= i ==> Obtainable(regs, t, regs[t].factory.deps[j])
    ensures Kept(regs, w, w', s, regs[t].factory.deps[i])
  {
    var deps := regs[t].factory.deps;
    var p := ErrorPath(e);
    if |p| >= 2 {
      assert FrontKept(regs, w, w', s, p[0], p[1]);
      var k :| FailedAt(regs, w, w', s, deps, k, p[1]);
      ErrorsSpareTheObtainable(regs, t, e);
      assert k > i;
    } else {
      assert deps[i] in deps;
    }
  }

  /**
    In every run and whatever the outcome: if a token that is not cached is resolved through
    an open scope, all its dependencies in front of the first that cannot be had are cached,
    tracked and logged afterwards.
   */
  lemma FrontDependenciesStay(ops: seq<Op>, s: nat, t: Token, i: nat)
    requires var h := Run(ops);
      && Reaches(h, s, t) && t in h.regs && Cached(h.regs, h.w, s, t) == None
      && i < |h.regs[t].factory.deps|
      && forall j :: 0 <= j <= i ==> Obtainable(h.regs, t, h.regs[t].factory.deps[j])
    ensures var (h, h') := (Run(ops), Run(ops + [ResolveOp(s, t)]));
      |h'.w.scopes| == |h.w.scopes| && Kept(h.regs, h.w, h'.w, s, h.regs[t].factory.deps[i])
  {
    var h := Run(ops);
    var r := Resolve(h.regs, h.w, s, [], None, t).1;
    ResolveOpRuns(ops, s, t);
    if r.Failed? {
      ResolveKeepsFronts(h.regs, h.w, s, [], None, t);
      ReportedPathsAreReal(ops, s, t);
      FrontsOfHead(h.regs, h.w, Resolve(h.regs, h.w, s, [], None, t).0, s, t, r.error, i);
    } else {
      ConstructKeepsFronts(h.regs, h.w, s, [], None, t);
      assert h.regs[t].factory.deps[i] in h.regs[t].factory.deps;
    }
  }
}
