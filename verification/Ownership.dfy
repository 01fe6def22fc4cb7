/**
  What every resolve keeps true of the caches and the tracking lists: a singleton
  is built once, a scoped service once per scope, and each open scope tracks
  exactly the disposable instances it owns, in the order they were completed.
 */
module Ownership {
  import opened Wrappers
  import opened Tokens
  import opened DependencyGraph
  import opened Resolver
  import opened Exactness

  ghost predicate Logged(built: seq<Instance>, o: Instance) {
    o.id < |built| && built[o.id] == o
  }

  ghost predicate PartsLogged(built: seq<Instance>, o: Instance) {
    forall p :: p in o.parts ==> p.id < o.id && Logged(built, p)
  }

  /** An instance's identity is its position in the log, after all of its parts. */
  ghost predicate LogValid(w: World) {
    forall i :: 0 <= i < |w.built| ==>
      var o := w.built[i];
      o.id == i && o.scope < |w.scopes| && PartsLogged(w.built, o)
  }

  /** Every cached instance is cached under its token, in the cache of its lifetime and scope. */
  ghost predicate CachesAtHome(w: World) {
    && (forall t :: t in w.singletons ==> w.singletons[t].token == t && w.singletons[t].lifetime == Singleton)
    && (forall k, t :: 0 <= k < |w.scopes| && t in w.scopes[k].scoped ==>
      var o := w.scopes[k].scoped[t];
      o.token == t && o.lifetime == Scoped && o.scope == k)
  }

  ghost predicate CachesValid(w: World) {
    && CachesAtHome(w)
    && (forall t :: t in w.singletons ==> Logged(w.built, w.singletons[t]))
    && (forall k, t :: 0 <= k < |w.scopes| && t in w.scopes[k].scoped ==> Logged(w.built, w.scopes[k].scoped[t]))
  }

  /** Singletons completed since position `epoch`, and scoped instances of open scopes, are the cached ones. */
  ghost predicate BuiltIsCached(w: World, epoch: nat) {
    && (forall t :: t in w.singletons ==> epoch <= w.singletons[t].id)
    && (forall i :: epoch <= i < |w.built| && w.built[i].lifetime == Singleton ==>
      var o := w.built[i];
      o.token in w.singletons && w.singletons[o.token] == o)
    && (forall i :: 0 <= i < |w.built| && LiveScoped(w, w.built[i]) ==>
      var o := w.built[i];
      o.token in w.scopes[o.scope].scoped && w.scopes[o.scope].scoped[o.token] == o)
  }

  ghost predicate LiveScoped(w: World, o: Instance) {
    o.lifetime == Scoped && o.scope < |w.scopes| && !w.scopes[o.scope].disposed
  }

  ghost predicate ScopedOnce(w: World) {
    forall i, j :: 0 <= i < j < |w.built| && w.built[i].lifetime == Scoped && w.built[j].lifetime == Scoped
      ==> w.built[i].token != w.built[j].token || w.built[i].scope != w.built[j].scope
  }

  /** The disposable instances scope `k` is responsible for, oldest first. */
  function Owned(built: seq<Instance>, k: nat): (r: seq<Instance>) {
    if built == [] then []
    else
      var o := built[|built| - 1];
      Owned(built[..|built| - 1], k) + (if o.disposable && Owner(o) == k then [o] else [])
  }

  ghost predicate TracksOwned(w: World) {
    && (forall k :: 0 <= k < |w.scopes| && !w.scopes[k].disposed ==> w.scopes[k].tracked == Owned(w.built, k))
    && (forall k, o :: 0 <= k < |w.scopes| && o in w.scopes[k].tracked ==> Logged(w.built, o))
    && (forall k :: 0 < k < |w.scopes| && w.scopes[k].disposed ==>
      w.scopes[k].tracked == [] && w.scopes[k].scoped == map[])
  }

  ghost predicate Valid(w: World, epoch: nat) {
    && 0 < |w.scopes|
    && LogValid(w) && CachesValid(w) && BuiltIsCached(w, epoch) && ScopedOnce(w) && TracksOwned(w)
  }

  /** No token that is being built is cached yet. */
  ghost predicate StackFresh(regs: Registry, w: World, s: nat, stack: seq<Token>)
    requires s < |w.scopes|
  {
    forall u :: u in stack ==> u in regs && Cached(regs, w, s, u) == None
  }

  /** Caches only gain entries. */
  ghost predicate CachesGrow(w: World, w': World, s: nat)
    requires s < |w.scopes| && s < |w'.scopes|
  {
    && (forall t :: t in w.singletons ==> t in w'.singletons && w'.singletons[t] == w.singletons[t])
    && (forall t :: t in w.scopes[s].scoped ==>
      t in w'.scopes[s].scoped && w'.scopes[s].scoped[t] == w.scopes[s].scoped[t])
  }

  // ---- Adopting one fresh instance ------------------------------------------

  /** The world after the factory of `o` has returned it. */
  function Complete(w: World, s: nat, o: Instance): World
    requires s < |w.scopes|
  {
    Adopt(w.(built := w.built + [o]), s, o)
  }

  ghost predicate Fresh(w: World, epoch: nat, s: nat, o: Instance) {
    && s < |w.scopes| && !w.scopes[s].disposed && epoch <= |w.built|
    && o.id == |w.built| && o.scope == s
    && (forall p :: p in o.parts ==> Logged(w.built, p))
    && (o.lifetime == Singleton ==> o.token !in w.singletons)
    && (o.lifetime == Scoped ==> o.token !in w.scopes[s].scoped)
  }

  lemma LoggedStays(built: seq<Instance>, o: Instance, p: Instance)
    requires Logged(built, p)
    ensures Logged(built + [o], p)
  {
  }

  lemma CompleteKeepsLog(w: World, epoch: nat, s: nat, o: Instance)
    requires Valid(w, epoch) && Fresh(w, epoch, s, o)
    ensures LogValid(Complete(w, s, o))
  {
    var w' := Complete(w, s, o);
    assert w'.built == w.built + [o];
    forall i | 0 <= i < |w'.built|
      ensures w'.built[i].id == i && w'.built[i].scope < |w'.scopes| && PartsLogged(w'.built, w'.built[i])
    {
      if i < |w.built| {
        assert w'.built[i] == w.built[i] && PartsLogged(w.built, w.built[i]);
      }
    }
  }

  lemma CompleteShape(w: World, s: nat, o: Instance)
    requires s < |w.scopes|
    ensures var w' := Complete(w, s, o);
      && w'.built == w.built + [o] && |w'.scopes| == |w.scopes|
      && w'.singletons == (if o.lifetime == Singleton then w.singletons[o.token := o] else w.singletons)
      && (forall k :: 0 <= k < |w.scopes| ==> w'.scopes[k].disposed == w.scopes[k].disposed)
      && (forall k :: 0 <= k < |w.scopes| && !(k == s && o.lifetime == Scoped) ==>
        w'.scopes[k].scoped == w.scopes[k].scoped)
      && (o.lifetime == Scoped ==> w'.scopes[s].scoped == w.scopes[s].scoped[o.token := o])
  {
  }

  lemma CompleteKeepsCaches(w: World, epoch: nat, s: nat, o: Instance)
    requires CachesValid(w) && Fresh(w, epoch, s, o)
    ensures CachesValid(Complete(w, s, o))
  {
    CompleteShape(w, s, o);
  }

  lemma CompleteCachesTheBuilt(w: World, epoch: nat, s: nat, o: Instance)
    requires BuiltIsCached(w, epoch) && Fresh(w, epoch, s, o)
    ensures BuiltIsCached(Complete(w, s, o), epoch)
  {
    CompleteShape(w, s, o);
    var w' := Complete(w, s, o);
    forall i | 0 <= i < |w'.built| && LiveScoped(w', w'.built[i])
      ensures var b := w'.built[i];
        b.token in w'.scopes[b.scope].scoped && w'.scopes[b.scope].scoped[b.token] == b
    {
      if i < |w.built| {
        assert w'.built[i] == w.built[i] && LiveScoped(w, w.built[i]);
      }
    }
  }

  lemma CompleteKeepsScopedOnce(w: World, epoch: nat, s: nat, o: Instance)
    requires LogValid(w) && BuiltIsCached(w, epoch) && ScopedOnce(w) && Fresh(w, epoch, s, o)
    ensures ScopedOnce(Complete(w, s, o))
  {
    CompleteShape(w, s, o);
    var w' := Complete(w, s, o);
    forall i, j | 0 <= i < j < |w'.built| && w'.built[i].lifetime == Scoped && w'.built[j].lifetime == Scoped
      ensures w'.built[i].token != w'.built[j].token || w'.built[i].scope != w'.built[j].scope
    {
      assert w'.built[i] == w.built[i];
      if j == |w.built| && w.built[i].scope == s {
        assert LiveScoped(w, w.built[i]);
      }
    }
  }

  lemma CompleteKeepsTracking(w: World, epoch: nat, s: nat, o: Instance)
    requires Valid(w, epoch) && Fresh(w, epoch, s, o)
    ensures TracksOwned(Complete(w, s, o))
  {
    var w' := Complete(w, s, o);
    assert w'.built == w.built + [o];
    assert w'.built[..|w.built|] == w.built;
    forall k | 0 <= k < |w.scopes|
      ensures w'.scopes[k].disposed == w.scopes[k].disposed
      ensures w'.scopes[k].tracked ==
        w.scopes[k].tracked + (if o.disposable && Owner(o) == k then [o] else [])
    {
      assert forall p :: p in w.scopes[k].tracked ==> Logged(w.built, p);
    }
    forall k, p | 0 <= k < |w'.scopes| && p in w'.scopes[k].tracked
      ensures Logged(w'.built, p)
    {
      if p in w.scopes[k].tracked {
        LoggedStays(w.built, o, p);
      }
    }
  }

  lemma CompleteKeepsValid(w: World, epoch: nat, s: nat, o: Instance)
    requires Valid(w, epoch) && Fresh(w, epoch, s, o)
    ensures Valid(Complete(w, s, o), epoch)
    ensures CachesGrow(w, Complete(w, s, o), s)
  {
    CompleteKeepsLog(w, epoch, s, o);
    CompleteKeepsCaches(w, epoch, s, o);
    CompleteCachesTheBuilt(w, epoch, s, o);
    CompleteKeepsScopedOnce(w, epoch, s, o);
    CompleteShape(w, s, o);
    CompleteKeepsTracking(w, epoch, s, o);
  }

  // ---- Whole resolutions ----------------------------------------------------

  /** What a successful resolve of `t` through scope `s` hands out. */
  ghost predicate Delivers(regs: Registry, w: World, w': World, s: nat, t: Token, o: Instance)
    requires s < |w'.scopes|
  {
    && Logged(w'.built, o) && o.token == t
    && t in regs && o.lifetime == regs[t].lifetime
    && (o.lifetime == Transient ==> o.id >= |w.built| && o.scope == s)
    && (o.lifetime != Transient ==> Cached(regs, w', s, t) == Some(o))
  }

  lemma {:induction false} ResolveKeepsValid(
    regs: Registry, w: World, epoch: nat, s: nat, stack: seq<Token>, active: Option<Lifetime>, t: Token)
    requires Valid(w, epoch) && epoch <= |w.built| && s < |w.scopes| && !w.scopes[s].disposed
    requires Elements(stack) <= regs.Keys && StackFresh(regs, w, s, stack)
    ensures var (w', r) := Resolve(regs, w, s, stack, active, t);
      && Valid(w', epoch) && StackFresh(regs, w', s, stack) && CachesGrow(w, w', s)
      && (r.Resolved? ==> Delivers(regs, w, w', s, t, r.instance))
    decreases regs.Keys - Elements(stack), 1, 0
  {
    if && t in regs && t !in stack
       && !(active == Some(Singleton) && regs[t].lifetime == Scoped) {
      if Cached(regs, w, s, t) == None {
        ConstructKeepsValid(regs, w, epoch, s, stack, active, t);
      }
    }
  }

  /** Running the factory of `t`, before its result is adopted. */
  lemma {:induction false} ConstructKeepsValid(
    regs: Registry, w: World, epoch: nat, s: nat, stack: seq<Token>, active: Option<Lifetime>, t: Token)
    requires Valid(w, epoch) && epoch <= |w.built| && s < |w.scopes| && !w.scopes[s].disposed
    requires Elements(stack) <= regs.Keys && StackFresh(regs, w, s, stack)
    requires t in regs && t !in stack && Cached(regs, w, s, t) == None
    ensures var (w', r) := Construct(regs, w, s, stack, active, t);
      var w'' := if r.Resolved? then Adopt(w', s, r.instance) else w';
      && Valid(w'', epoch) && StackFresh(regs, w'', s, stack) && CachesGrow(w, w'', s)
      && (r.Resolved? ==> Delivers(regs, w, w'', s, t, r.instance))
    decreases regs.Keys - Elements(stack), 0, 0
  {
    var stack' := stack + [t];
    assert t in Elements(stack') && t !in Elements(stack);
    assert Elements(stack') == Elements(stack) + {t};
    var active' := Activate(regs, t, active);
    var f := regs[t].factory;
    ResolveAllKeepsValid(regs, w, epoch, s, stack', active', f.deps);
    ResolveAllFrames(regs, w, s, stack', active', f.deps);
    var (w', parts) := ResolveAll(regs, w, s, stack', active', f.deps);
    assert t in stack';
    if parts.AllResolved? && !f.throws {
      CompletionDelivers(
        regs, w, w', epoch, s, stack,
        Instance(|w'.built|, t, regs[t].lifetime, s, f.disposable, parts.instances));
    }
  }

  lemma CompletionDelivers(
    regs: Registry, w: World, w': World, epoch: nat, s: nat, stack: seq<Token>, o: Instance)
    requires Valid(w', epoch) && Fresh(w', epoch, s, o) && s < |w.scopes| && CachesGrow(w, w', s)
    requires |w.built| <= |w'.built| && o.token in regs && o.lifetime == regs[o.token].lifetime
    requires StackFresh(regs, w', s, stack) && o.token !in stack
    ensures var w'' := Complete(w', s, o);
      && Valid(w'', epoch) && StackFresh(regs, w'', s, stack) && CachesGrow(w, w'', s)
      && Delivers(regs, w, w'', s, o.token, o)
  {
    CompleteKeepsValid(w', epoch, s, o);
    CompleteKeepsFresh(regs, w', s, stack, o);
    CompleteShape(w', s, o);
  }

  lemma CompleteKeepsFresh(regs: Registry, w: World, s: nat, stack: seq<Token>, o: Instance)
    requires s < |w.scopes| && StackFresh(regs, w, s, stack) && o.token !in stack
    ensures StackFresh(regs, Complete(w, s, o), s, stack)
  {
    var w' := Complete(w, s, o);
    assert w'.scopes[s].scoped ==
      if o.lifetime == Scoped then w.scopes[s].scoped[o.token := o] else w.scopes[s].scoped;
  }

  lemma AllLogged(built: seq<Instance>, built': seq<Instance>, o: Instance, os: seq<Instance>)
    requires built <= built' && Logged(built, o) && forall x :: x in os ==> Logged(built', x)
    ensures forall x :: x in [o] + os ==> Logged(built', x)
  {
  }

  lemma {:induction false} ResolveAllKeepsValid(
    regs: Registry, w: World, epoch: nat, s: nat, stack: seq<Token>, active: Option<Lifetime>, ts: seq<Token>)
    requires Valid(w, epoch) && epoch <= |w.built| && s < |w.scopes| && !w.scopes[s].disposed
    requires Elements(stack) <= regs.Keys && StackFresh(regs, w, s, stack)
    ensures var (w', r) := ResolveAll(regs, w, s, stack, active, ts);
      && Valid(w', epoch) && StackFresh(regs, w', s, stack) && CachesGrow(w, w', s)
      && (r.AllResolved? ==> forall o :: o in r.instances ==> Logged(w'.built, o))
    decreases regs.Keys - Elements(stack), 2, |ts|
  {
    if ts != [] {
      ResolveKeepsValid(regs, w, epoch, s, stack, active, ts[0]);
      ResolveFrames(regs, w, s, stack, active, ts[0]);
      var (w', first) := Resolve(regs, w, s, stack, active, ts[0]);
      if first.Resolved? {
        ResolveAllKeepsValid(regs, w', epoch, s, stack, active, ts[1..]);
        ResolveAllFrames(regs, w', s, stack, active, ts[1..]);
        var (w'', rest) := ResolveAll(regs, w', s, stack, active, ts[1..]);
        if rest.AllResolved? {
          AllLogged(w'.built, w''.built, first.instance, rest.instances);
        }
      }
    }
  }

  // ---- What the tracking list looks like -------------------------------------

  /** Every owned instance is listed, and nothing else. */
  lemma {:induction false} OwnedContents(built: seq<Instance>, k: nat, o: Instance)
    ensures o in Owned(built, k) <==> o in built && o.disposable && Owner(o) == k
  {
    if built != [] {
      var n := |built| - 1;
      OwnedContents(built[..n], k, o);
      assert built == built[..n] + [built[n]];
    }
  }

  /** A tracking list follows completion order, so it has no duplicates. */
  lemma {:induction false} OwnedIsOrdered(built: seq<Instance>, k: nat)
    requires forall i :: 0 <= i < |built| ==> built[i].id == i
    ensures forall i, j :: 0 <= i < j < |Owned(built, k)| ==> Owned(built, k)[i].id < Owned(built, k)[j].id
    ensures forall i :: 0 <= i < |Owned(built, k)| ==> Owned(built, k)[i].id < |built|
  {
    if built != [] {
      OwnedIsOrdered(built[..|built| - 1], k);
    }
  }

  /** Two scopes never track the same instance, and a part is tracked before its whole. */
  lemma TrackingIsTopological(w: World, epoch: nat, k: nat)
    requires Valid(w, epoch) && k < |w.scopes| && !w.scopes[k].disposed
    ensures var l := w.scopes[k].tracked;
      && (forall i, j :: 0 <= i < j < |l| ==> l[i] != l[j])
      && (forall i, j :: 0 <= i < |l| && 0 <= j < |l| && l[i] in l[j].parts ==> i < j)
    ensures forall m, o :: 0 <= m < |w.scopes| && m != k && !w.scopes[m].disposed && o in w.scopes[k].tracked ==>
      o !in w.scopes[m].tracked
  {
    TrackedInOrder(w, k);
    forall m, o | 0 <= m < |w.scopes| && m != k && !w.scopes[m].disposed && o in w.scopes[k].tracked
      ensures o !in w.scopes[m].tracked
    {
      OwnedContents(w.built, k, o);
      OwnedContents(w.built, m, o);
    }
  }

  lemma TrackedInOrder(w: World, k: nat)
    requires LogValid(w) && TracksOwned(w) && k < |w.scopes| && !w.scopes[k].disposed
    ensures var l := w.scopes[k].tracked;
      && (forall i, j :: 0 <= i < j < |l| ==> l[i] != l[j])
      && (forall i, j :: 0 <= i < |l| && 0 <= j < |l| && l[i] in l[j].parts ==> i < j)
  {
    var l := w.scopes[k].tracked;
    OwnedIsOrdered(w.built, k);
    forall i, j | 0 <= i < |l| && 0 <= j < |l| && l[i] in l[j].parts
      ensures i < j
    {
      assert Logged(w.built, l[j]);
      assert PartsLogged(w.built, w.built[l[j].id]);
      assert l[i].id < l[j].id;
    }
  }
}
