/**
  Who disposes of what, and when: which parts of an object have another owner than the
  object itself, in which order owners are closed, and when a singleton is left holding
  an object that has been disposed of.
 */
module DisposalOrder {
  import opened Wrappers
  import opened Tokens
  import opened DependencyGraph
  import opened Resolver
  import opened Exactness
  import opened Ownership
  import opened ContainerHistory
  import opened ContainerGuarantees

  // ---- What an object is made of ------------------------------------------------

  /** A part that is no singleton comes from the same scope, and a singleton is handed nothing scoped. */
  ghost predicate IsPartFor(y: Instance, x: Instance) {
    && (x.lifetime != Singleton ==> x.scope == y.scope)
    && (y.lifetime == Singleton ==> x.lifetime != Scoped)
  }

  ghost predicate PartsFit(y: Instance) {
    forall x :: x in y.parts ==> IsPartFor(y, x)
  }

  /** The instance is what the registration of its token makes. */
  ghost predicate Conforms(regs: Registry, o: Instance) {
    && o.token in regs && o.lifetime == regs[o.token].lifetime
    && o.disposable == regs[o.token].factory.disposable
    && |o.parts| == |regs[o.token].factory.deps|
    && forall i :: 0 <= i < |o.parts| ==> o.parts[i].token == regs[o.token].factory.deps[i]
  }

  ghost predicate AllPartsFit(built: seq<Instance>) {
    forall i :: 0 <= i < |built| ==> PartsFit(built[i])
  }

  ghost predicate AllConform(regs: Registry, built: seq<Instance>, from: nat) {
    forall i :: from <= i < |built| ==> Conforms(regs, built[i])
  }

  /** What one resolve adds to the log fits and conforms. */
  ghost predicate AddsFitting(regs: Registry, w: World, w': World) {
    && CachesAtHome(w') && w.built <= w'.built && |w'.scopes| == |w.scopes|
    && AllPartsFit(w'.built) && AllConform(regs, w'.built, |w.built|)
  }

  ghost predicate Handed(s: nat, active: Option<Lifetime>, t: Token, o: Instance) {
    && o.token == t && (o.lifetime != Singleton ==> o.scope == s)
    && (active == Some(Singleton) ==> o.lifetime != Scoped)
  }

  lemma {:induction false} ResolveFits(
    regs: Registry, w: World, s: nat, stack: seq<Token>, active: Option<Lifetime>, t: Token)
    requires s < |w.scopes| && Elements(stack) <= regs.Keys && CachesAtHome(w) && AllPartsFit(w.built)
    ensures var (w', r) := Resolve(regs, w, s, stack, active, t);
      AddsFitting(regs, w, w') && (r.Resolved? ==> Handed(s, active, t, r.instance))
    decreases regs.Keys - Elements(stack), 1, 0
  {
    if && !w.scopes[s].disposed && t in regs && t !in stack
       && !(active == Some(Singleton) && regs[t].lifetime == Scoped) {
      if Cached(regs, w, s, t) == None {
        ConstructFits(regs, w, s, stack, active, t);
      }
    }
  }

  lemma {:induction false} ConstructFits(
    regs: Registry, w: World, s: nat, stack: seq<Token>, active: Option<Lifetime>, t: Token)
    requires s < |w.scopes| && Elements(stack) <= regs.Keys && CachesAtHome(w) && AllPartsFit(w.built)
    requires t in regs && t !in stack && !(active == Some(Singleton) && regs[t].lifetime == Scoped)
    ensures var (w', r) := Construct(regs, w, s, stack, active, t);
      && AddsFitting(regs, w, if r.Resolved? then Adopt(w', s, r.instance) else w')
      && (r.Resolved? ==> Handed(s, active, t, r.instance))
    decreases regs.Keys - Elements(stack), 0, 0
  {
    var stack' := stack + [t];
    assert t in Elements(stack') && t !in Elements(stack);
    assert Elements(stack') == Elements(stack) + {t};
    var active' := Activate(regs, t, active);
    var f := regs[t].factory;
    ListFits(regs, w, s, stack', active', f.deps);
    var (w', parts) := ResolveAll(regs, w, s, stack', active', f.deps);
    if parts.AllResolved? && !f.throws {
      var o := Instance(|w'.built|, t, regs[t].lifetime, s, f.disposable, parts.instances);
      PartsOfHanded(s, active', f.deps, o);
      CompletionFits(regs, w, w', s, o);
    }
  }

  lemma PartsOfHanded(s: nat, active: Option<Lifetime>, deps: seq<Token>, o: Instance)
    requires |o.parts| == |deps| && forall i :: 0 <= i < |deps| ==> Handed(s, active, deps[i], o.parts[i])
    requires o.scope == s && (o.lifetime == Singleton ==> active == Some(Singleton))
    ensures PartsFit(o)
  {
    forall x | x in o.parts
      ensures IsPartFor(o, x)
    {
      var i :| 0 <= i < |o.parts| && o.parts[i] == x;
      assert Handed(s, active, deps[i], x);
    }
  }

  lemma CompletionFits(regs: Registry, w: World, w': World, s: nat, o: Instance)
    requires AddsFitting(regs, w, w') && s < |w'.scopes| && o.scope == s && PartsFit(o) && Conforms(regs, o)
    ensures AddsFitting(regs, w, Adopt(w'.(built := w'.built + [o]), s, o))
  {
    CompleteShape(w', s, o);
    var w'' := Complete(w', s, o);
    assert w''.built == w'.built + [o];
  }

  lemma {:induction false} ListFits(
    regs: Registry, w: World, s: nat, stack: seq<Token>, active: Option<Lifetime>, ts: seq<Token>)
    requires s < |w.scopes| && Elements(stack) <= regs.Keys && CachesAtHome(w) && AllPartsFit(w.built)
    ensures var (w', r) := ResolveAll(regs, w, s, stack, active, ts);
      && AddsFitting(regs, w, w')
      && (r.AllResolved? ==> |r.instances| == |ts|)
      && (r.AllResolved? ==> forall i :: 0 <= i < |ts| ==> Handed(s, active, ts[i], r.instances[i]))
    decreases regs.Keys - Elements(stack), 2, |ts|
  {
    if ts != [] {
      ResolveFits(regs, w, s, stack, active, ts[0]);
      var (w', first) := Resolve(regs, w, s, stack, active, ts[0]);
      if first.Resolved? {
        ListFits(regs, w', s, stack, active, ts[1..]);
        var (w'', rest) := ResolveAll(regs, w', s, stack, active, ts[1..]);
        assert forall i :: |w.built| <= i < |w'.built| ==> w''.built[i] == w'.built[i];
      }
    }
  }

  // ---- Every run -----------------------------------------------------------------

  /** While the container is open, everything built so far conforms to the registrations. */
  ghost predicate HistoryFits(h: History) {
    CachesAtHome(h.w) && AllPartsFit(h.w.built) && (RootOpen(h) ==> AllConform(h.regs, h.w.built, 0))
  }

  lemma {:induction false} DeliverKeepsFit(h: History, s: nat, t: Token)
    requires HistoryFits(h) && s < |h.w.scopes|
    ensures HistoryFits(Deliver(h, s, Resolve(h.regs, h.w, s, [], None, t)))
  {
    var h' := Deliver(h, s, Resolve(h.regs, h.w, s, [], None, t));
    ResolveFits(h.regs, h.w, s, [], None, t);
    ResolveFrames(h.regs, h.w, s, [], None, t);
    assert forall i :: 0 <= i < |h.w.built| ==> h'.w.built[i] == h.w.built[i];
  }

  lemma StepKeepsFit(h: History, op: Op)
    requires HistoryFits(h) && 0 < |h.w.scopes|
    ensures HistoryFits(Step(h, op))
  {
    match op
    case ResolveIn(s, t) =>
      if 1 <= s < |h.w.scopes| {
        DeliverKeepsFit(h, s, t);
      }
    case ResolveRoot(t) =>
      if !(t in h.regs && h.regs[t].lifetime == Scoped) {
        DeliverKeepsFit(h, 0, t);
      }
    case _ =>
  }

  lemma {:induction false} RunKeepsFit(ops: seq<Op>)
    ensures HistoryFits(Run(ops))
    decreases |ops|
  {
    if ops != [] {
      var init, op := ops[..|ops| - 1], ops[|ops| - 1];
      RunKeepsFit(init);
      RunExtends(init, op);
      assert ops == init + [op];
      StepKeepsFit(Run(init), op);
    }
  }

  /**
    A part has another owner than the object it is handed to exactly if the object was built
    through a request scope and one of the two, but not both, is a singleton.
   */
  lemma OwnersDifferIff(ops: seq<Op>, y: Instance, x: Instance)
    requires Logged(Run(ops).w.built, y) && x in y.parts
    ensures Owner(x) != Owner(y) <==> 0 < y.scope && (x.lifetime == Singleton <==> y.lifetime != Singleton)
    ensures y.lifetime == Singleton ==> x.lifetime != Scoped
  {
    RunKeepsFit(ops);
    assert PartsFit(Run(ops).w.built[y.id]) && IsPartFor(y, x);
  }

  // ---- In which order owners are closed --------------------------------------------

  /** Logs and calls only grow, and a closing time is the length of the log at that moment, for good. */
  ghost predicate Grows(h: History, h': History) {
    && h.w.built <= h'.w.built && h.disposals <= h'.disposals
    && (forall k :: k in h.closedAt ==> k in h'.closedAt && h'.closedAt[k] == h.closedAt[k])
    && (forall k :: k in h'.closedAt && k !in h.closedAt ==> |h.w.built| <= h'.closedAt[k])
  }

  ghost predicate Closes(h: History, op: Op, k: nat)
    requires 0 < |h.w.scopes|
  {
    k in Step(h, op).closedAt && k !in h.closedAt
  }

  /** What one operation closes it closes at the present length of the log, and it closes one scope at most. */
  lemma StepGrows(h: History, op: Op)
    requires 0 < |h.w.scopes|
    ensures Grows(h, Step(h, op))
    ensures forall k :: Closes(h, op, k) ==> Step(h, op).closedAt[k] == |h.w.built|
    ensures forall k, m :: Closes(h, op, k) && Closes(h, op, m) ==> k == m
  {
    match op
    case ResolveIn(s, t) =>
      if 1 <= s < |h.w.scopes| {
        ResolveFrames(h.regs, h.w, s, [], None, t);
      }
    case ResolveRoot(t) => ResolveFrames(h.regs, h.w, 0, [], None, t);
    case _ =>
  }

  lemma {:induction false} RunGrows(h: History, ops: seq<Op>)
    requires 0 < |h.w.scopes|
    ensures Grows(h, RunFrom(h, ops))
    decreases |ops|
  {
    if ops != [] {
      StepGrows(h, ops[0]);
      RunGrows(Step(h, ops[0]), ops[1..]);
    }
  }

  lemma PrefixGrows(ops: seq<Op>, i: nat, j: nat)
    requires i <= j <= |ops|
    ensures Grows(Run(ops[..i]), Run(ops[..j]))
  {
    RunSplits(Initial(), ops[..i], ops[i..j]);
    assert ops[..i] + ops[i..j] == ops[..j];
    RunGrows(Run(ops[..i]), ops[i..j]);
  }

  /** At some point of the run `a` was closed and `b` was not. */
  ghost predicate ClosedBefore(ops: seq<Op>, a: nat, b: nat) {
    exists k :: 0 <= k <= |ops| && ClosedAlone(ops[..k], a, b)
  }

  ghost predicate ClosedAlone(ops: seq<Op>, a: nat, b: nat) {
    a in Run(ops).closedAt && b !in Run(ops).closedAt
  }

  lemma NotBothBefore(ops: seq<Op>, a: nat, b: nat)
    ensures !(ClosedBefore(ops, a, b) && ClosedBefore(ops, b, a))
  {
    forall i, j | 0 <= i <= |ops| && 0 <= j <= |ops| && ClosedAlone(ops[..i], a, b)
      ensures !ClosedAlone(ops[..j], b, a)
    {
      if i <= j {
        PrefixGrows(ops, i, j);
      } else {
        PrefixGrows(ops, j, i);
      }
    }
  }

  lemma {:induction false} OneIsBefore(ops: seq<Op>, a: nat, b: nat)
    requires a != b && a in Run(ops).closedAt && b in Run(ops).closedAt
    ensures ClosedBefore(ops, a, b) || ClosedBefore(ops, b, a)
    decreases |ops|
  {
    if ops != [] {
      var n := |ops| - 1;
      var init := ops[..n];
      RunExtends(init, ops[n]);
      assert ops == init + [ops[n]];
      StepGrows(Run(init), ops[n]);
      if a in Run(init).closedAt && b in Run(init).closedAt {
        OneIsBefore(init, a, b);
        assert forall k :: 0 <= k <= n ==> init[..k] == ops[..k];
      } else {
        assert ClosedAlone(ops[..n], a, b) || ClosedAlone(ops[..n], b, a);
      }
    }
  }

  /** What is disposed of at all was so as soon as its owner was closed, and not before. */
  lemma DisposedOnceClosed(before: History, h: History, o: Instance)
    requires DisposalsValid(before) && DisposalsValid(h) && Grows(before, h) && o in h.disposals
    ensures o in before.disposals <==> Owner(o) in before.closedAt
  {
    assert Due(h, o);
    if Owner(o) in before.closedAt {
      assert Logged(before.w.built, o);
    }
  }

  lemma PrefixComesFirst(all: seq<Instance>, n: nat, i: nat, j: nat)
    requires n <= |all| && i < |all| && j < |all| && all[i] in all[..n] && all[j] !in all[..n]
    requires forall k, m :: 0 <= k < m < |all| ==> all[k] != all[m]
    ensures i < j
  {
    var k :| 0 <= k < n && all[..n][k] == all[i];
    assert k == i;
    assert forall m :: 0 <= m < n ==> all[..n][m] == all[m];
  }

  lemma ClosedAtMomentIsFirst(before: History, h: History, i: nat, j: nat)
    requires DisposalsValid(before) && DisposalsValid(h) && Grows(before, h)
    requires i < |h.disposals| && j < |h.disposals|
    requires Owner(h.disposals[i]) in before.closedAt && Owner(h.disposals[j]) !in before.closedAt
    ensures i < j
  {
    DisposedOnceClosed(before, h, h.disposals[i]);
    DisposedOnceClosed(before, h, h.disposals[j]);
    assert before.disposals == h.disposals[..|before.disposals|];
    PrefixComesFirst(h.disposals, |before.disposals|, i, j);
  }

  /** What an owner that is closed first disposes of comes first. */
  lemma EarlierOwnerFirst(ops: seq<Op>, i: nat, j: nat)
    requires i < |Run(ops).disposals| && j < |Run(ops).disposals|
    requires ClosedBefore(ops, Owner(Run(ops).disposals[i]), Owner(Run(ops).disposals[j]))
    ensures i < j
  {
    var h := Run(ops);
    var k :| 0 <= k <= |ops| && ClosedAlone(ops[..k], Owner(h.disposals[i]), Owner(h.disposals[j]));
    PrefixGrows(ops, k, |ops|);
    assert ops[..|ops|] == ops;
    RunKeepsInvariant(ops);
    RunKeepsInvariant(ops[..k]);
    ClosedAtMomentIsFirst(Run(ops[..k]), h, i, j);
  }

  /**
    Of two disposed objects one of which uses the other, the user goes first exactly if both
    have one owner or the user's owner was closed before the other one's.
   */
  lemma UserGoesFirstIff(ops: seq<Op>, i: nat, j: nat)
    requires i < |Run(ops).disposals| && j < |Run(ops).disposals|
    requires Uses(Run(ops).disposals[i], Run(ops).disposals[j])
    ensures i < j <==>
      || Owner(Run(ops).disposals[i]) == Owner(Run(ops).disposals[j])
      || ClosedBefore(ops, Owner(Run(ops).disposals[i]), Owner(Run(ops).disposals[j]))
  {
    var h := Run(ops);
    var y, x := h.disposals[i], h.disposals[j];
    RunKeepsInvariant(ops);
    assert y in h.disposals && x in h.disposals && Due(h, y) && Due(h, x);
    UsedIsOlder(h.w.built, y, x);
    if Owner(y) == Owner(x) {
      if j < i {
        DependentsGoFirst(ops, j, i);
      }
    } else {
      OneIsBefore(ops, Owner(y), Owner(x));
      NotBothBefore(ops, Owner(y), Owner(x));
      if ClosedBefore(ops, Owner(y), Owner(x)) {
        EarlierOwnerFirst(ops, i, j);
      } else {
        EarlierOwnerFirst(ops, j, i);
      }
    }
  }

  // ---- What is disposed of eventually -----------------------------------------------

  /** At the end of the operations, the object is there and its owner is open. */
  ghost predicate OwnedOpenly(ops: seq<Op>, o: Instance) {
    Logged(Run(ops).w.built, o) && Owner(o) !in Run(ops).closedAt
  }

  lemma {:induction false} ClosingMoment(ops: seq<Op>, s: nat) returns (k: nat)
    requires s in Run(ops).closedAt
    ensures k <= |ops| && s !in Run(ops[..k]).closedAt
    ensures Run(ops).closedAt[s] == |Run(ops[..k]).w.built|
    decreases |ops|
  {
    k := 0;
    if ops != [] {
      var n := |ops| - 1;
      var init := ops[..n];
      RunExtends(init, ops[n]);
      assert ops == init + [ops[n]];
      StepGrows(Run(init), ops[n]);
      if s in Run(init).closedAt {
        k := ClosingMoment(init, s);
        assert init[..k] == ops[..k];
      } else {
        k := n;
      }
    }
  }

  /**
    A disposable object has been disposed of exactly if its owner has been closed, and was
    open at some point at which the object was there already.  For a singleton the owner is
    the container itself.
   */
  lemma DisposedIffOwnedOpenly(ops: seq<Op>, o: Instance)
    requires Logged(Run(ops).w.built, o) && o.disposable
    ensures o in Run(ops).disposals <==>
      Owner(o) in Run(ops).closedAt && exists k :: 0 <= k <= |ops| && OwnedOpenly(ops[..k], o)
  {
    var h := Run(ops);
    RunKeepsInvariant(ops);
    assert ops[..|ops|] == ops;
    if k :| 0 <= k <= |ops| && OwnedOpenly(ops[..k], o) {
      PrefixGrows(ops, k, |ops|);
    }
    if o in h.disposals {
      assert Due(h, o);
      var k := ClosingMoment(ops, Owner(o));
      PrefixGrows(ops, k, |ops|);
      assert OwnedOpenly(ops[..k], o);
    }
  }

  /** A singleton that is built after the container was disposed of is never disposed of, whatever happens. */
  lemma LateSingletonsAreNeverDisposed(ops: seq<Op>, more: seq<Op>, o: Instance)
    requires !RootOpen(Run(ops)) && !Logged(Run(ops).w.built, o) && o.lifetime == Singleton
    ensures o !in Run(ops + more).disposals
  {
    RunKeepsInvariant(ops);
    RunKeepsInvariant(ops + more);
    RunSplits(Initial(), ops, more);
    RunGrows(Run(ops), more);
    var built, built' := Run(ops).w.built, Run(ops + more).w.built;
    assert o.id < |built| ==> built'[o.id] == built[o.id];
  }

  /** Such a singleton exists: a request scope outlives the container, and its token is registered anew. */
  lemma LateSingletonsExist()
    ensures exists ops, o ::
      && o in Run(ops).w.built && o.disposable && o.lifetime == Singleton
      && forall more :: o !in Run(ops + more).disposals
  {
    var t := Custom("late");
    var before := [CreateScope, DisposeContainer, Register(t, Registration(Singleton, Leaf(true)))];
    var h2 := Step(Step(Initial(), before[0]), before[1]);
    var h := Step(h2, before[2]);
    assert before[1..][1..] == [before[2]] && [before[2]][1..] == [];
    assert Run(before) == RunFrom(Step(Initial(), before[0]), before[1..]) == RunFrom(h2, [before[2]]) == h;
    assert h2.w.scopes == [CLOSED_SCOPE, EMPTY_SCOPE];
    LeafResolves(h.regs, h.w, 1, [], None, t);
    var o := Instance(0, t, Singleton, 1, true, []);
    var ops := before + [ResolveIn(1, t)];
    RunExtends(before, ResolveIn(1, t));
    assert Run(ops).w.built == [o];
    forall more
      ensures o !in Run(ops + more).disposals
    {
      LateSingletonsAreNeverDisposed(before, [ResolveIn(1, t)] + more, o);
      assert before + ([ResolveIn(1, t)] + more) == ops + more;
    }
  }

  // ---- When a singleton holds what has been disposed of ---------------------------------

  /** A chain of dependencies that runs through transients only and ends in a disposable one. */
  ghost predicate LeadsToDisposable(regs: Registry, p: seq<Token>) {
    && IsPath(regs, p) && 2 <= |p|
    && (forall i :: 1 <= i < |p| ==> p[i] in regs && regs[p[i]].lifetime == Transient)
    && regs[p[|p| - 1]].factory.disposable
  }

  ghost predicate HoldsDisposable(regs: Registry, t: Token) {
    exists p :: LeadsToDisposable(regs, p) && p[0] == t
  }

  ghost predicate Sound(h: History) {
    Invariant(h) && HistoryFits(h) && RootOpen(h)
  }

  /** A part of a logged object is logged, fits and conforms; its token is a dependency. */
  lemma PartIsSound(h: History, y: Instance, x: Instance)
    requires Sound(h) && Logged(h.w.built, y) && x in y.parts
    ensures Logged(h.w.built, x) && IsPartFor(y, x) && Conforms(h.regs, x) && Edge(h.regs, y.token, x.token)
  {
    assert PartsLogged(h.w.built, h.w.built[y.id]) && PartsFit(h.w.built[y.id]);
    assert Conforms(h.regs, h.w.built[y.id]) && Conforms(h.regs, h.w.built[x.id]);
    var i :| 0 <= i < |y.parts| && y.parts[i] == x;
  }

  /** What the registrations lead to has been built along with the object at the head of the chain. */
  lemma {:induction false} ChainIsBuilt(h: History, y: Instance, p: seq<Token>) returns (x: Instance)
    requires Sound(h) && Logged(h.w.built, y) && LeadsToDisposable(h.regs, p) && p[0] == y.token
    ensures Uses(y, x) && Logged(h.w.built, x)
    ensures x.lifetime == Transient && x.disposable && x.scope == y.scope
    decreases |p|
  {
    assert Edge(h.regs, p[0], p[1]);
    assert Conforms(h.regs, h.w.built[y.id]);
    var i :| 0 <= i < |y.parts| && y.parts[i].token == p[1];
    var q := y.parts[i];
    PartIsSound(h, y, q);
    if |p| == 2 {
      x := q;
    } else {
      PathSlice(h.regs, p, 1, |p|);
      x := ChainIsBuilt(h, q, p[1..]);
    }
  }

  /** A chain of dependencies from the token of `z` to that of `x`, with no singleton behind its head. */
  ghost predicate IsChain(regs: Registry, z: Instance, p: seq<Token>, x: Instance) {
    && IsPath(regs, p) && 2 <= |p| && p[0] == z.token && p[|p| - 1] == x.token
    && forall i :: 1 <= i < |p| ==> p[i] in regs && regs[p[i]].lifetime != Singleton
  }

  lemma ChainStarts(h: History, y: Instance, x: Instance)
    requires Sound(h) && Logged(h.w.built, y) && x in y.parts && x.lifetime != Singleton
    ensures x.scope == y.scope && IsChain(h.regs, y, [y.token, x.token], x)
  {
    PartIsSound(h, y, x);
  }

  lemma ChainExtends(h: History, y: Instance, q: Instance, p: seq<Token>, x: Instance)
    requires Sound(h) && Logged(h.w.built, y) && q in y.parts && q.lifetime != Singleton
    requires IsChain(h.regs, q, p, x)
    ensures q.scope == y.scope && IsChain(h.regs, y, [y.token] + p, x)
  {
    PartIsSound(h, y, q);
    var all := [y.token] + p;
    forall i, j | 0 <= i && j == i + 1 && j < |all|
      ensures Edge(h.regs, all[i], all[j])
    {
      if i > 0 {
        assert Edge(h.regs, p[i - 1], p[j - 1]);
      }
    }
  }

  /** Between `x` and the last singleton above it, everything comes from one scope. */
  lemma {:induction false} UseIsChain(h: History, y: Instance, x: Instance) returns (z: Instance, p: seq<Token>)
    requires Sound(h) && Logged(h.w.built, y) && Uses(y, x) && x.lifetime != Singleton
    ensures Logged(h.w.built, z) && (z == y || z.lifetime == Singleton) && z.scope == x.scope
    ensures IsChain(h.regs, z, p, x) && Logged(h.w.built, x)
    decreases y
  {
    var q :| q in y.parts && (q == x || Uses(q, x));
    PartIsSound(h, y, q);
    if q == x {
      ChainStarts(h, y, x);
      z, p := y, [y.token, x.token];
    } else {
      z, p := UseIsChain(h, q, x);
      if z.lifetime != Singleton {
        ChainExtends(h, y, q, p, x);
        z, p := y, [y.token] + p;
      }
    }
  }

  /** A singleton in the log is cached and well formed, so nothing below it is scoped. */
  lemma SingletonChainIsTransient(h: History, z: Instance, p: seq<Token>, x: Instance)
    requires Sound(h) && Logged(h.w.built, z) && z.lifetime == Singleton && Logged(h.w.built, x) && x.disposable
    requires IsChain(h.regs, z, p, x)
    ensures z.token in h.w.singletons && h.w.singletons[z.token] == z
    ensures LeadsToDisposable(h.regs, p)
  {
    assert Conforms(h.regs, h.w.built[x.id]) && Conforms(h.regs, h.w.built[z.id]);
    assert h.w.built[z.id] == z;
    assert WellFormed(h.regs, z.token) && Clean(h.regs, p);
    assert h.regs[p[0]].lifetime == Singleton;
    forall i | 1 <= i < |p|
      ensures h.regs[p[i]].lifetime == Transient
    {
      assert !Captures(h.regs, p[0], p[i]);
    }
  }

  /** A cached singleton uses an object that scope `s` has disposed of. */
  ghost predicate KeepsDisposedOf(h: History, s: nat, t: Token, x: Instance) {
    t in h.w.singletons && x in h.disposals && Owner(x) == s && Uses(h.w.singletons[t], x)
  }

  /** A cached singleton was built through scope `s` and holds a disposable transient. */
  ghost predicate BuiltThroughHolding(h: History, s: nat, t: Token) {
    t in h.w.singletons && h.w.singletons[t].scope == s && HoldsDisposable(h.regs, t)
  }

  /**
    Closing a request scope leaves a singleton of an open container with an object that has
    been disposed of exactly if some singleton was built through that scope and reaches a
    disposable transient through transients, as the registrations tell before the scope is closed.
   */
  lemma ClosingHurtsSingletonsIff(ops: seq<Op>, s: nat)
    requires var h := Run(ops); RootOpen(h) && 0 < s < |h.w.scopes| && !h.w.scopes[s].disposed
    ensures (exists t, x :: KeepsDisposedOf(Step(Run(ops), DisposeScope(s)), s, t, x)) <==>
      (exists t :: BuiltThroughHolding(Run(ops), s, t))
  {
    var h := Run(ops);
    var h' := Step(h, DisposeScope(s));
    RunKeepsInvariant(ops);
    RunKeepsFit(ops);
    ClosingReachesTheDue(h, s);
    forall t, x | KeepsDisposedOf(h', s, t, x)
      ensures exists u :: BuiltThroughHolding(h, s, u)
    {
      assert Due(h', x);
      var z, p := UseIsChain(h, h.w.singletons[t], x);
      SingletonChainIsTransient(h, z, p, x);
      assert BuiltThroughHolding(h, s, z.token);
    }
    forall t | BuiltThroughHolding(h, s, t)
      ensures exists u, x :: KeepsDisposedOf(h', s, u, x)
    {
      var p :| LeadsToDisposable(h.regs, p) && p[0] == t;
      var x := ChainIsBuilt(h, h.w.singletons[t], p);
      assert Due(h', x);
      assert KeepsDisposedOf(h', s, t, x);
    }
  }
}
