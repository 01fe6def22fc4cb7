/**
  Whole runs of one container: any interleaving of registrations, scope creations,
  resolves and disposals.  Each operation is the value-level form of a public
  method of the container or of one of its scopes.
 */
module ContainerHistory {
  import opened Wrappers
  import opened Tokens
  import opened DependencyGraph
  import opened Resolver
  import opened Exactness
  import opened Ownership

  datatype Op =
    | Register(token: Token, registration: Registration)
    | CreateScope
    | ResolveIn(scope: nat, token: Token)
    | ResolveRoot(token: Token)
    | DisposeScope(scope: nat)
    | DisposeContainer

  /** One successful resolve: through which scope, and since which clearing of the caches. */
  datatype Delivery = Delivery(scope: nat, epoch: nat, instance: Instance)

  /**
    `epoch` is the length of the log when the container was last disposed,
    `disposals` lists every `dispose()` call made on an instance and `closedAt`
    the length of the log when each scope was closed.
   */
  datatype History = History(
    regs: Registry, w: World, epoch: nat,
    deliveries: seq<Delivery>, disposals: seq<Instance>, closedAt: map<nat, nat>)

  const EMPTY_SCOPE := ScopeState(map[], [], false)
  const CLOSED_SCOPE := ScopeState(map[], [], true)

  function Initial(): History {
    History(map[], World(map[], [EMPTY_SCOPE], []), 0, [], [], map[])
  }

  function Reverse(s: seq<Instance>): (r: seq<Instance>)
    ensures |r| == |s|
    ensures forall i :: 0 <= i < |s| ==> r[i] == s[|s| - 1 - i]
  {
    if s == [] then [] else Reverse(s[1..]) + [s[0]]
  }

  /** Resolving from the root refuses a scoped token before anything else. */
  function RootOutcome(regs: Registry, w: World, t: Token): (r: (World, Outcome))
    requires 0 < |w.scopes|
  {
    if t in regs && regs[t].lifetime == Scoped then (w, Failed(ScopedFromRoot(t)))
    else Resolve(regs, w, 0, [], None, t)
  }

  /** Closing a scope disposes of its tracked instances, youngest first, and forgets them. */
  function CloseScope(w: World, s: nat): (World, seq<Instance>)
    requires s < |w.scopes|
  {
    if w.scopes[s].disposed then (w, [])
    else (w.(scopes := w.scopes[s := CLOSED_SCOPE]), Reverse(w.scopes[s].tracked))
  }

  function Deliver(h: History, s: nat, r: (World, Outcome)): History {
    match r.1
    case Failed(_) => h.(w := r.0)
    case Resolved(o) => h.(w := r.0, deliveries := h.deliveries + [Delivery(s, h.epoch, o)])
  }

  function Close(h: History, s: nat): History
    requires s < |h.w.scopes|
  {
    var (w', calls) := CloseScope(h.w, s);
    h.(w := w', disposals := h.disposals + calls,
       closedAt := if s in h.closedAt then h.closedAt else h.closedAt[s := |h.w.built|])
  }

  /** Request scopes are numbered from 1; an operation on a scope that does not exist does nothing. */
  function Step(h: History, op: Op): History
    requires 0 < |h.w.scopes|
  {
    match op
    case Register(t, r) => if t in h.regs then h else h.(regs := h.regs[t := r])
    case CreateScope => h.(w := h.w.(scopes := h.w.scopes + [EMPTY_SCOPE]))
    case ResolveIn(s, t) =>
      if 1 <= s < |h.w.scopes| then Deliver(h, s, Resolve(h.regs, h.w, s, [], None, t)) else h
    case ResolveRoot(t) => Deliver(h, 0, RootOutcome(h.regs, h.w, t))
    case DisposeScope(s) => if 1 <= s < |h.w.scopes| then Close(h, s) else h
    case DisposeContainer =>
      var h' := Close(h, 0);
      h'.(w := h'.w.(singletons := map[]), regs := map[], epoch := |h.w.built|)
  }

  function RunFrom(h: History, ops: seq<Op>): (h': History)
    requires 0 < |h.w.scopes|
    ensures 0 < |h'.w.scopes|
    decreases |ops|
  {
    if ops == [] then h else RunFrom(Step(h, ops[0]), ops[1..])
  }

  /** The state of a fresh container after the given operations. */
  function Run(ops: seq<Op>): (h: History)
    ensures 0 < |h.w.scopes|
  {
    RunFrom(Initial(), ops)
  }

  // ---- Invariants of every run ----------------------------------------------

  ghost predicate RootOpen(h: History) {
    0 < |h.w.scopes| && !h.w.scopes[0].disposed
  }

  /**
    Cached singletons are registered as such and well formed; while the container is
    open so is every cached scoped instance.
   */
  ghost predicate CachesRegistered(h: History) {
    && (forall t :: t in h.w.singletons ==> t in h.regs && h.regs[t].lifetime == Singleton && WellFormed(h.regs, t))
    && (RootOpen(h) ==>
      && h.epoch == 0
      && (forall k, t :: 0 <= k < |h.w.scopes| && t in h.w.scopes[k].scoped ==>
        t in h.regs && h.regs[t].lifetime == Scoped && WellFormed(h.regs, t)))
  }

  ghost predicate DeliveryValid(h: History, d: Delivery) {
    && Logged(h.w.built, d.instance) && d.epoch <= h.epoch
    && (d.instance.lifetime != Singleton ==> d.instance.scope == d.scope)
    && (d.instance.lifetime == Singleton && d.epoch == h.epoch ==>
      d.instance.token in h.w.singletons && h.w.singletons[d.instance.token] == d.instance)
  }

  ghost predicate SameSingleton(d: Delivery, d': Delivery) {
    && d.instance.lifetime == Singleton && d'.instance.lifetime == Singleton
    && d.instance.token == d'.instance.token && d.epoch == d'.epoch
  }

  /** Two deliveries of one singleton between container disposals are one object; a transient is new. */
  ghost predicate DeliveriesAgree(d: Delivery, d': Delivery) {
    && (SameSingleton(d, d') ==> d.instance == d'.instance)
    && (d'.instance.lifetime == Transient ==> d.instance != d'.instance)
  }

  ghost predicate DeliveriesValid(h: History) {
    && (forall i :: 0 <= i < |h.deliveries| ==> DeliveryValid(h, h.deliveries[i]))
    && (forall i, j :: 0 <= i < j < |h.deliveries| ==> DeliveriesAgree(h.deliveries[i], h.deliveries[j]))
  }

  /** The instances that must have been disposed of by now. */
  ghost predicate Due(h: History, o: Instance) {
    Logged(h.w.built, o) && o.disposable && Owner(o) in h.closedAt && o.id < h.closedAt[Owner(o)]
  }

  /** Which scopes have been closed and when; a closed request scope builds nothing any more. */
  ghost predicate ClosingTimesValid(h: History) {
    && (forall k: nat :: k in h.closedAt <==> k < |h.w.scopes| && h.w.scopes[k].disposed)
    && (forall k :: k in h.closedAt ==> h.closedAt[k] <= |h.w.built|)
    && (forall k, i :: k in h.closedAt && 0 < k && h.closedAt[k] <= i < |h.w.built| ==> Owner(h.w.built[i]) != k)
  }

  /** No object twice, and within one owner the younger first. */
  ghost predicate InOrder(calls: seq<Instance>) {
    && (forall i, j :: 0 <= i < j < |calls| ==> calls[i] != calls[j])
    && (forall i, j :: 0 <= i < j < |calls| && Owner(calls[i]) == Owner(calls[j]) ==> calls[i].id > calls[j].id)
  }

  ghost predicate DisposalsValid(h: History) {
    && ClosingTimesValid(h)
    && (forall o :: o in h.disposals <==> Due(h, o))
    && InOrder(h.disposals)
  }

  ghost predicate Invariant(h: History) {
    && Valid(h.w, h.epoch) && h.epoch <= |h.w.built|
    && CachesRegistered(h) && DeliveriesValid(h) && DisposalsValid(h)
  }

  // ---- Resolving ------------------------------------------------------------

  /** What a resolve through open scope `s` does to the world, as proved for every resolve. */
  ghost predicate ResolveStep(h: History, s: nat, t: Token, w': World, r: Outcome) {
    && s < |h.w.scopes| && !h.w.scopes[s].disposed
    && Frame(h.w, w') && Confined(h.regs, h.w, w', s) && CachesGrow(h.w, w', s)
    && Valid(w', h.epoch)
    && SingletonsSound(h.regs, w') && (ScopedSound(h.regs, h.w, s) ==> ScopedSound(h.regs, w', s))
    && (r.Resolved? ==> Delivers(h.regs, h.w, w', s, t, r.instance))
  }

  lemma {:induction false} ResolveIsStep(h: History, s: nat, t: Token)
    requires Invariant(h) && s < |h.w.scopes| && !h.w.scopes[s].disposed
    ensures var (w', r) := Resolve(h.regs, h.w, s, [], None, t); ResolveStep(h, s, t, w', r)
  {
    assert [] + [t] == [t];
    ResolveKeepsValid(h.regs, h.w, h.epoch, s, [], None, t);
    ResolveFrames(h.regs, h.w, s, [], None, t);
    ResolveIsConfined(h.regs, h.w, s, [], None, t);
    SuccessIsWellFormed(h.regs, h.w, s, [], None, t);
  }

  /** Resolving through an open scope, as both public entry points do. */
  lemma ResolveKeepsInvariant(h: History, s: nat, t: Token, w': World, r: Outcome)
    requires Invariant(h) && ResolveStep(h, s, t, w', r)
    ensures Invariant(Deliver(h, s, (w', r)))
  {
    var h' := Deliver(h, s, (w', r));
    ResolveKeepsRegistered(h, h', s);
    OldDeliveriesStay(h, h');
    if r.Resolved? {
      NewDeliveryAgrees(h, h', s, t, r.instance);
    }
    ResolveKeepsDisposals(h, h', s);
  }

  lemma ResolveKeepsRegistered(h: History, h': History, s: nat)
    requires CachesRegistered(h) && s < |h.w.scopes| && h'.regs == h.regs && h'.epoch == h.epoch
    requires Frame(h.w, h'.w) && Confined(h.regs, h.w, h'.w, s)
    requires SingletonsSound(h.regs, h'.w) && (ScopedSound(h.regs, h.w, s) ==> ScopedSound(h.regs, h'.w, s))
    ensures CachesRegistered(h')
  {
    if RootOpen(h') {
      assert RootOpen(h);
      forall k, t | 0 <= k < |h'.w.scopes| && t in h'.w.scopes[k].scoped
        ensures t in h.regs && h.regs[t].lifetime == Scoped && WellFormed(h.regs, t)
      {
        if k != s {
          assert h'.w.scopes[k].scoped == h.w.scopes[k].scoped;
        }
      }
    }
  }

  /** A delivery stays valid while the log and the singletons only grow. */
  ghost predicate Extends(h: History, h': History) {
    && h.w.built <= h'.w.built && h'.epoch == h.epoch
    && forall t :: t in h.w.singletons ==> t in h'.w.singletons && h'.w.singletons[t] == h.w.singletons[t]
  }

  lemma DeliveryStays(h: History, h': History, d: Delivery)
    requires DeliveryValid(h, d) && Extends(h, h')
    ensures DeliveryValid(h', d)
  {
  }

  lemma OldDeliveriesStay(h: History, h': History)
    requires DeliveriesValid(h) && Extends(h, h') && h.deliveries <= h'.deliveries
    ensures forall i :: 0 <= i < |h.deliveries| ==> DeliveryValid(h', h'.deliveries[i])
    ensures forall i, j :: 0 <= i < j < |h.deliveries| ==> DeliveriesAgree(h'.deliveries[i], h'.deliveries[j])
  {
    forall i | 0 <= i < |h.deliveries|
      ensures h'.deliveries[i] == h.deliveries[i] && DeliveryValid(h', h'.deliveries[i])
    {
      DeliveryStays(h, h', h.deliveries[i]);
    }
  }

  lemma NewDeliveryAgrees(h: History, h': History, s: nat, t: Token, o: Instance)
    requires DeliveriesValid(h) && Extends(h, h') && s < |h.w.scopes| == |h'.w.scopes| && CachesValid(h'.w)
    requires h'.deliveries == h.deliveries + [Delivery(s, h.epoch, o)]
    requires Delivers(h.regs, h.w, h'.w, s, t, o)
    ensures DeliveriesValid(h')
  {
    OldDeliveriesStay(h, h');
    var n := |h.deliveries|;
    var d := h'.deliveries[n];
    assert DeliveryValid(h', d);
    forall i | 0 <= i < n
      ensures DeliveriesAgree(h'.deliveries[i], d)
    {
      assert DeliveryValid(h', h'.deliveries[i]) && DeliveryValid(h, h.deliveries[i]);
    }
  }

  lemma ResolveKeepsDisposals(h: History, h': History, s: nat)
    requires DisposalsValid(h) && s < |h.w.scopes| && !h.w.scopes[s].disposed
    requires Frame(h.w, h'.w) && h'.disposals == h.disposals && h'.closedAt == h.closedAt
    requires forall i :: |h.w.built| <= i < |h'.w.built| ==> h'.w.built[i].scope == s
    ensures DisposalsValid(h')
  {
    forall o
      ensures Due(h', o) <==> Due(h, o)
    {
      if Owner(o) in h.closedAt && o.id < h.closedAt[Owner(o)] {
        assert h'.w.built[..|h.w.built|] == h.w.built;
      }
    }
    forall k, i | k in h'.closedAt && 0 < k && h'.closedAt[k] <= i < |h'.w.built|
      ensures Owner(h'.w.built[i]) != k
    {
      if i < |h.w.built| {
        assert h'.w.built[i] == h.w.built[i];
      }
    }
  }

  // ---- Closing a scope ------------------------------------------------------

  lemma CloseKeepsValid(h: History, s: nat)
    requires Valid(h.w, h.epoch) && s < |h.w.scopes|
    ensures Valid(Close(h, s).w, h.epoch)
  {
    if !h.w.scopes[s].disposed {
      ClosedKeepsTracking(h.w, s);
      ClosedKeepsCaches(h.w, s, h.epoch);
    }
  }

  lemma ClosedKeepsCaches(w: World, s: nat, epoch: nat)
    requires CachesValid(w) && BuiltIsCached(w, epoch) && s < |w.scopes|
    ensures var w' := w.(scopes := w.scopes[s := CLOSED_SCOPE]); CachesValid(w') && BuiltIsCached(w', epoch)
  {
    var w' := w.(scopes := w.scopes[s := CLOSED_SCOPE]);
    assert forall i :: 0 <= i < |w.built| && LiveScoped(w', w.built[i]) ==>
      LiveScoped(w, w.built[i]) && w.built[i].scope != s;
  }

  lemma ClosedKeepsTracking(w: World, s: nat)
    requires TracksOwned(w) && s < |w.scopes|
    ensures TracksOwned(w.(scopes := w.scopes[s := CLOSED_SCOPE]))
  {
  }

  lemma CloseKeepsTimes(h: History, s: nat)
    requires ClosingTimesValid(h) && s < |h.w.scopes| && !h.w.scopes[s].disposed
    ensures ClosingTimesValid(Close(h, s))
  {
    var h' := Close(h, s);
    assert forall k :: 0 <= k < |h.w.scopes| && k != s ==> h'.w.scopes[k] == h.w.scopes[k];
  }

  /** The instances closed by `s` are exactly those it owns. */
  lemma CloseKeepsDisposals(h: History, s: nat)
    requires Valid(h.w, h.epoch) && s < |h.w.scopes| && DisposalsValid(h)
    requires s != 0 || h.epoch == 0 || h.w.scopes[0].disposed
    ensures DisposalsValid(Close(h, s))
  {
    if !h.w.scopes[s].disposed {
      CloseKeepsTimes(h, s);
      ClosingReachesTheDue(h, s);
      DisposalsStayInOrder(h, s);
    }
  }

  lemma {:induction false} ReverseContents(s: seq<Instance>, o: Instance)
    ensures o in Reverse(s) <==> o in s
  {
    var r := Reverse(s);
    if o in s {
      var i :| 0 <= i < |s| && s[i] == o;
      assert r[|s| - 1 - i] == o;
    }
  }

  lemma ClosingReachesTheDue(h: History, s: nat)
    requires Valid(h.w, h.epoch) && s < |h.w.scopes| && DisposalsValid(h) && !h.w.scopes[s].disposed
    ensures forall o :: o in Close(h, s).disposals <==> Due(Close(h, s), o)
  {
    var h' := Close(h, s);
    forall o
      ensures o in h'.disposals <==> Due(h', o)
    {
      OwnedContents(h.w.built, s, o);
      ReverseContents(h.w.scopes[s].tracked, o);
      assert o in h'.disposals <==> o in h.disposals || o in Reverse(h.w.scopes[s].tracked);
      if o in h.w.built {
        var i :| 0 <= i < |h.w.built| && h.w.built[i] == o;
        assert Logged(h.w.built, o);
      }
    }
  }

  lemma OrderAppends(before: seq<Instance>, calls: seq<Instance>)
    requires InOrder(before) && InOrder(calls)
    requires forall x, y :: x in before && y in calls ==> Owner(x) != Owner(y)
    ensures InOrder(before + calls)
  {
    var all := before + calls;
    var n := |before|;
    forall i, j | 0 <= i < j < |all|
      ensures all[i] != all[j] && (Owner(all[i]) == Owner(all[j]) ==> all[i].id > all[j].id)
    {
      if j < n {
        assert all[i] == before[i] && all[j] == before[j];
      } else if i < n {
        assert all[i] in before && all[j] in calls;
      } else {
        assert all[i] == calls[i - n] && all[j] == calls[j - n];
      }
    }
  }

  lemma {:induction false} OwnedReversedIsInOrder(built: seq<Instance>, s: nat)
    requires forall i :: 0 <= i < |built| ==> built[i].id == i
    ensures InOrder(Reverse(Owned(built, s)))
  {
    OwnedIsOrdered(built, s);
  }

  lemma DisposalsStayInOrder(h: History, s: nat)
    requires Valid(h.w, h.epoch) && s < |h.w.scopes| && DisposalsValid(h) && !h.w.scopes[s].disposed
    ensures InOrder(Close(h, s).disposals)
  {
    var calls := Reverse(Owned(h.w.built, s));
    assert Close(h, s).disposals == h.disposals + calls;
    OwnedReversedIsInOrder(h.w.built, s);
    forall x, y | x in h.disposals && y in calls
      ensures Owner(x) != Owner(y)
    {
      assert Due(h, x);
      ReverseContents(Owned(h.w.built, s), y);
      OwnedContents(h.w.built, s, y);
    }
    OrderAppends(h.disposals, calls);
  }

  /** Deliveries depend on the log and the singletons only. */
  lemma DeliveriesStay(h: History, h': History)
    requires DeliveriesValid(h) && h'.deliveries == h.deliveries && h'.w.built == h.w.built
    requires h.epoch <= h'.epoch
    requires h'.epoch == h.epoch ==> h'.w.singletons == h.w.singletons
    ensures DeliveriesValid(h')
  {
    forall i | 0 <= i < |h'.deliveries|
      ensures DeliveryValid(h', h'.deliveries[i])
    {
      assert DeliveryValid(h, h.deliveries[i]);
    }
  }

  lemma CloseKeepsInvariant(h: History, s: nat)
    requires Invariant(h) && 0 < s < |h.w.scopes|
    ensures Invariant(Close(h, s))
  {
    CloseKeepsValid(h, s);
    CloseKeepsDisposals(h, s);
    DeliveriesStay(h, Close(h, s));
    CloseKeepsRegistered(h, s);
  }

  lemma CloseKeepsRegistered(h: History, s: nat)
    requires CachesRegistered(h) && s < |h.w.scopes|
    ensures CachesRegistered(Close(h, s))
  {
    var h' := Close(h, s);
    assert forall k :: 0 <= k < |h.w.scopes| && k != s ==> h'.w.scopes[k] == h.w.scopes[k];
  }

  lemma {:induction false} OwnedIsEmpty(built: seq<Instance>, k: nat)
    requires 0 < k && forall i :: 0 <= i < |built| ==> built[i].scope < k
    ensures Owned(built, k) == []
  {
    if built != [] {
      OwnedIsEmpty(built[..|built| - 1], k);
    }
  }

  lemma CreateScopeKeepsInvariant(h: History)
    requires Invariant(h)
    ensures Invariant(Step(h, CreateScope))
  {
    CreateScopeKeepsValid(h);
    DeliveriesStay(h, Step(h, CreateScope));
    CreateScopeKeepsDisposals(h);
    CreateScopeKeepsRegistered(h);
  }

  lemma CreateScopeKeepsRegistered(h: History)
    requires 0 < |h.w.scopes| && CachesRegistered(h)
    ensures CachesRegistered(Step(h, CreateScope))
  {
    var h' := Step(h, CreateScope);
    assert forall k :: 0 <= k < |h.w.scopes| ==> h'.w.scopes[k] == h.w.scopes[k];
  }

  lemma CreateScopeKeepsValid(h: History)
    requires Valid(h.w, h.epoch)
    ensures Valid(Step(h, CreateScope).w, h.epoch)
  {
    var w' := Step(h, CreateScope).w;
    var n := |h.w.scopes|;
    assert forall k :: 0 <= k < n ==> w'.scopes[k] == h.w.scopes[k];
    assert w'.scopes[n] == EMPTY_SCOPE;
    CreateScopeKeepsTracking(h, w');
    assert CachesValid(w') && LogValid(w');
    assert forall i :: 0 <= i < |h.w.built| && LiveScoped(w', h.w.built[i]) ==> LiveScoped(h.w, h.w.built[i]);
  }

  lemma CreateScopeKeepsTracking(h: History, w': World)
    requires TracksOwned(h.w) && LogValid(h.w) && w'.built == h.w.built
    requires w'.scopes == h.w.scopes + [EMPTY_SCOPE] && 0 < |h.w.scopes|
    ensures TracksOwned(w')
  {
    var n := |h.w.scopes|;
    assert forall k :: 0 <= k < n ==> w'.scopes[k] == h.w.scopes[k];
    OwnedIsEmpty(h.w.built, n);
  }

  lemma CreateScopeKeepsDisposals(h: History)
    requires 0 < |h.w.scopes| && DisposalsValid(h)
    ensures DisposalsValid(Step(h, CreateScope))
  {
    var h' := Step(h, CreateScope);
    var n := |h.w.scopes|;
    assert forall k :: 0 <= k < n ==> h'.w.scopes[k] == h.w.scopes[k];
    assert forall o :: Due(h', o) <==> Due(h, o);
  }

  lemma RegisterKeepsInvariant(h: History, t: Token, r: Registration)
    requires Invariant(h)
    ensures Invariant(Step(h, Register(t, r)))
  {
    if t !in h.regs {
      var h' := Step(h, Register(t, r));
      RegisterKeepsRegistered(h, t, r);
      DeliveriesStay(h, h');
      DisposalsStay(h, h');
    }
  }

  lemma RegisterKeepsRegistered(h: History, t: Token, r: Registration)
    requires 0 < |h.w.scopes| && CachesRegistered(h) && t !in h.regs
    ensures CachesRegistered(Step(h, Register(t, r)))
  {
    forall u | WellFormed(h.regs, u)
      ensures WellFormed(h.regs[t := r], u)
    {
      WellFormedIsStable(h.regs, t, r, u);
    }
  }

  lemma DisposalsStay(h: History, h': History)
    requires DisposalsValid(h) && h'.disposals == h.disposals && h'.closedAt == h.closedAt
    requires h'.w.built == h.w.built && h'.w.scopes == h.w.scopes
    ensures DisposalsValid(h')
  {
    assert forall o :: Due(h', o) <==> Due(h, o);
  }

  /** Disposing of the container closes the root scope and empties registrations and singletons. */
  lemma DisposeContainerKeepsInvariant(h: History)
    requires Invariant(h)
    ensures Invariant(Step(h, DisposeContainer))
  {
    CloseKeepsValid(h, 0);
    CloseKeepsDisposals(h, 0);
    ForgettingKeepsInvariant(h, Close(h, 0), Step(h, DisposeContainer));
  }

  lemma ForgettingKeepsInvariant(h: History, closed: History, h': History)
    requires Invariant(h) && Valid(closed.w, h.epoch) && DisposalsValid(closed)
    requires closed.w.built == h.w.built && closed.deliveries == h.deliveries && closed.w.scopes[0].disposed
    requires h' == closed.(w := closed.w.(singletons := map[]), regs := map[], epoch := |h.w.built|)
    ensures Invariant(h')
  {
    DisposalsStay(closed, h');
    ForgettingKeepsValid(closed.w, h.epoch);
    if h.epoch == |h.w.built| {
      SingletonsAreRecent(h.w, h.epoch);
    }
    DeliveriesStay(h, h');
  }

  lemma SingletonsAreRecent(w: World, epoch: nat)
    requires CachesValid(w) && BuiltIsCached(w, epoch) && epoch == |w.built|
    ensures w.singletons == map[]
  {
    forall t
      ensures t !in w.singletons
    {
      if t in w.singletons {
        CachedIsRecent(w, epoch, t);
      }
    }
  }

  lemma CachedIsRecent(w: World, epoch: nat, t: Token)
    requires CachesValid(w) && BuiltIsCached(w, epoch) && t in w.singletons
    ensures epoch < |w.built|
  {
  }

  lemma ForgettingKeepsValid(w: World, epoch: nat)
    requires Valid(w, epoch)
    ensures Valid(w.(singletons := map[]), |w.built|)
  {
    var w' := w.(singletons := map[]);
    assert forall i :: 0 <= i < |w.built| && LiveScoped(w', w.built[i]) ==> LiveScoped(w, w.built[i]);
  }

  lemma {:induction false} DeliverKeepsInvariant(h: History, s: nat, t: Token)
    requires Invariant(h) && s < |h.w.scopes|
    ensures Invariant(Deliver(h, s, Resolve(h.regs, h.w, s, [], None, t)))
  {
    var (w', r) := Resolve(h.regs, h.w, s, [], None, t);
    if h.w.scopes[s].disposed {
      assert Deliver(h, s, (w', r)) == h;
    } else {
      ResolveIsStep(h, s, t);
      ResolveKeepsInvariant(h, s, t, w', r);
    }
  }

  lemma StepKeepsInvariant(h: History, op: Op)
    requires Invariant(h)
    ensures Invariant(Step(h, op))
  {
    match op
    case Register(t, r) => RegisterKeepsInvariant(h, t, r);
    case CreateScope => CreateScopeKeepsInvariant(h);
    case ResolveIn(s, t) =>
      if 1 <= s < |h.w.scopes| {
        DeliverKeepsInvariant(h, s, t);
      }
    case ResolveRoot(t) => DeliverKeepsInvariant(h, 0, t);
    case DisposeScope(s) =>
      if 1 <= s < |h.w.scopes| {
        CloseKeepsInvariant(h, s);
      }
    case DisposeContainer => DisposeContainerKeepsInvariant(h);
  }

  lemma {:induction false} RunFromKeepsInvariant(h: History, ops: seq<Op>)
    requires Invariant(h)
    ensures Invariant(RunFrom(h, ops))
    decreases |ops|
  {
    if ops == [] {
    } else {
      StepKeepsInvariant(h, ops[0]);
      RunFromKeepsInvariant(Step(h, ops[0]), ops[1..]);
    }
  }

  lemma RunKeepsInvariant(ops: seq<Op>)
    ensures Invariant(Run(ops))
  {
    RunFromKeepsInvariant(Initial(), ops);
  }
}
