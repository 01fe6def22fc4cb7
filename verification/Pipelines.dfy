/**
  The command pipeline: behaviours wrapped around a handler.  A delegate maps the
  world it is called in to the world it leaves and an outcome; a behaviour turns
  the next delegate into a new one.
 */
module Pipelines {
  import opened Wrappers
  import opened TtlStore
  import I = Idempotency
  import IdempotencyStores

  datatype ErrorCode = ConflictCode | SystemErrorCode | OtherCode(name: string)

  datatype AppError = AppError(code: ErrorCode, status: int)

  datatype Thrown = ThrownAppError(error: AppError) | ThrownOther(cause: int)

  datatype Outcome = Ok(payload: Payload) | Fail(error: AppError) | Throw(thrown: Thrown)

  const CONFLICT_STATUS := 409
  const SYSTEM_STATUS := 500
  const CONFLICT := AppError(ConflictCode, CONFLICT_STATUS)

  datatype Event = HandlerRan(outcome: Outcome) | Delayed | LockTried

  /** `inner` is everything the handler and the observers see; `trace` records the events of this request. */
  datatype World<S> = World(store: Store<I.Stored>, inner: S, trace: seq<Event>)

  type Delegate<!S> = World<S> -> (World<S>, Outcome)

  type Behavior<!S> = Delegate<S> -> Delegate<S>

  // ---- Composition ----------------------------------------------------------

  /** The behaviours around `next`, the first one outermost. */
  function Nest<S>(bs: seq<Behavior<S>>, next: Delegate<S>): Delegate<S> {
    if bs == [] then next else bs[0](Nest(bs[1..], next))
  }

  /** `CompositePipeline.handle`: the loop wraps from the last behaviour to the first. */
  method CompositeHandle<S>(pipelines: seq<Behavior<S>>, next: Delegate<S>, w: World<S>)
    returns (w': World<S>, out: Outcome)
    ensures (w', out) == Nest(pipelines, next)(w)
  {
    var currentNext := next;
    var i := |pipelines|;
    while i > 0
      invariant 0 <= i <= |pipelines|
      invariant currentNext == Nest(pipelines[i..], next)
    {
      i := i - 1;
      assert pipelines[i..][1..] == pipelines[i + 1..];
      currentNext := pipelines[i](currentNext);
    }
    assert pipelines[0..] == pipelines;
    var r := currentNext(w);
    w', out := r.0, r.1;
  }

  /** Composing two lists is composing the composite of the first around that of the second. */
  lemma {:induction false} NestSplits<S>(a: seq<Behavior<S>>, b: seq<Behavior<S>>, next: Delegate<S>)
    ensures Nest(a + b, next) == Nest(a, Nest(b, next))
  {
    if a == [] {
      assert a + b == b;
    } else {
      NestSplits(a[1..], b, next);
      assert (a + b)[1..] == a[1..] + b;
    }
  }

  /** A behaviour that never calls its delegate hides everything after it, handler included. */
  lemma {:induction false} ShortCircuit<S>(
    a: seq<Behavior<S>>, b: Behavior<S>, c: seq<Behavior<S>>, c': seq<Behavior<S>>,
    next: Delegate<S>, next': Delegate<S>)
    requires forall n, n' :: b(n) == b(n')
    ensures Nest(a + [b] + c, next) == Nest(a + [b] + c', next')
  {
    NestSplits(a + [b], c, next);
    NestSplits(a + [b], c', next');
    NestSplits(a, [b], Nest(c, next));
    NestSplits(a, [b], Nest(c', next'));
    assert [b][1..] == [];
    assert Nest([b], Nest(c, next)) == b(Nest(c, next));
    assert Nest([b], Nest(c', next')) == b(Nest(c', next'));
  }

  // ---- The behaviours of a command --------------------------------------------

  /** `ExceptionPipeline`: a thrown application error is returned, anything else becomes a system error. */
  function Barrier(out: Outcome): Outcome {
    match out
    case Throw(ThrownAppError(e)) => Fail(e)
    case Throw(ThrownOther(_)) => Fail(AppError(SystemErrorCode, SYSTEM_STATUS))
    case _ => out
  }

  /** A result stays what it is, a thrown application error is returned, anything else is a system error with 500. */
  ghost predicate Caught(out: Outcome, answer: Outcome) {
    match out
    case Ok(p) => answer == Ok(p)
    case Fail(e) => answer == Fail(e)
    case Throw(ThrownAppError(e)) => answer == Fail(e)
    case Throw(ThrownOther(_)) => answer == Fail(AppError(SystemErrorCode, 500))
  }

  function ExceptionBehavior<S>(): Behavior<S> {
    (next: Delegate<S>) => (w: World<S>) => var (w', out) := next(w); (w', Barrier(out))
  }

  /**
    Logging, performance, authorization and validation: each may look at the request
    and refuse it before calling on, and may look at the outcome but returns it as is.
   */
  datatype Observer<!S> = Observer(refuse: S -> (S, Option<Outcome>), observe: (S, Outcome) -> S)

  function ObserverBehavior<S>(o: Observer<S>): Behavior<S> {
    (next: Delegate<S>) => (w: World<S>) => Observe(o, next, w)
  }

  function Observe<S>(o: Observer<S>, next: Delegate<S>, w: World<S>): (World<S>, Outcome) {
    var (s, refusal) := o.refuse(w.inner);
    match refusal
    case Some(out) => (w.(inner := s), out)
    case None =>
      var (w', out) := next(w.(inner := s));
      (w'.(inner := o.observe(w'.inner, out)), out)
  }

  function ObserverBehaviors<S>(os: seq<Observer<S>>): (bs: seq<Behavior<S>>)
    ensures |bs| == |os|
  {
    if os == [] then [] else [ObserverBehavior(os[0])] + ObserverBehaviors(os[1..])
  }

  /** The keys of the request's id and the configured lifetimes, or no network context to take the id from. */
  type Identified = Option<I.Config>

  /** The idempotency layer around `next`, over the shared store. */
  function IdempotencyBehavior<S>(id: Identified): Behavior<S> {
    (next: Delegate<S>) => (w: World<S>) => Guard(id, next, w)
  }

  /** `IdempotencyPipeline.handle`: a conflict without an id, else the answer under it. */
  function Guard<S>(id: Identified, next: Delegate<S>, w: World<S>): (World<S>, Outcome) {
    if id.None? then (w, Fail(CONFLICT)) else GuardId(id.value, next, w)
  }

  /** Answers from the record, or runs `next` under the lock. */
  function GuardId<S>(cfg: I.Config, next: Delegate<S>, w: World<S>): (World<S>, Outcome) {
    if Live(w.store, cfg.processedKey) then
      (w, match I.Replayed(Lookup(w.store, cfg.processedKey)) case Ok(p) => Ok(p) case _ => Fail(CONFLICT))
    else
      var tried := w.(trace := w.trace + [LockTried]);
      if Live(w.store, cfg.lockKey) then (tried, Fail(CONFLICT))
      else
        var (w', out) := next(tried.(store := Put(w.store, cfg.lockKey, I.LockMark, cfg.lockTtl)));
        match out
        case Ok(p) => (w'.(store := Put(w'.store, cfg.processedKey, I.Processed(p), cfg.processedTtl)), out)
        case _ => (w'.(store := Delete(w'.store, cfg.lockKey)), out)
  }

  predicate IsConcurrencyError(out: Outcome) {
    out.Fail? && out.error.code == ConflictCode && out.error.status == CONFLICT_STATUS
  }

  function Delay<S>(w: World<S>): World<S> {
    w.(trace := w.trace + [Delayed])
  }

  /** The retry loop with `left` attempts to go. */
  function Attempt<S>(next: Delegate<S>, w: World<S>, left: nat): (World<S>, Outcome)
    requires 0 < left
    decreases left
  {
    var (w', out) := next(w);
    if !IsConcurrencyError(out) then (w', out)
    else if left == 1 then (w', Fail(CONFLICT))
    else Attempt(next, Delay(w'), left - 1)
  }

  function RetryBehavior<S>(maxRetries: nat): Behavior<S>
    requires 0 < maxRetries
  {
    (next: Delegate<S>) => (w: World<S>) => Attempt(next, w, maxRetries)
  }

  /** `ConcurrencyRetryPipeline.handle`, with its attempt counter. */
  method RetryHandle<S>(maxRetries: nat, next: Delegate<S>, w: World<S>) returns (w': World<S>, out: Outcome)
    requires 0 < maxRetries
    ensures (w', out) == RetryBehavior(maxRetries)(next)(w)
  {
    var attempts := 0;
    w' := w;
    while true
      invariant 0 <= attempts < maxRetries
      invariant Attempt(next, w, maxRetries) == Attempt(next, w', maxRetries - attempts)
      decreases maxRetries - attempts
    {
      attempts := attempts + 1;
      var r := next(w');
      w', out := r.0, r.1;
      if !IsConcurrencyError(out) {
        return;
      }
      if attempts >= maxRetries {
        return w', Fail(CONFLICT);
      }
      w' := Delay(w');
    }
  }

  /** The handler: it may change the store and the inner state at will, return or throw. */
  type Handler<!S> = (Store<I.Stored>, S) -> (Store<I.Stored>, S, Outcome)

  function Call<S>(handler: Handler<S>): Delegate<S> {
    (w: World<S>) =>
      var (store, inner, out) := handler(w.store, w.inner);
      (World(store, inner, w.trace + [HandlerRan(out)]), out)
  }

  // ---- What the retry loop records --------------------------------------------

  /** The outcomes of the handler calls, one delay between any two. */
  function Calls(outs: seq<Outcome>): seq<Event> {
    if outs == [] then []
    else [HandlerRan(outs[0])] + (if |outs| == 1 then [] else [Delayed] + Calls(outs[1..]))
  }

  /** Every call but the last ended in a concurrency error; the last did only if it was the last allowed. */
  predicate RetryShape(outs: seq<Outcome>, maxRetries: nat) {
    && 1 <= |outs| <= maxRetries
    && (forall i :: 0 <= i < |outs| - 1 ==> IsConcurrencyError(outs[i]))
    && (IsConcurrencyError(outs[|outs| - 1]) ==> |outs| == maxRetries)
  }

  function Verdict(outs: seq<Outcome>): Outcome
    requires outs != []
  {
    if IsConcurrencyError(outs[|outs| - 1]) then Fail(CONFLICT) else outs[|outs| - 1]
  }

  lemma {:induction false} RetryRecords<S>(handler: Handler<S>, w: World<S>, left: nat) returns (outs: seq<Outcome>)
    requires 0 < left
    ensures RetryShape(outs, left)
    ensures var (w', out) := Attempt(Call(handler), w, left);
      w'.trace == w.trace + Calls(outs) && out == Verdict(outs)
    decreases left
  {
    var (w', out) := Call(handler)(w);
    if IsConcurrencyError(out) && left > 1 {
      var rest := RetryRecords(handler, Delay(w'), left - 1);
      outs := [out] + rest;
      assert outs[1..] == rest;
      assert Delay(w').trace + Calls(rest) == w.trace + Calls(outs);
    } else {
      outs := [out];
    }
  }

  function HandlerCalls(trace: seq<Event>): nat {
    if trace == [] then 0 else (if trace[0].HandlerRan? then 1 else 0) + HandlerCalls(trace[1..])
  }

  function Delays(trace: seq<Event>): nat {
    if trace == [] then 0 else (if trace[0].Delayed? then 1 else 0) + Delays(trace[1..])
  }

  function LockTries(trace: seq<Event>): nat {
    if trace == [] then 0 else (if trace[0].LockTried? then 1 else 0) + LockTries(trace[1..])
  }

  /** One delay between consecutive calls, none before, none after. */
  lemma {:induction false} DelaysSeparateCalls(outs: seq<Outcome>)
    requires outs != []
    ensures HandlerCalls(Calls(outs)) == |outs|
    ensures Delays(Calls(outs)) == |outs| - 1
    ensures LockTries(Calls(outs)) == 0
  {
    var calls := Calls(outs);
    if |outs| > 1 {
      DelaysSeparateCalls(outs[1..]);
      assert calls[1..] == [Delayed] + Calls(outs[1..]);
      assert calls[1..][1..] == Calls(outs[1..]);
    } else {
      assert calls[1..] == [];
    }
  }

  // ---- The assembled chain ----------------------------------------------------

  /** Which optional layers the command bus is configured with. */
  datatype CommandBus = CommandBus(idempotency: Option<Identified>, maxRetries: Option<nat>)

  predicate ValidBus(bus: CommandBus) {
    bus.maxRetries.Some? ==> 0 < bus.maxRetries.value
  }

  function CommandBehaviors<S>(bus: CommandBus): seq<Behavior<S>>
    requires ValidBus(bus)
  {
    (if bus.idempotency.Some? then [IdempotencyBehavior(bus.idempotency.value)] else []) +
    (if bus.maxRetries.Some? then [RetryBehavior(bus.maxRetries.value)] else [])
  }

  /** The order in which `CqrsModule` composes a command: barrier, observers, command bus, handler. */
  function Chain<S>(os: seq<Observer<S>>, bus: CommandBus, handler: Handler<S>): Delegate<S>
    requires ValidBus(bus)
  {
    Nest([ExceptionBehavior()] + ObserverBehaviors(os) + CommandBehaviors(bus), Call(handler))
  }

  /** What the command bus does around the handler. */
  function Core<S>(bus: CommandBus, handler: Handler<S>): Delegate<S>
    requires ValidBus(bus)
  {
    Nest(CommandBehaviors(bus), Call(handler))
  }

  /** Most calls the bus may make. */
  function Limit(bus: CommandBus): nat {
    if bus.maxRetries.Some? then bus.maxRetries.value else 1
  }

  /**
    Everything the bus can record and answer: a replay without a trace, a conflict after
    a lone failed lock attempt, or one round of handler calls with its verdict, preceded
    by one lock attempt if there is an idempotency layer.
   */
  ghost predicate BusTrace(bus: CommandBus, t: seq<Event>, out: Outcome) {
    || (bus.idempotency.Some? && t == [] && (out.Ok? || out == Fail(CONFLICT)))
    || (bus.idempotency.Some? && t == [LockTried] && out == Fail(CONFLICT))
    || exists outs :: Round(bus, outs, t, out)
  }

  ghost predicate Round(bus: CommandBus, outs: seq<Outcome>, t: seq<Event>, out: Outcome) {
    && AllowedCalls(bus.maxRetries, outs)
    && out == (if bus.maxRetries.Some? then Verdict(outs) else outs[0])
    && t == (if bus.idempotency.Some? then [LockTried] else []) + Calls(outs)
  }

  predicate AllowedCalls(maxRetries: Option<nat>, outs: seq<Outcome>) {
    if maxRetries.Some? then RetryShape(outs, maxRetries.value) else |outs| == 1
  }

  /** The retry layer, if configured, around the handler. */
  function Inner<S>(maxRetries: Option<nat>, handler: Handler<S>): Delegate<S>
    requires maxRetries.Some? ==> 0 < maxRetries.value
  {
    if maxRetries.Some? then RetryBehavior(maxRetries.value)(Call(handler)) else Call(handler)
  }

  lemma CoreUnfolds<S>(bus: CommandBus, handler: Handler<S>)
    requires ValidBus(bus)
    ensures Core(bus, handler) ==
      if bus.idempotency.Some? then IdempotencyBehavior(bus.idempotency.value)(Inner(bus.maxRetries, handler))
      else Inner(bus.maxRetries, handler)
  {
    var retry: seq<Behavior<S>> := if bus.maxRetries.Some? then [RetryBehavior(bus.maxRetries.value)] else [];
    assert Nest(retry, Call(handler)) == Inner(bus.maxRetries, handler) by {
      if bus.maxRetries.Some? {
        assert retry[1..] == [];
      }
    }
    if bus.idempotency.Some? {
      var guard: Behavior<S> := IdempotencyBehavior(bus.idempotency.value);
      NestSplits([guard], retry, Call(handler));
      assert [guard][1..] == [];
    } else {
      assert [] + retry == retry;
    }
  }

  lemma CoreRecords<S>(bus: CommandBus, handler: Handler<S>, w: World<S>) returns (t: seq<Event>)
    requires ValidBus(bus)
    ensures Core(bus, handler)(w).0.trace == w.trace + t
    ensures BusTrace(bus, t, Core(bus, handler)(w).1)
  {
    CoreUnfolds(bus, handler);
    if bus.idempotency.Some? {
      t := GuardRecords(bus, handler, w);
    } else {
      var outs := InnerRecords(bus.maxRetries, handler, w);
      t := Calls(outs);
      assert [] + Calls(outs) == t;
      assert Round(bus, outs, t, Core(bus, handler)(w).1);
    }
  }

  lemma GuardRecords<S>(bus: CommandBus, handler: Handler<S>, w: World<S>) returns (t: seq<Event>)
    requires ValidBus(bus) && bus.idempotency.Some?
    ensures var (w', out) := Guard(bus.idempotency.value, Inner(bus.maxRetries, handler), w);
      w'.trace == w.trace + t && BusTrace(bus, t, out)
  {
    if bus.idempotency.value.None? {
      t := [];
      assert w.trace + [] == w.trace;
      return;
    }
    var cfg := bus.idempotency.value.value;
    if Live(w.store, cfg.processedKey) {
      t := [];
      assert w.trace + [] == w.trace;
    } else if Live(w.store, cfg.lockKey) {
      t := [LockTried];
    } else {
      var locked := w.(trace := w.trace + [LockTried]).(
        store := Put(w.store, cfg.lockKey, I.LockMark, cfg.lockTtl));
      var outs := InnerRecords(bus.maxRetries, handler, locked);
      t := [LockTried] + Calls(outs);
      assert locked.trace + Calls(outs) == w.trace + t;
      assert Round(bus, outs, t, GuardId(cfg, Inner(bus.maxRetries, handler), w).1);
    }
  }

  lemma InnerRecords<S>(maxRetries: Option<nat>, handler: Handler<S>, w: World<S>) returns (outs: seq<Outcome>)
    requires maxRetries.Some? ==> 0 < maxRetries.value
    ensures AllowedCalls(maxRetries, outs)
    ensures var (w', out) := Inner(maxRetries, handler)(w);
      w'.trace == w.trace + Calls(outs) && out == (if maxRetries.Some? then Verdict(outs) else outs[0])
  {
    if maxRetries.Some? {
      outs := RetryRecords(handler, w, maxRetries.value);
    } else {
      outs := [Call(handler)(w).1];
    }
  }

  /** Observers add nothing of their own to the trace and call on at most once. */
  lemma {:induction false} ObserversPassTraces<S>(
    os: seq<Observer<S>>, bus: CommandBus, handler: Handler<S>, w: World<S>) returns (t: seq<Event>)
    requires ValidBus(bus)
    ensures var (w', out) := Nest(ObserverBehaviors(os), Core(bus, handler))(w);
      w'.trace == w.trace + t && (t == [] || BusTrace(bus, t, out))
  {
    if os == [] {
      t := CoreRecords(bus, handler, w);
    } else {
      var bs := ObserverBehaviors(os);
      assert bs[1..] == ObserverBehaviors(os[1..]);
      var (s, refusal) := os[0].refuse(w.inner);
      if refusal.Some? {
        t := [];
        assert w.trace + [] == w.trace;
      } else {
        t := ObserversPassTraces(os[1..], bus, handler, w.(inner := s));
      }
    }
  }

  lemma {:induction false} ChainUnfolds<S>(os: seq<Observer<S>>, bus: CommandBus, handler: Handler<S>)
    requires ValidBus(bus)
    ensures Chain(os, bus, handler) == ExceptionBehavior()(Nest(ObserverBehaviors(os), Core(bus, handler)))
  {
    var eb: Behavior<S> := ExceptionBehavior();
    NestSplits([eb] + ObserverBehaviors(os), CommandBehaviors(bus), Call(handler));
    NestSplits([eb], ObserverBehaviors(os), Core(bus, handler));
    assert [eb][1..] == [];
  }

  /**
    For every handler, observers and store: the chain never throws, and unless it
    recorded nothing it recorded one pass through the bus and answers with its result.
   */
  lemma ChainGuarantees<S>(os: seq<Observer<S>>, bus: CommandBus, handler: Handler<S>, w: World<S>)
    returns (t: seq<Event>)
    requires ValidBus(bus)
    ensures !Chain(os, bus, handler)(w).1.Throw?
    ensures Chain(os, bus, handler)(w).0.trace == w.trace + t
    ensures t == [] || exists out :: BusTrace(bus, t, out) && Caught(out, Chain(os, bus, handler)(w).1)
  {
    ChainUnfolds(os, bus, handler);
    t := ObserversPassTraces(os, bus, handler, w);
    BarrierCatches(Nest(ObserverBehaviors(os), Core(bus, handler)), w);
  }

  /** The exception layer around anything: it changes nothing but what is thrown. */
  lemma BarrierCatches<S>(next: Delegate<S>, w: World<S>)
    ensures var (w', answer) := ExceptionBehavior()(next)(w);
      w' == next(w).0 && Caught(next(w).1, answer) && !answer.Throw?
  {
  }

  lemma {:induction false} BusCounts(bus: CommandBus, t: seq<Event>, out: Outcome)
    requires ValidBus(bus) && (t == [] || BusTrace(bus, t, out))
    ensures LockTries(t) <= 1 && HandlerCalls(t) <= Limit(bus)
    ensures Delays(t) == if HandlerCalls(t) == 0 then 0 else HandlerCalls(t) - 1
  {
    if t != [] && t != [LockTried] {
      var outs :| Round(bus, outs, t, out);
      DelaysSeparateCalls(outs);
      if bus.idempotency.Some? {
        assert t[1..] == Calls(outs);
      } else {
        assert t == Calls(outs);
      }
    } else {
      assert [LockTried][1..] == [];
    }
  }

  /** The same in numbers: lock attempts, handler calls and delays of one request. */
  lemma ChainCounts<S>(os: seq<Observer<S>>, bus: CommandBus, handler: Handler<S>, w: World<S>)
    requires ValidBus(bus)
    ensures exists t :: Chain(os, bus, handler)(w).0.trace == w.trace + t && WithinBounds(bus, t)
  {
    var t := ChainGuarantees(os, bus, handler, w);
    if t == [] {
      BusCounts(bus, t, Fail(CONFLICT));
    } else {
      var out :| BusTrace(bus, t, out);
      BusCounts(bus, t, out);
    }
    assert WithinBounds(bus, t);
  }

  predicate WithinBounds(bus: CommandBus, t: seq<Event>) {
    && LockTries(t) <= 1 && HandlerCalls(t) <= Limit(bus)
    && Delays(t) == if HandlerCalls(t) == 0 then 0 else HandlerCalls(t) - 1
  }

  /**
    Around the handler, `bs` is the idempotency layer around the whole retry loop: one lock
    attempt at most, however often the handler is called.
   */
  ghost predicate GuardsOnce<S>(bus: CommandBus, bs: seq<Behavior<S>>, handler: Handler<S>, w: World<S>)
    requires ValidBus(bus)
  {
    && Nest(bs, Call(handler))(w) == (
      if bus.idempotency.Some? then Guard(bus.idempotency.value, Inner(bus.maxRetries, handler), w)
      else Inner(bus.maxRetries, handler)(w))
    && exists t :: Nest(bs, Call(handler))(w).0.trace == w.trace + t && WithinBounds(bus, t)
  }

  lemma BusGuardsOnce<S>(bus: CommandBus, handler: Handler<S>, w: World<S>)
    requires ValidBus(bus)
    ensures GuardsOnce(bus, CommandBehaviors(bus), handler, w)
  {
    CoreUnfolds(bus, handler);
    var t := CoreRecords(bus, handler, w);
    BusCounts(bus, t, Core(bus, handler)(w).1);
    assert WithinBounds(bus, t);
  }

  /** `PipelineUtils.addCommand`: idempotency is pushed first, so it wraps the retry loop. */
  method AddCommand<S>(bus: CommandBus) returns (pipelines: seq<Behavior<S>>)
    requires ValidBus(bus)
    ensures forall handler: Handler<S>, w: World<S> :: GuardsOnce(bus, pipelines, handler, w)
  {
    pipelines := [];
    if bus.idempotency.Some? {
      pipelines := pipelines + [IdempotencyBehavior(bus.idempotency.value)];
    }
    if bus.maxRetries.Some? {
      pipelines := pipelines + [RetryBehavior(bus.maxRetries.value)];
    }
    assert pipelines == CommandBehaviors(bus);
    forall handler: Handler<S>, w: World<S>
      ensures GuardsOnce(bus, pipelines, handler, w)
    {
      BusGuardsOnce(bus, handler, w);
    }
  }

  // ---- The layer and the protocol -------------------------------------------------

  /** The two stores have the same clock and the same under the request's two keys. */
  predicate SameKeys(cfg: I.Config, a: Store<I.Stored>, b: Store<I.Stored>) {
    && a.now == b.now && Under(a, cfg.lockKey) == Under(b, cfg.lockKey)
    && Under(a, cfg.processedKey) == Under(b, cfg.processedKey)
  }

  function Under(store: Store<I.Stored>, k: Key): Option<Entry<I.Stored>> {
    if k in store.entries then Some(store.entries[k]) else None
  }

  /** What the layer runs has taken `ms` and left the two keys alone. */
  ghost predicate LeavesKeysAlone<S>(cfg: I.Config, next: Delegate<S>, w: World<S>, ms: nat) {
    SameKeys(cfg, next(w).0.store, Advance(w.store, ms))
  }

  /** The world the layer hands to what it runs. */
  function Locked<S>(cfg: I.Config, w: World<S>): World<S> {
    w.(trace := w.trace + [LockTried], store := Put(w.store, cfg.lockKey, I.LockMark, cfg.lockTtl))
  }

  /** The protocol's view of an outcome; which error it was does not matter to it. */
  function Seen(out: Outcome): I.HandlerOutcome {
    match out
    case Ok(p) => I.Succeeds(p)
    case Fail(_) => I.Fails(0)
    case Throw(_) => I.Throws
  }

  /**
    The layer's answer where the protocol's response is `r` and what it ran came to `out`:
    a failure stays that failure and a throw that throw.
   */
  ghost predicate AnswersTo(r: I.Response, out: Outcome, answer: Outcome) {
    match r
    case Ok(p) => answer == Ok(p)
    case Conflict => answer == Fail(CONFLICT)
    case Failure(_) => out.Fail? && answer == out
    case Threw => out.Throw? && answer == out
  }

  /**
    The layer around anything that leaves its two keys alone does and answers what the
    protocol machine does in one of its runs, whatever the requests before it have done.
   */
  lemma GuardIsARun<S>(cfg: I.Config, next: Delegate<S>, w: World<S>, ms: nat, st: I.State, r: nat)
    returns (acts: seq<I.Action>, response: I.Response)
    requires cfg.lockKey != cfg.processedKey && LeavesKeysAlone(cfg, next, Locked(cfg, w), ms)
    requires st.store == w.store && r !in st.requests
    ensures I.IsRun(cfg, I.Unrestricted, st, acts) && I.In(I.After(cfg, st, acts), r, I.Done(response))
    ensures SameKeys(cfg, GuardId(cfg, next, w).0.store, I.After(cfg, st, acts).store)
    ensures AnswersTo(response, next(Locked(cfg, w)).1, GuardId(cfg, next, w).1)
  {
    var seen := Seen(next(Locked(cfg, w)).1);
    IdempotencyStores.SoloIsARun(cfg, st, r, seen, ms);
    acts := IdempotencyStores.SoloActions(cfg, st, r, seen, ms);
    response := IdempotencyStores.Solo(cfg, st.store, seen, ms).1;
    GuardIsSolo(cfg, next, w, ms);
  }

  lemma GuardIsSolo<S>(cfg: I.Config, next: Delegate<S>, w: World<S>, ms: nat)
    requires cfg.lockKey != cfg.processedKey && LeavesKeysAlone(cfg, next, Locked(cfg, w), ms)
    ensures var out := next(Locked(cfg, w)).1;
      var (store, response) := IdempotencyStores.Solo(cfg, w.store, Seen(out), ms);
      && SameKeys(cfg, GuardId(cfg, next, w).0.store, store)
      && AnswersTo(response, out, GuardId(cfg, next, w).1)
  {
    var tried := w.(trace := w.trace + [LockTried]);
    assert tried.(store := Put(w.store, cfg.lockKey, I.LockMark, cfg.lockTtl)) == Locked(cfg, w);
  }

  // ---- Why the order matters --------------------------------------------------

  /** Every attempt of a locked request tries the lock once. */
  function LockAttempts(n: nat): seq<Event> {
    if n == 0 then [] else [LockTried] + (if n == 1 then [] else [Delayed] + LockAttempts(n - 1))
  }

  /**
    With the retry loop outside, the idempotency layer's own conflict would be taken
    for a concurrency error and tried again as often as allowed.
   */
  lemma {:induction false} SwappedOrderRetriesConflict<S>(
    cfg: I.Config, maxRetries: nat, handler: Handler<S>, w: World<S>)
    requires 0 < maxRetries && Live(w.store, cfg.lockKey) && !Live(w.store, cfg.processedKey)
    ensures var (w', out) := Attempt(IdempotencyBehavior(Some(cfg))(Call(handler)), w, maxRetries);
      w'.trace == w.trace + LockAttempts(maxRetries) && out == Fail(CONFLICT)
  {
    if maxRetries > 1 {
      var w1 := Delay(GuardId(cfg, Call(handler), w).0);
      SwappedOrderRetriesConflict(cfg, maxRetries - 1, handler, w1);
      assert w1.trace + LockAttempts(maxRetries - 1) == w.trace + LockAttempts(maxRetries);
    }
  }

  /** In the order the module composes them, the same request tries once and gives up. */
  lemma ConflictIsNotRetried<S>(
    cfg: I.Config, maxRetries: nat, handler: Handler<S>, w: World<S>)
    requires 0 < maxRetries && Live(w.store, cfg.lockKey) && !Live(w.store, cfg.processedKey)
    ensures var (w', out) := Core(CommandBus(Some(Some(cfg)), Some(maxRetries)), handler)(w);
      w' == w.(trace := w.trace + [LockTried]) && out == Fail(CONFLICT)
  {
    CoreUnfolds(CommandBus(Some(Some(cfg)), Some(maxRetries)), handler);
  }

  /** Without a network context the command is answered with a conflict, and nothing else happens. */
  lemma NoContextNoCommand<S>(maxRetries: Option<nat>, handler: Handler<S>, w: World<S>)
    requires maxRetries.Some? ==> 0 < maxRetries.value
    ensures Core(CommandBus(Some(None), maxRetries), handler)(w) == (w, Fail(CONFLICT))
  {
    CoreUnfolds(CommandBus(Some(None), maxRetries), handler);
  }

  /** A refusal by any observer keeps the lock and the handler out of it entirely. */
  lemma RefusalStopsEverything<S>(
    o: Observer<S>, os: seq<Observer<S>>, bus: CommandBus, handler: Handler<S>, w: World<S>)
    requires ValidBus(bus) && o.refuse(w.inner).1.Some?
    ensures var (s, refusal) := o.refuse(w.inner);
      var (w', answer) := Chain([o] + os, bus, handler)(w);
      w' == w.(inner := s) && Caught(refusal.value, answer)
  {
    ChainUnfolds([o] + os, bus, handler);
    assert ObserverBehaviors([o] + os)[1..] == ObserverBehaviors(os) by {
      assert ([o] + os)[1..] == os;
    }
    BarrierCatches(Nest(ObserverBehaviors([o] + os), Core(bus, handler)), w);
  }
}
