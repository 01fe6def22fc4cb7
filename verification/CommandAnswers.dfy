/**
  What a command answers once no observer refuses it and both idempotency keys are free:
  which states its handler is called in, how often, and what becomes of its last outcome.
 */
module CommandAnswers {
  import opened Wrappers
  import opened TtlStore
  import I = Idempotency
  import opened Pipelines

  /** What a handler sees and leaves: the shared store and the inner state. */
  type Seen<S> = (Store<I.Stored>, S)

  /** The handler was called in `ran[0]`, then in what each call had left. */
  ghost predicate Handles<S>(handler: Handler<S>, ran: seq<Seen<S>>, outs: seq<Outcome>) {
    && outs != [] && |ran| == |outs| + 1
    && forall i :: 0 <= i < |outs| ==> TurnsInto(handler, ran[i], ran[i + 1], outs[i])
  }

  ghost predicate TurnsInto<S>(handler: Handler<S>, s: Seen<S>, s': Seen<S>, out: Outcome) {
    handler(s.0, s.1) == (s'.0, s'.1, out)
  }

  /** Called again after a conflict with status 409, and only then, up to the configured number of attempts. */
  ghost predicate CalledAsAllowed(maxRetries: Option<nat>, outs: seq<Outcome>) {
    var conflict := Fail(AppError(ConflictCode, 409));
    && outs != []
    && (forall i :: 0 <= i < |outs| - 1 ==> outs[i] == conflict)
    && match maxRetries
       case None => |outs| == 1
       case Some(m) => |outs| <= m && (outs[|outs| - 1] == conflict ==> |outs| == m)
  }

  /** From `w`, the calls lead to `r`. */
  ghost predicate Leads<S>(
    handler: Handler<S>, w: World<S>, ran: seq<Seen<S>>, outs: seq<Outcome>, r: (World<S>, Outcome))
  {
    && Handles(handler, ran, outs) && ran[0] == (w.store, w.inner)
    && r == (World(ran[|outs|].0, ran[|outs|].1, w.trace + Calls(outs)), outs[|outs| - 1])
  }

  lemma OneCall<S>(handler: Handler<S>, w: World<S>) returns (ran: seq<Seen<S>>, outs: seq<Outcome>)
    ensures Leads(handler, w, ran, outs, Call(handler)(w)) && outs == [Call(handler)(w).1]
  {
    var (w', out) := Call(handler)(w);
    ran, outs := [(w.store, w.inner), (w'.store, w'.inner)], [out];
    assert Calls(outs) == [HandlerRan(out)];
  }

  /** One more call in front, and a delay. */
  lemma CallInFront<S>(
    handler: Handler<S>, w: World<S>, ran: seq<Seen<S>>, outs: seq<Outcome>, r: (World<S>, Outcome))
    returns (ran': seq<Seen<S>>, outs': seq<Outcome>)
    requires Leads(handler, Delay(Call(handler)(w).0), ran, outs, r)
    ensures Leads(handler, w, ran', outs', r) && outs' == [Call(handler)(w).1] + outs
  {
    var (w1, out) := Call(handler)(w);
    ran', outs' := [(w.store, w.inner)] + ran, [out] + outs;
    assert ran'[|outs'|] == ran[|outs|];
    assert w.trace + Calls(outs') == Delay(w1).trace + Calls(outs) by {
      assert outs'[1..] == outs;
      assert Calls(outs') == [HandlerRan(out)] + ([Delayed] + Calls(outs));
    }
    forall i | 0 <= i < |outs'|
      ensures TurnsInto(handler, ran'[i], ran'[i + 1], outs'[i])
    {
      if i > 0 {
        assert TurnsInto(handler, ran[i - 1], ran[i], outs[i - 1]);
      }
    }
  }

  lemma {:induction false} RetryHistory<S>(handler: Handler<S>, w: World<S>, left: nat)
    returns (ran: seq<Seen<S>>, outs: seq<Outcome>)
    requires 0 < left
    ensures Leads(handler, w, ran, outs, Attempt(Call(handler), w, left)) && CalledAsAllowed(Some(left), outs)
    decreases left
  {
    var (w', out) := Call(handler)(w);
    if IsConcurrencyError(out) && left > 1 {
      ran, outs := RetryHistory(handler, Delay(w'), left - 1);
      ran, outs := CallInFront(handler, w, ran, outs, Attempt(Call(handler), Delay(w'), left - 1));
    } else {
      ran, outs := OneCall(handler, w);
    }
  }

  lemma InnerHistory<S>(maxRetries: Option<nat>, handler: Handler<S>, w: World<S>)
    returns (ran: seq<Seen<S>>, outs: seq<Outcome>)
    requires maxRetries.Some? ==> 0 < maxRetries.value
    ensures Leads(handler, w, ran, outs, Inner(maxRetries, handler)(w)) && CalledAsAllowed(maxRetries, outs)
  {
    if maxRetries.Some? {
      ran, outs := RetryHistory(handler, w, maxRetries.value);
    } else {
      ran, outs := OneCall(handler, w);
    }
  }

  /** The layer is not configured, or the request has an id and neither of its keys is in the store. */
  ghost predicate KeysFree(bus: CommandBus, store: Store<I.Stored>) {
    bus.idempotency.Some? ==>
      && bus.idempotency.value.Some?
      && !Live(store, bus.idempotency.value.value.processedKey)
      && !Live(store, bus.idempotency.value.value.lockKey)
  }

  /** The store the handler finds. */
  ghost predicate LockedFrom(bus: CommandBus, store: Store<I.Stored>, locked: Store<I.Stored>) {
    if bus.idempotency.None? then locked == store
    else
      var cfg := bus.idempotency.value;
      cfg.Some? && locked == Put(store, cfg.value.lockKey, I.LockMark, cfg.value.lockTtl)
  }

  /** What becomes of the store the handler left: a success is recorded, anything else unlocks. */
  ghost predicate SettledFrom(bus: CommandBus, left: Store<I.Stored>, out: Outcome, store: Store<I.Stored>) {
    if bus.idempotency.None? then store == left
    else
      var cfg := bus.idempotency.value;
      cfg.Some? && store == match out
        case Ok(p) => Put(left, cfg.value.processedKey, I.Processed(p), cfg.value.processedTtl)
        case _ => Delete(left, cfg.value.lockKey)
  }

  /** One request through the bus, from the world it came in to the world it left. */
  ghost predicate Served<S>(
    bus: CommandBus, handler: Handler<S>, w: World<S>, ran: seq<Seen<S>>, outs: seq<Outcome>, w': World<S>)
  {
    && Handles(handler, ran, outs) && CalledAsAllowed(bus.maxRetries, outs)
    && LockedFrom(bus, w.store, ran[0].0)
    && SettledFrom(bus, ran[|outs|].0, outs[|outs| - 1], w'.store)
    && w'.trace == w.trace + (if bus.idempotency.Some? then [LockTried] else []) + Calls(outs)
  }

  lemma CoreHistory<S>(bus: CommandBus, handler: Handler<S>, w: World<S>)
    returns (ran: seq<Seen<S>>, outs: seq<Outcome>)
    requires ValidBus(bus) && KeysFree(bus, w.store)
    ensures var (w', answer) := Core(bus, handler)(w);
      && Served(bus, handler, w, ran, outs, w') && answer == outs[|outs| - 1]
      && ran[0].1 == w.inner && w'.inner == ran[|outs|].1
  {
    CoreUnfolds(bus, handler);
    if bus.idempotency.Some? {
      var cfg := bus.idempotency.value.value;
      ran, outs := InnerHistory(bus.maxRetries, handler, Locked(cfg, w));
      assert w.(trace := w.trace + [LockTried]).(
        store := Put(w.store, cfg.lockKey, I.LockMark, cfg.lockTtl)) == Locked(cfg, w);
    } else {
      ran, outs := InnerHistory(bus.maxRetries, handler, w);
      assert w.trace + [] == w.trace;
    }
  }

  ghost predicate NoneRefuses<S(!new)>(os: seq<Observer<S>>) {
    forall i, s :: 0 <= i < |os| ==> os[i].refuse(s).1 == None
  }

  /** The inner state once every observer has looked at the request, from the outermost inwards. */
  ghost function Passed<S>(os: seq<Observer<S>>, s: S): S {
    if os == [] then s else Passed(os[1..], os[0].refuse(s).0)
  }

  /** The inner state once every observer has looked at the outcome, from the innermost outwards. */
  ghost function Observed<S>(os: seq<Observer<S>>, s: S, out: Outcome): S {
    if os == [] then s else os[0].observe(Observed(os[1..], s, out), out)
  }

  lemma {:induction false} ObserversPassOn<S(!new)>(
    os: seq<Observer<S>>, bus: CommandBus, handler: Handler<S>, w: World<S>)
    returns (ran: seq<Seen<S>>, outs: seq<Outcome>)
    requires ValidBus(bus) && KeysFree(bus, w.store) && NoneRefuses(os)
    ensures var (w', answer) := Nest(ObserverBehaviors(os), Core(bus, handler))(w);
      && Served(bus, handler, w, ran, outs, w') && answer == outs[|outs| - 1]
      && ran[0].1 == Passed(os, w.inner) && w'.inner == Observed(os, ran[|outs|].1, answer)
  {
    if os == [] {
      ran, outs := CoreHistory(bus, handler, w);
    } else {
      var bs := ObserverBehaviors(os);
      assert bs[1..] == ObserverBehaviors(os[1..]);
      var (s, refusal) := os[0].refuse(w.inner);
      assert refusal == None;
      assert NoneRefuses(os[1..]) by {
        assert forall i :: 0 <= i < |os| - 1 ==> os[1..][i] == os[i + 1];
      }
      ran, outs := ObserversPassOn(os[1..], bus, handler, w.(inner := s));
    }
  }

  /**
    With no observer refusing and both keys free, whatever the handler does: it is called at
    least once, on the locked store and the inner state the observers passed on, and again
    only after a conflict.  The answer is its last outcome as it is, thrown or not; the
    record or the lock is settled by that outcome.
   */
  lemma ChainAnswersTheLastCall<S(!new)>(os: seq<Observer<S>>, bus: CommandBus, handler: Handler<S>, w: World<S>)
    returns (ran: seq<Seen<S>>, outs: seq<Outcome>)
    requires ValidBus(bus) && KeysFree(bus, w.store) && NoneRefuses(os)
    ensures var (w', answer) := Chain(os, bus, handler)(w);
      && Served(bus, handler, w, ran, outs, w') && Caught(outs[|outs| - 1], answer)
      && ran[0].1 == Passed(os, w.inner) && w'.inner == Observed(os, ran[|outs|].1, outs[|outs| - 1])
  {
    ChainUnfolds(os, bus, handler);
    ran, outs := ObserversPassOn(os, bus, handler, w);
    BarrierCatches(Nest(ObserverBehaviors(os), Core(bus, handler)), w);
  }

  predicate Conflicts(out: Outcome) {
    out.Fail? && out.error.code.ConflictCode? && out.error.status == 409
  }

  lemma SteadyOutcomes<S(!new)>(
    handler: Handler<S>, ran: seq<Seen<S>>, outs: seq<Outcome>, out: Outcome, maxRetries: Option<nat>)
    requires Handles(handler, ran, outs) && CalledAsAllowed(maxRetries, outs)
    requires forall store, s :: handler(store, s).2 == out
    ensures outs[|outs| - 1] == out
    ensures |outs| == if maxRetries.Some? && Conflicts(out) then maxRetries.value else 1
  {
    forall i | 0 <= i < |outs|
      ensures outs[i] == out
    {
      assert TurnsInto(handler, ran[i], ran[i + 1], outs[i]);
      assert handler(ran[i].0, ran[i].1).2 == out;
    }
    assert |outs| > 1 ==> outs[0] == out;
  }

  /** A handler that always comes to `out` is called until the attempts are used up on a conflict, else once. */
  lemma SteadyHandler<S(!new)>(
    os: seq<Observer<S>>, bus: CommandBus, handler: Handler<S>, w: World<S>, out: Outcome)
    returns (t: seq<Event>)
    requires ValidBus(bus) && KeysFree(bus, w.store) && NoneRefuses(os)
    requires forall store, s :: handler(store, s).2 == out
    ensures var (w', answer) := Chain(os, bus, handler)(w);
      Caught(out, answer) && w'.trace == w.trace + t
    ensures HandlerCalls(t) == if bus.maxRetries.Some? && Conflicts(out) then bus.maxRetries.value else 1
  {
    var ran, outs := ChainAnswersTheLastCall(os, bus, handler, w);
    SteadyOutcomes(handler, ran, outs, out, bus.maxRetries);
    t := RoundCounts(bus, w.trace, outs);
  }

  lemma RoundCounts(bus: CommandBus, trace: seq<Event>, outs: seq<Outcome>) returns (t: seq<Event>)
    requires outs != []
    ensures trace + (if bus.idempotency.Some? then [LockTried] else []) + Calls(outs) == trace + t
    ensures HandlerCalls(t) == |outs|
  {
    DelaysSeparateCalls(outs);
    if bus.idempotency.Some? {
      t := [LockTried] + Calls(outs);
      assert trace + [LockTried] + Calls(outs) == trace + t;
      assert t[1..] == Calls(outs);
    } else {
      t := Calls(outs);
      assert trace + [] == trace;
    }
  }
}
