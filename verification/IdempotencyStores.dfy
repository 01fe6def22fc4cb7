/**
  The store object and the pipeline's `handle` for one request whose awaits nobody
  uses to move: a run of the protocol's machine.
 */
module IdempotencyStores {
  import opened Wrappers
  import opened TtlStore
  import opened Idempotency

  /** What one request does to the store and answers when nobody moves between its awaits. */
  function Solo(cfg: Config, store: Store<Stored>, outcome: HandlerOutcome, handlerMs: nat): (Store<Stored>, Response) {
    if Live(store, cfg.processedKey) then (store, Replayed(Lookup(store, cfg.processedKey)))
    else if Live(store, cfg.lockKey) then (store, Conflict)
    else
      var ran := Advance(Put(store, cfg.lockKey, LockMark, cfg.lockTtl), handlerMs);
      match outcome
      case Succeeds(p) => (Put(ran, cfg.processedKey, Processed(p), cfg.processedTtl), Ok(p))
      case Fails(e) => (Delete(ran, cfg.lockKey), Failure(e))
      case Throws => (Delete(ran, cfg.lockKey), Threw)
  }

  function SoloActions(cfg: Config, st: State, r: nat, outcome: HandlerOutcome, handlerMs: nat): seq<Action> {
    if Live(st.store, cfg.processedKey) then [Check(r), Replay(r)]
    else if Live(st.store, cfg.lockKey) then [Check(r), Acquire(r)]
    else [Check(r), Acquire(r), Tick(handlerMs), Finish(r, outcome),
          if outcome.Succeeds? then Mark(r) else Release(r)]
  }

  /** The sequential path is one of the machine's runs. */
  lemma {:induction false} SoloIsARun(cfg: Config, st: State, r: nat, outcome: HandlerOutcome, handlerMs: nat)
    requires r !in st.requests
    ensures var acts := SoloActions(cfg, st, r, outcome, handlerMs);
      var (store, response) := Solo(cfg, st.store, outcome, handlerMs);
      && IsRun(cfg, Unrestricted, st, acts)
      && After(cfg, st, acts).store == store
      && In(After(cfg, st, acts), r, Done(response))
  {
    var asm := Unrestricted;
    var s1 := Step(cfg, st, Check(r));
    if Live(st.store, cfg.processedKey) {
      Prefixed(cfg, asm, s1, Replay(r), []);
      Prefixed(cfg, asm, st, Check(r), [Replay(r)]);
    } else if Live(st.store, cfg.lockKey) {
      Prefixed(cfg, asm, s1, Acquire(r), []);
      Prefixed(cfg, asm, st, Check(r), [Acquire(r)]);
    } else {
      SoloFreshIsARun(cfg, st, r, outcome, handlerMs);
    }
  }

  lemma {:induction false} SoloFreshIsARun(cfg: Config, st: State, r: nat, outcome: HandlerOutcome, handlerMs: nat)
    requires r !in st.requests && !Live(st.store, cfg.processedKey) && !Live(st.store, cfg.lockKey)
    ensures var acts := SoloActions(cfg, st, r, outcome, handlerMs);
      var (store, response) := Solo(cfg, st.store, outcome, handlerMs);
      && IsRun(cfg, Unrestricted, st, acts)
      && After(cfg, st, acts).store == store
      && In(After(cfg, st, acts), r, Done(response))
  {
    var asm := Unrestricted;
    var s1 := Step(cfg, st, Check(r));
    var s2 := Step(cfg, s1, Acquire(r));
    assert In(s1, r, Acquiring) && In(s2, r, Running);
    var rest := [Tick(handlerMs), Finish(r, outcome), if outcome.Succeeds? then Mark(r) else Release(r)];
    SoloOwnerIsARun(cfg, s2, r, outcome, handlerMs);
    Prefixed(cfg, asm, s1, Acquire(r), rest);
    Prefixed(cfg, asm, st, Check(r), [Acquire(r)] + rest);
    assert [Check(r)] + ([Acquire(r)] + rest) == SoloActions(cfg, st, r, outcome, handlerMs);
  }

  lemma {:induction false} SoloOwnerIsARun(cfg: Config, st: State, r: nat, outcome: HandlerOutcome, handlerMs: nat)
    requires In(st, r, Running)
    ensures var last := if outcome.Succeeds? then Mark(r) else Release(r);
      var acts := [Tick(handlerMs), Finish(r, outcome), last];
      && IsRun(cfg, Unrestricted, st, acts)
      && After(cfg, st, acts) == Step(cfg, Step(cfg, Step(cfg, st, Tick(handlerMs)), Finish(r, outcome)), last)
  {
    var asm := Unrestricted;
    var last := if outcome.Succeeds? then Mark(r) else Release(r);
    var s1 := Step(cfg, st, Tick(handlerMs));
    var s2 := Step(cfg, s1, Finish(r, outcome));
    Prefixed(cfg, asm, s2, last, []);
    Prefixed(cfg, asm, s1, Finish(r, outcome), [last]);
    Prefixed(cfg, asm, st, Tick(handlerMs), [Finish(r, outcome)] + [last]);
    assert [Tick(handlerMs)] + ([Finish(r, outcome)] + [last]) == [Tick(handlerMs), Finish(r, outcome), last];
  }

  /** The store object of the pipeline: two keys of the shared cache. */
  class IdempotencyStore {
    const cache: RedisCache<Stored>
    const lockKey: Key
    const processedKey: Key

    constructor (cache: RedisCache<Stored>, lockKey: Key, processedKey: Key)
      ensures this.cache == cache && this.lockKey == lockKey && this.processedKey == processedKey
    {
      this.cache, this.lockKey, this.processedKey := cache, lockKey, processedKey;
    }

    method HasBeenProcessed() returns (processed: bool)
      ensures processed <==> Live(cache.State(), processedKey)
    {
      processed := cache.Has(processedKey);
    }

    method GetPayload() returns (found: Option<Stored>)
      ensures found == Lookup(cache.State(), processedKey)
    {
      found := cache.Get(processedKey);
    }

    method AcquireLock(ttlSeconds: int) returns (acquired: bool)
      modifies cache
      ensures acquired <==> !Live(old(cache.State()), lockKey)
      ensures cache.State() ==
        if acquired then Put(old(cache.State()), lockKey, LockMark, ttlSeconds) else old(cache.State())
    {
      acquired := cache.SetIfAbsent(lockKey, LockMark, Some(ttlSeconds));
    }

    method MarkAsProcessed(payload: Payload, ttlSeconds: int)
      modifies cache
      ensures cache.State() == Put(old(cache.State()), processedKey, Processed(payload), ttlSeconds)
    {
      cache.Set(processedKey, Processed(payload), Some(ttlSeconds));
    }

    method ReleaseLock()
      modifies cache
      ensures cache.State() == Delete(old(cache.State()), lockKey)
    {
      cache.Remove(lockKey);
    }
  }

  predicate BothFree(cfg: Config, store: Store<Stored>) {
    !Live(store, cfg.processedKey) && !Live(store, cfg.lockKey)
  }

  /**
    A request that found both keys free: it answers what its handler came to.  A success is
    recorded and keeps the lock; anything else removes the lock and records nothing.
   */
  ghost predicate Handled(
    cfg: Config, before: Store<Stored>, outcome: HandlerOutcome, handlerMs: nat, after: Store<Stored>,
    response: Response)
  {
    && after.now == before.now + handlerMs
    && (forall k :: k != cfg.lockKey && k != cfg.processedKey ==>
      && (k in after.entries <==> k in before.entries)
      && (k in before.entries ==> after.entries[k] == before.entries[k]))
    && match outcome
       case Succeeds(p) =>
         && response == Ok(p)
         && (0 < cfg.processedTtl ==> Lookup(after, cfg.processedKey) == Some(Processed(p)))
         && (cfg.lockKey != cfg.processedKey && handlerMs < LockMs(cfg) ==>
           Lookup(after, cfg.lockKey) == Some(LockMark))
       case Fails(e) => response == Failure(e) && BothFree(cfg, after)
       case Throws => response == Threw && BothFree(cfg, after)
  }

  /** `IdempotencyPipeline.handle` with an undisturbed store. */
  method Handle(
    hasNetworkContext: bool, store: IdempotencyStore, cfg: Config, outcome: HandlerOutcome, handlerMs: nat)
    returns (response: Response)
    requires cfg.lockKey == store.lockKey && cfg.processedKey == store.processedKey
    modifies store.cache
    ensures !hasNetworkContext ==> response == Conflict && store.cache.State() == old(store.cache.State())
    ensures hasNetworkContext ==>
      (store.cache.State(), response) == Solo(cfg, old(store.cache.State()), outcome, handlerMs)
    ensures hasNetworkContext && Live(old(store.cache.State()), cfg.processedKey) ==>
      && store.cache.State() == old(store.cache.State())
      && AnswersRecord(Lookup(old(store.cache.State()), cfg.processedKey), response)
    ensures !Live(old(store.cache.State()), cfg.processedKey) && Live(old(store.cache.State()), cfg.lockKey) ==>
      response == Conflict && store.cache.State() == old(store.cache.State())
    ensures hasNetworkContext && BothFree(cfg, old(store.cache.State())) ==>
      Handled(cfg, old(store.cache.State()), outcome, handlerMs, store.cache.State(), response)
  {
    if !hasNetworkContext {
      return Conflict;
    }
    var processed := store.HasBeenProcessed();
    if processed {
      var payload := store.GetPayload();
      return Replayed(payload);
    }
    var acquired := store.AcquireLock(cfg.lockTtl);
    if !acquired {
      return Conflict;
    }
    store.cache.Wait(handlerMs);
    match outcome {
      case Succeeds(p) =>
        store.MarkAsProcessed(p, cfg.processedTtl);
        response := Ok(p);
      case Fails(e) =>
        store.ReleaseLock();
        response := Failure(e);
      case Throws =>
        store.ReleaseLock();
        response := Threw;
    }
  }

  /** A second request right after a first one is answered from the record iff the value was defined. */
  lemma SecondRequestReplays(
    cfg: Config, store: Store<Stored>, p: Payload, again: HandlerOutcome, ms: nat, waited: nat, ms': nat)
    requires ValidConfig(cfg) && !Live(store, cfg.processedKey) && !Live(store, cfg.lockKey)
    requires waited < ProcessedMs(cfg)
    ensures var (done, first) := Solo(cfg, store, Succeeds(p), ms);
      && first == Ok(p)
      && Solo(cfg, Advance(done, waited), again, ms') ==
        (Advance(done, waited), if p.Defined? then Ok(p) else Conflict)
  {
  }
}
