/**
  The idempotency protocol as a state machine.  Any number of requests carrying
  one request id go through check, lock, handler and mark or release, and every
  await is a point where the others may move.  All of them share one store with
  expiring keys; there is no other communication.
 */
module Idempotency {
  import opened Wrappers
  import opened TtlStore

  datatype Stored = LockMark | Processed(payload: Payload)

  datatype HandlerOutcome = Succeeds(payload: Payload) | Fails(error: int) | Throws

  datatype Response = Ok(payload: Payload) | Conflict | Failure(error: int) | Threw

  /** Where a request stands; `inCatch` tells the release in the catch block from the one before it. */
  datatype Phase =
    | Replaying
    | Acquiring
    | Running
    | Marking(payload: Payload)
    | Releasing(response: Response, inCatch: bool)
    | Done(response: Response)

  datatype Request = Request(phase: Phase, checkedAt: int, acquiredAt: int)

  datatype Success = Success(request: nat, checkedAt: int, acquiredAt: int, markedAt: int, payload: Payload)

  /** The two keys of one request id and the configured lifetimes in seconds. */
  datatype Config = Config(lockKey: Key, processedKey: Key, lockTtl: int, processedTtl: int)

  ghost predicate ValidConfig(cfg: Config) {
    cfg.lockKey != cfg.processedKey && 0 < cfg.lockTtl && 0 < cfg.processedTtl
  }

  /**
    `holder` (who set the lock that is in the store) and `successes` (the handler
    runs that were marked, in order) are history: no step reads them.
   */
  datatype State = State(
    store: Store<Stored>, requests: map<nat, Request>, holder: Option<nat>, successes: seq<Success>)

  datatype Action =
    | Tick(ms: nat)
    | Check(r: nat)
    | Replay(r: nat)
    | Acquire(r: nat)
    | Finish(r: nat, outcome: HandlerOutcome)
    | Mark(r: nat)
    | Release(r: nat)
    | EarlyFault(r: nat)
    | MarkFaults(r: nat)
    | ReleaseFaults(r: nat)

  predicate In(st: State, r: nat, phase: Phase) {
    r in st.requests && st.requests[r].phase == phase
  }

  /**
    Which steps can be taken.  The three faults are store calls that throw: before
    the lock is acquired, when marking and when releasing.
   */
  predicate Enabled(st: State, a: Action) {
    match a
    case Tick(_) => true
    case Check(r) => r !in st.requests
    case EarlyFault(r) => r !in st.requests || In(st, r, Replaying) || In(st, r, Acquiring)
    case Replay(r) => In(st, r, Replaying)
    case Acquire(r) => In(st, r, Acquiring)
    case Finish(r, _) => In(st, r, Running)
    case Mark(r) => r in st.requests && st.requests[r].phase.Marking?
    case MarkFaults(r) => r in st.requests && st.requests[r].phase.Marking?
    case Release(r) => r in st.requests && st.requests[r].phase.Releasing?
    case ReleaseFaults(r) => r in st.requests && st.requests[r].phase.Releasing?
  }

  function Move(st: State, r: nat, phase: Phase): State
    requires r in st.requests
  {
    st.(requests := st.requests[r := st.requests[r].(phase := phase)])
  }

  function Step(cfg: Config, st: State, a: Action): State
    requires Enabled(st, a)
  {
    match a
    case Tick(ms) => st.(store := Advance(st.store, ms))
    case Check(r) =>
      var phase := if Live(st.store, cfg.processedKey) then Replaying else Acquiring;
      st.(requests := st.requests[r := Request(phase, st.store.now, st.store.now)])
    case EarlyFault(r) =>
      st.(requests := st.requests[r := Request(Releasing(Threw, true), st.store.now, st.store.now)])
    case Replay(r) => Move(st, r, Done(Replayed(Lookup(st.store, cfg.processedKey))))
    case Acquire(r) =>
      if Live(st.store, cfg.lockKey) then Move(st, r, Done(Conflict))
      else
        st.(store := Put(st.store, cfg.lockKey, LockMark, cfg.lockTtl), holder := Some(r),
            requests := st.requests[r := Request(Running, st.requests[r].checkedAt, st.store.now)])
    case Finish(r, outcome) => Move(st, r, AfterHandler(outcome))
    case Mark(r) =>
      var req := st.requests[r];
      var p := req.phase.payload;
      Move(st, r, Done(Ok(p))).(
        store := Put(st.store, cfg.processedKey, Processed(p), cfg.processedTtl),
        successes := st.successes + [Success(r, req.checkedAt, req.acquiredAt, st.store.now, p)])
    case MarkFaults(r) => Move(st, r, Releasing(Threw, true))
    case Release(r) =>
      Move(st, r, Done(st.requests[r].phase.response)).(store := Delete(st.store, cfg.lockKey), holder := None)
    case ReleaseFaults(r) =>
      Move(st, r, if st.requests[r].phase.inCatch then Done(Threw) else Releasing(Threw, true))
  }

  /** What a request that found the processed key answers, given what is stored a moment later. */
  function Replayed(found: Option<Stored>): Response {
    match found
    case Some(Processed(Defined(v))) => Ok(Defined(v))
    case _ => Conflict
  }

  /** A readable record with a defined value is the answer; anything else is a conflict. */
  ghost predicate AnswersRecord(found: Option<Stored>, response: Response) {
    if found.Some? && found.value.Processed? && found.value.payload.Defined? then response == Ok(found.value.payload)
    else response == Conflict
  }

  function AfterHandler(outcome: HandlerOutcome): Phase {
    match outcome
    case Succeeds(p) => Marking(p)
    case Fails(e) => Releasing(Failure(e), false)
    case Throws => Releasing(Threw, true)
  }

  function Initial(now: int): State {
    State(Store(now, map[]), map[], None, [])
  }

  /** Assumptions about a run: what must be true of every state it passes through. */
  datatype Assumption =
    | LockOutlivesRun
    | EveryRequestWithin(ms: int)
    | Unrestricted

  ghost predicate Holds(cfg: Config, st: State, asm: Assumption) {
    match asm
    case LockOutlivesRun => cfg.lockKey in st.store.entries ==> Live(st.store, cfg.lockKey)
    case EveryRequestWithin(d) =>
      forall r :: r in st.requests && !st.requests[r].phase.Done? ==> st.store.now < st.requests[r].checkedAt + d
    case Unrestricted => true
  }

  /** The only store fault that never harms: a release that throws. */
  predicate Harmless(a: Action) {
    !a.EarlyFault? && !a.MarkFaults?
  }

  /** A run from `st`: every step is enabled and the assumption holds of every state. */
  ghost predicate IsRun(cfg: Config, asm: Assumption, st: State, acts: seq<Action>)
    decreases |acts|
  {
    && Holds(cfg, st, asm)
    && (acts != [] ==> Enabled(st, acts[0]) && IsRun(cfg, asm, Step(cfg, st, acts[0]), acts[1..]))
  }

  function After(cfg: Config, st: State, acts: seq<Action>): State
    decreases |acts|
  {
    if acts == [] || !Enabled(st, acts[0]) then st else After(cfg, Step(cfg, st, acts[0]), acts[1..])
  }

  predicate AllHarmless(acts: seq<Action>) {
    forall a :: a in acts ==> Harmless(a)
  }

  /** How often the handler has come to a success in a run. */
  function HandlerSuccesses(acts: seq<Action>): nat {
    if acts == [] then 0
    else (if acts[0].Finish? && acts[0].outcome.Succeeds? then 1 else 0) + HandlerSuccesses(acts[1..])
  }

  /** Between acquiring the lock and finishing. */
  predicate Owns(phase: Phase) {
    phase.Running? || phase.Marking? || phase.Releasing?
  }

  function LockMs(cfg: Config): int {
    cfg.lockTtl * MS_PER_SECOND
  }

  function ProcessedMs(cfg: Config): int {
    cfg.processedTtl * MS_PER_SECOND
  }

  // ---- Runs -------------------------------------------------------------------

  /** Run prefixes compose with one more step in front. */
  lemma {:induction false} Prefixed(cfg: Config, asm: Assumption, st: State, a: Action, rest: seq<Action>)
    requires Holds(cfg, st, asm) && Enabled(st, a) && IsRun(cfg, asm, Step(cfg, st, a), rest)
    ensures IsRun(cfg, asm, st, [a] + rest)
    ensures After(cfg, st, [a] + rest) == After(cfg, Step(cfg, st, a), rest)
  {
    assert ([a] + rest)[1..] == rest;
  }

  lemma {:induction false} RunsConcatenate(
    cfg: Config, asm: Assumption, st: State, a: seq<Action>, b: seq<Action>)
    requires IsRun(cfg, asm, st, a) && IsRun(cfg, asm, After(cfg, st, a), b)
    ensures IsRun(cfg, asm, st, a + b) && After(cfg, st, a + b) == After(cfg, After(cfg, st, a), b)
    decreases |a|
  {
    if a == [] {
      assert a + b == b;
    } else {
      RunsConcatenate(cfg, asm, Step(cfg, st, a[0]), a[1..], b);
      assert (a + b)[1..] == a[1..] + b;
    }
  }

  lemma {:induction false} RunSplits(cfg: Config, asm: Assumption, st: State, a: seq<Action>, b: seq<Action>)
    requires IsRun(cfg, asm, st, a + b)
    ensures IsRun(cfg, asm, st, a) && IsRun(cfg, asm, After(cfg, st, a), b)
    ensures After(cfg, st, a + b) == After(cfg, After(cfg, st, a), b)
    decreases |a|
  {
    if a == [] {
      assert a + b == b;
    } else {
      assert (a + b)[1..] == a[1..] + b;
      RunSplits(cfg, asm, Step(cfg, st, a[0]), a[1..], b);
    }
  }

  /** A run goes on with one more step at its end. */
  lemma {:induction false} RunGoesOn(cfg: Config, asm: Assumption, st: State, acts: seq<Action>, a: Action)
    requires IsRun(cfg, asm, st, acts) && Enabled(After(cfg, st, acts), a)
    requires Holds(cfg, Step(cfg, After(cfg, st, acts), a), asm)
    ensures IsRun(cfg, asm, st, acts + [a])
    ensures After(cfg, st, acts + [a]) == Step(cfg, After(cfg, st, acts), a)
  {
    RunEndHolds(cfg, asm, st, acts);
    assert [a] == [a] + [];
    Prefixed(cfg, asm, After(cfg, st, acts), a, []);
    RunsConcatenate(cfg, asm, st, acts, [a]);
  }

  lemma {:induction false} RunEndHolds(cfg: Config, asm: Assumption, st: State, acts: seq<Action>)
    requires IsRun(cfg, asm, st, acts)
    ensures Holds(cfg, After(cfg, st, acts), asm)
    decreases |acts|
  {
    if acts != [] {
      RunEndHolds(cfg, asm, Step(cfg, st, acts[0]), acts[1..]);
    }
  }

  lemma {:induction false} SuccessesAdd(a: seq<Action>, b: seq<Action>)
    ensures HandlerSuccesses(a + b) == HandlerSuccesses(a) + HandlerSuccesses(b)
    decreases |a|
  {
    if a == [] {
      assert a + b == b;
    } else {
      SuccessesAdd(a[1..], b);
      assert (a + b)[1..] == a[1..] + b;
    }
  }
}
