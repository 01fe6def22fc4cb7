/**
  What the idempotency protocol promises over every interleaving: at most one
  success while no lock expires, and the exact bound in time when requests are fast.
 */
module IdempotencyGuarantees {
  import opened Wrappers
  import opened TtlStore
  import opened Idempotency

  // ---- When no lock expires during the run ------------------------------------

  ghost predicate AtMostOnce(cfg: Config, st: State) {
    && (cfg.lockKey in st.store.entries <==> st.holder.Some?)
    && (st.holder.Some? ==>
      && st.holder.value in st.requests
      && var phase := st.requests[st.holder.value].phase; Owns(phase) || phase.Done?)
    && (forall r :: r in st.requests && Owns(st.requests[r].phase) ==> st.holder == Some(r))
    && |st.successes| <= 1
    && (st.successes != [] ==> var s := st.successes[0];
      st.holder == Some(s.request) && In(st, s.request, Done(Ok(s.payload))))
    && (cfg.processedKey in st.store.entries ==>
      st.successes != [] && st.store.entries[cfg.processedKey].value == Processed(st.successes[0].payload))
    && (forall r :: r in st.requests && st.requests[r].phase.Done? && st.requests[r].phase.response.Ok? ==>
      st.successes != [] && st.requests[r].phase.response.payload == st.successes[0].payload)
    && (forall r :: r in st.requests && st.requests[r].phase.Releasing? ==> !st.requests[r].phase.response.Ok?)
  }

  lemma StepKeepsAtMostOnce(cfg: Config, st: State, a: Action)
    requires ValidConfig(cfg) && AtMostOnce(cfg, st) && Enabled(st, a) && Harmless(a)
    requires Holds(cfg, st, LockOutlivesRun)
    ensures AtMostOnce(cfg, Step(cfg, st, a))
  {
  }

  lemma {:induction false} RunKeepsAtMostOnce(cfg: Config, st: State, acts: seq<Action>)
    requires ValidConfig(cfg) && AtMostOnce(cfg, st) && AllHarmless(acts)
    requires IsRun(cfg, LockOutlivesRun, st, acts)
    ensures AtMostOnce(cfg, After(cfg, st, acts))
    decreases |acts|
  {
    if acts != [] {
      StepKeepsAtMostOnce(cfg, st, acts[0]);
      RunKeepsAtMostOnce(cfg, Step(cfg, st, acts[0]), acts[1..]);
    }
  }

  /** The handler runs that have succeeded: those recorded, and one that is about to be. */
  function Succeeded(st: State): nat {
    |st.successes| + (if SomebodyMarks(st) then 1 else 0)
  }

  predicate SomebodyMarks(st: State) {
    exists r :: r in st.requests && st.requests[r].phase.Marking?
  }

  lemma StepCounts(cfg: Config, st: State, a: Action)
    requires ValidConfig(cfg) && AtMostOnce(cfg, st) && Enabled(st, a) && Harmless(a)
    ensures Succeeded(Step(cfg, st, a)) == Succeeded(st) + HandlerSuccesses([a])
  {
    var st' := Step(cfg, st, a);
    assert [a][1..] == [];
    if r :| r in st.requests && st.requests[r].phase.Marking? {
      assert a != Mark(r) ==> r in st'.requests && st'.requests[r] == st.requests[r];
    }
    if r :| r in st'.requests && st'.requests[r].phase.Marking? {
      assert !(a.Finish? && a.r == r) ==> r in st.requests && st'.requests[r] == st.requests[r];
    }
    if a.Finish? {
      assert a.r in st'.requests;
    }
  }

  lemma {:induction false} RunCounts(cfg: Config, st: State, acts: seq<Action>)
    requires ValidConfig(cfg) && AtMostOnce(cfg, st) && AllHarmless(acts)
    requires IsRun(cfg, LockOutlivesRun, st, acts)
    ensures Succeeded(After(cfg, st, acts)) == Succeeded(st) + HandlerSuccesses(acts)
    decreases |acts|
  {
    if acts != [] {
      StepKeepsAtMostOnce(cfg, st, acts[0]);
      StepCounts(cfg, st, acts[0]);
      RunCounts(cfg, Step(cfg, st, acts[0]), acts[1..]);
      assert [acts[0]] + acts[1..] == acts;
      SuccessesAdd([acts[0]], acts[1..]);
    }
  }

  /**
    Over any run in which no lock expires: two requests never own the lock at once,
    at most one handler run succeeds, and every ok answer carries that run's value.
   */
  lemma {:induction false} HandlerSucceedsAtMostOnce(cfg: Config, now: int, acts: seq<Action>, r: nat, q: nat)
    requires ValidConfig(cfg) && AllHarmless(acts) && IsRun(cfg, LockOutlivesRun, Initial(now), acts)
    requires var st := After(cfg, Initial(now), acts); r in st.requests && q in st.requests
    ensures var st := After(cfg, Initial(now), acts);
      && (Owns(st.requests[r].phase) && Owns(st.requests[q].phase) ==> r == q)
      && (Owns(st.requests[r].phase) ==> st.successes == [] && Live(st.store, cfg.lockKey))
      && |st.successes| <= HandlerSuccesses(acts) <= 1
      && (st.requests[r].phase.Done? && st.requests[r].phase.response.Ok? ==>
        |st.successes| == 1 && st.requests[r].phase.response == Ok(st.successes[0].payload))
  {
    RunKeepsAtMostOnce(cfg, Initial(now), acts);
    RunCounts(cfg, Initial(now), acts);
    RunEndHolds(cfg, LockOutlivesRun, Initial(now), acts);
  }

  /** An owner that finishes without success leaves the lock free for the next request. */
  lemma {:induction false} UnsuccessfulOwnerFreesTheLock(cfg: Config, now: int, acts: seq<Action>, r: nat, q: nat)
    requires ValidConfig(cfg) && AllHarmless(acts) && IsRun(cfg, LockOutlivesRun, Initial(now), acts)
    requires var st := After(cfg, Initial(now), acts); Enabled(st, Release(r)) && In(st, q, Acquiring)
    ensures var st' := Step(cfg, After(cfg, Initial(now), acts), Release(r));
      && !Live(st'.store, cfg.lockKey) && st'.requests[r].phase.Done? && !st'.requests[r].phase.response.Ok?
      && (forall p :: p in st'.requests ==> !Owns(st'.requests[p].phase))
      && In(Step(cfg, st', Acquire(q)), q, Running)
  {
    var st := After(cfg, Initial(now), acts);
    RunKeepsAtMostOnce(cfg, Initial(now), acts);
    assert q != r;
  }

  // ---- When every request is fast enough --------------------------------------

  /** The check came before the success was marked, or after its record had expired. */
  predicate Misses(cfg: Config, checkedAt: int, s: Success) {
    checkedAt <= s.markedAt || s.markedAt + ProcessedMs(cfg) <= checkedAt
  }

  /** Until its lifetime is over, the lock of a success is still in the store. */
  ghost predicate Protected(cfg: Config, st: State, s: Success) {
    st.store.now < s.acquiredAt + LockMs(cfg) ==>
      && st.holder == Some(s.request) && cfg.lockKey in st.store.entries
      && st.store.entries[cfg.lockKey].expiresAt == s.acquiredAt + LockMs(cfg)
  }

  ghost predicate SuccessTimes(st: State, d: int, s: Success) {
    && s.checkedAt <= s.acquiredAt <= s.markedAt <= st.store.now && s.markedAt < s.checkedAt + d
    && In(st, s.request, Done(Ok(s.payload)))
  }

  ghost predicate MissesAll(cfg: Config, successes: seq<Success>, checkedAt: int) {
    forall i :: 0 <= i < |successes| ==> Misses(cfg, checkedAt, successes[i])
  }

  /** The check came when every record written so far had expired. */
  ghost predicate AfterRecords(cfg: Config, successes: seq<Success>, checkedAt: int) {
    forall i :: 0 <= i < |successes| ==> successes[i].markedAt + ProcessedMs(cfg) <= checkedAt
  }

  ghost predicate Produced(successes: seq<Success>, p: Payload) {
    exists i :: 0 <= i < |successes| && successes[i].payload == p
  }

  ghost predicate OwnerValid(cfg: Config, st: State, r: nat, req: Request) {
    && st.holder == Some(r) && cfg.lockKey in st.store.entries
    && st.store.entries[cfg.lockKey].expiresAt == req.acquiredAt + LockMs(cfg)
    && req.checkedAt <= req.acquiredAt <= st.store.now
    && AfterRecords(cfg, st.successes, req.checkedAt)
  }

  ghost predicate RequestValid(cfg: Config, st: State, r: nat, req: Request) {
    && req.checkedAt <= st.store.now
    && (Owns(req.phase) ==> OwnerValid(cfg, st, r, req))
    && (req.phase.Acquiring? ==> MissesAll(cfg, st.successes, req.checkedAt))
    && (req.phase.Releasing? ==> !req.phase.response.Ok?)
    && (req.phase.Done? && req.phase.response.Ok? ==> Produced(st.successes, req.phase.response.payload))
  }

  ghost predicate RecordValid(cfg: Config, st: State) {
    if st.successes == [] then cfg.processedKey !in st.store.entries
    else
      var last := st.successes[|st.successes| - 1];
      && cfg.processedKey in st.store.entries
      && st.store.entries[cfg.processedKey] == Entry(Processed(last.payload), last.markedAt + ProcessedMs(cfg))
  }

  ghost predicate Apart(cfg: Config, s: Success, s': Success) {
    s.markedAt <= s'.markedAt && s.markedAt + ProcessedMs(cfg) <= s'.checkedAt
  }

  ghost predicate Timed(cfg: Config, d: int, st: State) {
    && (forall r :: r in st.requests ==> RequestValid(cfg, st, r, st.requests[r]))
    && (forall i :: 0 <= i < |st.successes| ==>
      SuccessTimes(st, d, st.successes[i]) && Protected(cfg, st, st.successes[i]))
    && (forall i, j :: 0 <= i < j < |st.successes| ==> Apart(cfg, st.successes[i], st.successes[j]))
    && RecordValid(cfg, st)
  }

  /** Steps that change neither the store nor the history, only one request's phase. */
  lemma MovingKeepsTimed(cfg: Config, d: int, st: State, r: nat, phase: Phase)
    requires Timed(cfg, d, st) && r in st.requests && !st.requests[r].phase.Done?
    requires Owns(phase) ==> Owns(st.requests[r].phase)
    requires !phase.Acquiring? && (phase.Releasing? ==> !phase.response.Ok?)
    requires phase.Done? && phase.response.Ok? ==> Produced(st.successes, phase.response.payload)
    ensures Timed(cfg, d, Move(st, r, phase))
  {
    var st' := Move(st, r, phase);
    forall q | q in st'.requests
      ensures RequestValid(cfg, st', q, st'.requests[q])
    {
      assert RequestValid(cfg, st, q, st.requests[q]);
    }
    forall i | 0 <= i < |st.successes|
      ensures SuccessTimes(st', d, st'.successes[i]) && Protected(cfg, st', st'.successes[i])
    {
      assert SuccessTimes(st, d, st.successes[i]) && Protected(cfg, st, st.successes[i]);
    }
  }

  /** A check that finds no record comes after the record of every earlier success has expired. */
  lemma CheckMissesAll(cfg: Config, d: int, st: State)
    requires Timed(cfg, d, st) && !Live(st.store, cfg.processedKey)
    ensures MissesAll(cfg, st.successes, st.store.now)
  {
    if st.successes != [] {
      var n := |st.successes| - 1;
      assert forall i :: 0 <= i < n ==> Apart(cfg, st.successes[i], st.successes[n]);
    }
  }

  lemma CheckKeepsTimed(cfg: Config, d: int, st: State, r: nat)
    requires Timed(cfg, d, st) && r !in st.requests
    ensures Timed(cfg, d, Step(cfg, st, Check(r)))
  {
    var st' := Step(cfg, st, Check(r));
    if !Live(st.store, cfg.processedKey) {
      CheckMissesAll(cfg, d, st);
    }
    forall q | q in st'.requests
      ensures RequestValid(cfg, st', q, st'.requests[q])
    {
      assert q != r ==> RequestValid(cfg, st, q, st.requests[q]);
    }
    forall i | 0 <= i < |st.successes|
      ensures SuccessTimes(st', d, st'.successes[i]) && Protected(cfg, st', st'.successes[i])
    {
      assert SuccessTimes(st, d, st.successes[i]) && Protected(cfg, st, st.successes[i]);
    }
  }

  /** Whoever gets the lock has checked after every earlier record expired: until then it is held. */
  lemma AcquireKeepsTimed(cfg: Config, d: int, st: State, r: nat)
    requires Timed(cfg, d, st) && In(st, r, Acquiring) && ValidConfig(cfg)
    requires 2 * d <= LockMs(cfg) + 1 && Holds(cfg, st, EveryRequestWithin(d))
    requires !Live(st.store, cfg.lockKey)
    ensures Timed(cfg, d, Step(cfg, st, Acquire(r)))
  {
    var st' := Step(cfg, st, Acquire(r));
    var req := st.requests[r];
    assert RequestValid(cfg, st, r, req);
    forall i | 0 <= i < |st.successes|
      ensures st.successes[i].markedAt + ProcessedMs(cfg) <= req.checkedAt
      ensures SuccessTimes(st', d, st'.successes[i]) && Protected(cfg, st', st'.successes[i])
    {
      var s := st.successes[i];
      assert SuccessTimes(st, d, s) && Protected(cfg, st, s) && Misses(cfg, req.checkedAt, s);
    }
    forall q | q in st'.requests
      ensures RequestValid(cfg, st', q, st'.requests[q])
    {
      assert RequestValid(cfg, st, q, st.requests[q]);
      if q != r && Owns(st.requests[q].phase) {
        assert false;
      }
    }
  }

  lemma MarkKeepsTimed(cfg: Config, d: int, st: State, r: nat)
    requires Timed(cfg, d, st) && r in st.requests && st.requests[r].phase.Marking? && ValidConfig(cfg)
    requires Holds(cfg, st, EveryRequestWithin(d))
    ensures Timed(cfg, d, Step(cfg, st, Mark(r)))
  {
    var st' := Step(cfg, st, Mark(r));
    var n := |st.successes|;
    assert RequestValid(cfg, st, r, st.requests[r]);
    forall i | 0 <= i <= n
      ensures SuccessTimes(st', d, st'.successes[i]) && Protected(cfg, st', st'.successes[i])
      ensures i < n ==> st'.successes[i] == st.successes[i] && Apart(cfg, st'.successes[i], st'.successes[n])
    {
      if i < n {
        assert SuccessTimes(st, d, st.successes[i]) && Protected(cfg, st, st.successes[i]);
      }
    }
    forall q | q in st'.requests
      ensures RequestValid(cfg, st', q, st'.requests[q])
    {
      assert RequestValid(cfg, st, q, st.requests[q]);
      if q == r {
        assert st'.successes[n].payload == st.requests[r].phase.payload;
      }
    }
  }

  /** A release removes the releaser's own lock, which no success relies on. */
  lemma ReleaseKeepsTimed(cfg: Config, d: int, st: State, r: nat)
    requires Timed(cfg, d, st) && r in st.requests && st.requests[r].phase.Releasing? && ValidConfig(cfg)
    ensures Timed(cfg, d, Step(cfg, st, Release(r)))
  {
    var st' := Step(cfg, st, Release(r));
    assert RequestValid(cfg, st, r, st.requests[r]);
    forall q | q in st'.requests
      ensures RequestValid(cfg, st', q, st'.requests[q])
    {
      assert RequestValid(cfg, st, q, st.requests[q]);
    }
    forall i | 0 <= i < |st.successes|
      ensures SuccessTimes(st', d, st'.successes[i]) && Protected(cfg, st', st'.successes[i])
    {
      assert SuccessTimes(st, d, st.successes[i]) && Protected(cfg, st, st.successes[i]);
    }
  }

  lemma ReplayKeepsTimed(cfg: Config, d: int, st: State, r: nat)
    requires Timed(cfg, d, st) && In(st, r, Replaying)
    ensures Timed(cfg, d, Step(cfg, st, Replay(r)))
  {
    if Live(st.store, cfg.processedKey) {
      assert st.successes[|st.successes| - 1].payload == st.store.entries[cfg.processedKey].value.payload;
    }
    MovingKeepsTimed(cfg, d, st, r, Done(Replayed(Lookup(st.store, cfg.processedKey))));
  }

  lemma StepKeepsTimed(cfg: Config, d: int, st: State, a: Action)
    requires ValidConfig(cfg) && Timed(cfg, d, st) && Enabled(st, a) && Harmless(a)
    requires 2 * d <= LockMs(cfg) + 1 && Holds(cfg, st, EveryRequestWithin(d))
    ensures Timed(cfg, d, Step(cfg, st, a))
  {
    match a
    case Tick(_) =>
    case Check(r) => CheckKeepsTimed(cfg, d, st, r);
    case Replay(r) => ReplayKeepsTimed(cfg, d, st, r);
    case Acquire(r) =>
      if Live(st.store, cfg.lockKey) {
        MovingKeepsTimed(cfg, d, st, r, Done(Conflict));
      } else {
        AcquireKeepsTimed(cfg, d, st, r);
      }
    case Finish(r, outcome) => MovingKeepsTimed(cfg, d, st, r, AfterHandler(outcome));
    case Mark(r) => MarkKeepsTimed(cfg, d, st, r);
    case Release(r) => ReleaseKeepsTimed(cfg, d, st, r);
    case ReleaseFaults(r) =>
      MovingKeepsTimed(
        cfg, d, st, r, if st.requests[r].phase.inCatch then Done(Threw) else Releasing(Threw, true));
  }

  lemma {:induction false} RunKeepsTimed(cfg: Config, d: int, st: State, acts: seq<Action>)
    requires ValidConfig(cfg) && Timed(cfg, d, st) && AllHarmless(acts)
    requires 2 * d <= LockMs(cfg) + 1 && IsRun(cfg, EveryRequestWithin(d), st, acts)
    ensures Timed(cfg, d, After(cfg, st, acts))
    decreases |acts|
  {
    if acts != [] {
      StepKeepsTimed(cfg, d, st, acts[0]);
      RunKeepsTimed(cfg, d, Step(cfg, st, acts[0]), acts[1..]);
    }
  }

  /**
    If every request is done within `d` of its check and a lock lives at least twice
    as long, less one tick, a handler runs again after a success only for a request that checked
    when the record of that success had expired.
   */
  lemma {:induction false} SuccessesAreApart(cfg: Config, d: int, now: int, acts: seq<Action>, i: nat, j: nat)
    requires ValidConfig(cfg) && AllHarmless(acts) && 2 * d <= LockMs(cfg) + 1
    requires IsRun(cfg, EveryRequestWithin(d), Initial(now), acts)
    requires i < j < |After(cfg, Initial(now), acts).successes|
    ensures var s := After(cfg, Initial(now), acts).successes;
      s[i].markedAt + ProcessedMs(cfg) <= s[j].checkedAt
  {
    RunKeepsTimed(cfg, d, Initial(now), acts);
    var s := After(cfg, Initial(now), acts).successes;
    assert Apart(cfg, s[i], s[j]);
  }

  /**
    The same for a handler that is still running, has just returned or is releasing;
    its lock is in the store, is its own, and no other request owns one.
   */
  lemma {:induction false} OwnersAreAlone(cfg: Config, d: int, now: int, acts: seq<Action>, r: nat, q: nat)
    requires ValidConfig(cfg) && AllHarmless(acts) && 2 * d <= LockMs(cfg) + 1
    requires IsRun(cfg, EveryRequestWithin(d), Initial(now), acts)
    requires var st := After(cfg, Initial(now), acts); r in st.requests && Owns(st.requests[r].phase)
    ensures var st := After(cfg, Initial(now), acts);
      && Live(st.store, cfg.lockKey) && st.holder == Some(r)
      && (q in st.requests && Owns(st.requests[q].phase) ==> q == r)
      && AfterRecords(cfg, st.successes, st.requests[r].checkedAt)
  {
    RunKeepsTimed(cfg, d, Initial(now), acts);
    RunEndHolds(cfg, EveryRequestWithin(d), Initial(now), acts);
    var st := After(cfg, Initial(now), acts);
    assert RequestValid(cfg, st, r, st.requests[r]);
  }

  /** Every ok answer, replayed or not, carries the value of a handler run that succeeded. */
  lemma {:induction false} OkAnswersAreGenuine(cfg: Config, d: int, now: int, acts: seq<Action>, r: nat)
    requires ValidConfig(cfg) && AllHarmless(acts) && 2 * d <= LockMs(cfg) + 1
    requires IsRun(cfg, EveryRequestWithin(d), Initial(now), acts)
    requires var st := After(cfg, Initial(now), acts);
      r in st.requests && st.requests[r].phase.Done? && st.requests[r].phase.response.Ok?
    ensures var st := After(cfg, Initial(now), acts);
      Produced(st.successes, st.requests[r].phase.response.payload)
  {
    RunKeepsTimed(cfg, d, Initial(now), acts);
    var st := After(cfg, Initial(now), acts);
    assert RequestValid(cfg, st, r, st.requests[r]);
  }

  // ---- The bound is exact -------------------------------------------------------

  /** In every run of requests done within `d`, a later success checked when the earlier record had expired. */
  ghost predicate KeepsApart(cfg: Config, d: int) {
    forall now, acts :: AllHarmless(acts) && IsRun(cfg, EveryRequestWithin(d), Initial(now), acts) ==>
      AllApart(cfg, After(cfg, Initial(now), acts).successes)
  }

  ghost predicate AllApart(cfg: Config, s: seq<Success>) {
    forall i, j :: 0 <= i < j < |s| ==> s[i].markedAt + ProcessedMs(cfg) <= s[j].checkedAt
  }

  const SUCCEEDS := Succeeds(Undefined)

  /** Request 0 takes all its time; */
  function SlowFirst(d: nat): seq<Action>
    requires 0 < d
  {
    [Check(0), Acquire(0), Tick(d - 1), Finish(0, SUCCEEDS)]
  }

  /** request 1 checks just before 0 is marked, waits for the rest of the lifetime of 0's lock, and acquires; */
  function LateSecond(rest: nat): seq<Action> {
    [Check(1), Mark(0), Tick(rest), Acquire(1)]
  }

  /** and it succeeds too. */
  function SecondEnd(): seq<Action> {
    [Finish(1, SUCCEEDS), Mark(1)]
  }

  ghost predicate SlowIsMarking(cfg: Config, d: int, now: int, st: State) {
    && st.store == Store(now + d - 1, map[cfg.lockKey := Entry(LockMark, now + LockMs(cfg))])
    && st.requests == map[0 := Request(Marking(Undefined), now, now)] && st.successes == []
  }

  ghost predicate SecondIsRunning(d: int, now: int, st: State) {
    && st.requests.Keys == {0, 1} && st.requests[0].phase.Done? && st.requests[1].phase.Running?
    && st.requests[1].checkedAt == now + d - 1 && st.store.now < now + d - 1 + d
    && st.successes == [Success(0, now, now, now + d - 1, Undefined)]
  }

  lemma {:induction false} FourSteps(
    cfg: Config, asm: Assumption, st: State, a: Action, b: Action, c: Action, e: Action)
    requires Holds(cfg, st, asm) && Enabled(st, a)
    requires var s1 := Step(cfg, st, a); Holds(cfg, s1, asm) && Enabled(s1, b)
    requires var s2 := Step(cfg, Step(cfg, st, a), b); Holds(cfg, s2, asm) && Enabled(s2, c)
    requires var s3 := Step(cfg, Step(cfg, Step(cfg, st, a), b), c);
      Holds(cfg, s3, asm) && Enabled(s3, e) && Holds(cfg, Step(cfg, s3, e), asm)
    ensures IsRun(cfg, asm, st, [a, b, c, e])
    ensures After(cfg, st, [a, b, c, e]) == Step(cfg, Step(cfg, Step(cfg, Step(cfg, st, a), b), c), e)
  {
    var s1 := Step(cfg, st, a);
    var s2 := Step(cfg, s1, b);
    var s3 := Step(cfg, s2, c);
    assert [e] + [] == [e] && [c] + [e] == [c, e] && [b] + [c, e] == [b, c, e] && [a] + [b, c, e] == [a, b, c, e];
    Prefixed(cfg, asm, s3, e, []);
    Prefixed(cfg, asm, s2, c, [e]);
    Prefixed(cfg, asm, s1, b, [c, e]);
    Prefixed(cfg, asm, st, a, [b, c, e]);
  }

  lemma {:induction false} SlowFirstRuns(cfg: Config, d: nat, now: int)
    requires ValidConfig(cfg) && 0 < d
    ensures IsRun(cfg, EveryRequestWithin(d), Initial(now), SlowFirst(d))
    ensures SlowIsMarking(cfg, d, now, After(cfg, Initial(now), SlowFirst(d)))
  {
    var s1 := Step(cfg, Initial(now), Check(0));
    assert s1.requests == map[0 := Request(Acquiring, now, now)];
    FourSteps(
      cfg, EveryRequestWithin(d), Initial(now), Check(0), Acquire(0), Tick(d - 1), Finish(0, SUCCEEDS));
  }

  lemma {:induction false} LateSecondRuns(cfg: Config, d: nat, now: int, st: State, rest: nat)
    requires ValidConfig(cfg) && SlowIsMarking(cfg, d, now, st)
    requires LockMs(cfg) <= d - 1 + rest < 2 * d - 1
    ensures IsRun(cfg, EveryRequestWithin(d), st, LateSecond(rest))
    ensures SecondIsRunning(d, now, After(cfg, st, LateSecond(rest)))
  {
    FourSteps(cfg, EveryRequestWithin(d), st, Check(1), Mark(0), Tick(rest), Acquire(1));
  }

  lemma {:induction false} SecondSucceeds(cfg: Config, d: nat, now: int, st: State)
    requires ValidConfig(cfg) && SecondIsRunning(d, now, st)
    ensures IsRun(cfg, EveryRequestWithin(d), st, SecondEnd())
    ensures !AllApart(cfg, After(cfg, st, SecondEnd()).successes)
  {
    var s1 := Step(cfg, st, Finish(1, SUCCEEDS));
    Prefixed(cfg, EveryRequestWithin(d), s1, Mark(1), []);
    assert [Mark(1)] + [] == [Mark(1)] && [Finish(1, SUCCEEDS)] + [Mark(1)] == SecondEnd();
    Prefixed(cfg, EveryRequestWithin(d), st, Finish(1, SUCCEEDS), [Mark(1)]);
    var s := Step(cfg, s1, Mark(1)).successes;
    assert s[0].markedAt + ProcessedMs(cfg) > s[1].checkedAt;
  }

  /** Beyond the bound, one run has two successes that are not apart. */
  lemma SlowRequestsOverlap(cfg: Config, d: nat)
    requires ValidConfig(cfg) && LockMs(cfg) + 1 < 2 * d
    ensures !KeepsApart(cfg, d)
  {
    var asm, st := EveryRequestWithin(d), Initial(0);
    var rest := if LockMs(cfg) < d then 0 else LockMs(cfg) - d + 1;
    var slow, late := SlowFirst(d), LateSecond(rest);
    SlowFirstRuns(cfg, d, 0);
    LateSecondRuns(cfg, d, 0, After(cfg, st, slow), rest);
    RunsConcatenate(cfg, asm, st, slow, late);
    SecondSucceeds(cfg, d, 0, After(cfg, st, slow + late));
    RunsConcatenate(cfg, asm, st, slow + late, SecondEnd());
    assert AllHarmless(slow + late + SecondEnd());
  }

  /**
    Requests that are done within `d` keep their successes apart, in every run, exactly if
    twice `d` exceeds the lifetime of a lock by one tick at most.
   */
  lemma TimedBoundIsExact(cfg: Config, d: int)
    requires ValidConfig(cfg)
    ensures KeepsApart(cfg, d) <==> 2 * d <= LockMs(cfg) + 1
  {
    if 2 * d <= LockMs(cfg) + 1 {
      forall now, acts | AllHarmless(acts) && IsRun(cfg, EveryRequestWithin(d), Initial(now), acts)
        ensures AllApart(cfg, After(cfg, Initial(now), acts).successes)
      {
        var s := After(cfg, Initial(now), acts).successes;
        forall i, j | 0 <= i < j < |s|
          ensures s[i].markedAt + ProcessedMs(cfg) <= s[j].checkedAt
        {
          SuccessesAreApart(cfg, d, now, acts, i, j);
        }
      }
    } else {
      SlowRequestsOverlap(cfg, d);
    }
  }
}
