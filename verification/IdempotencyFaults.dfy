/**
  What store calls that throw do to the promise of at most one success: which faults,
  and which schedules around them, let a handler succeed a second time.
 */
module IdempotencyFaults {
  import opened Wrappers
  import opened TtlStore
  import opened Idempotency
  import opened IdempotencyGuarantees

  /** After the run `acts`, harmless steps can lead to a second success of the handler. */
  ghost predicate CanSucceedTwice(cfg: Config, now: int, acts: seq<Action>) {
    exists more :: AllHarmless(more) && IsRun(cfg, LockOutlivesRun, Initial(now), acts + more)
      && HandlerSuccesses(acts + more) >= 2
  }

  /** A request other than `r` owns the lock. */
  ghost predicate OthersOwn(st: State, r: nat) {
    exists q :: q in st.requests && q != r && Owns(st.requests[q].phase)
  }

  /** A step of request `r`. */
  predicate Moves(a: Action, r: nat) {
    !a.Tick? && a.r == r
  }

  /** Anything may happen meanwhile, except that `r` moves. */
  predicate Spares(acts: seq<Action>, r: nat) {
    forall a :: a in acts ==> !Moves(a, r)
  }

  lemma FreshRequest(st: State) returns (r: nat)
    ensures r !in st.requests
  {
    r := Above(st.requests.Keys);
  }

  lemma {:induction false} Above(taken: set<nat>) returns (r: nat)
    ensures forall q :: q in taken ==> q < r
    decreases |taken|
  {
    if taken == {} {
      r := 0;
    } else {
      var q :| q in taken;
      var rest := Above(taken - {q});
      r := if rest <= q then q + 1 else rest;
      forall x | x in taken
        ensures x < r
      {
        assert x == q || x in taken - {q};
      }
    }
  }

  /** What one more request can do: get to its handler's success. */
  function Newcomer(r: nat, p: Payload): seq<Action> {
    [Check(r), Acquire(r), Finish(r, Succeeds(p))]
  }

  /** Where only request `r` has moved, to the success of its handler, and now has the lock. */
  ghost predicate OnlyCame(cfg: Config, st: State, st': State, r: nat, p: Payload) {
    && In(st', r, Marking(p)) && st'.requests.Keys == st.requests.Keys + {r}
    && (forall q :: q in st.requests ==> st'.requests[q] == st.requests[q])
    && st'.store.now == st.store.now && st'.store.entries - {cfg.lockKey} == st.store.entries - {cfg.lockKey}
  }

  /** A request that finds neither key gets to its handler's success. */
  lemma {:induction false} NewcomerRuns(cfg: Config, st: State, r: nat, p: Payload)
    requires ValidConfig(cfg) && r !in st.requests
    requires cfg.lockKey !in st.store.entries && !Live(st.store, cfg.processedKey)
    ensures IsRun(cfg, LockOutlivesRun, st, Newcomer(r, p))
    ensures OnlyCame(cfg, st, After(cfg, st, Newcomer(r, p)), r, p)
  {
    var s1 := Step(cfg, st, Check(r));
    var s2 := Step(cfg, s1, Acquire(r));
    var asm := LockOutlivesRun;
    Prefixed(cfg, asm, s2, Finish(r, Succeeds(p)), []);
    Prefixed(cfg, asm, s1, Acquire(r), [Finish(r, Succeeds(p))]);
    Prefixed(cfg, asm, st, Check(r), [Acquire(r)] + [Finish(r, Succeeds(p))]);
    assert [Check(r)] + ([Acquire(r)] + [Finish(r, Succeeds(p))]) == Newcomer(r, p);
  }

  lemma NewcomerSucceeds(r: nat, p: Payload)
    ensures HandlerSuccesses(Newcomer(r, p)) == 1 && AllHarmless(Newcomer(r, p))
  {
    var last := [Finish(r, Succeeds(p))];
    assert last[1..] == [] && HandlerSuccesses(last) == 1;
    assert ([Acquire(r)] + last)[1..] == last && ([Check(r)] + ([Acquire(r)] + last))[1..] == [Acquire(r)] + last;
    assert Newcomer(r, p) == [Check(r)] + ([Acquire(r)] + last);
  }

  /** A run whose lock is gone goes on with a newcomer's success. */
  lemma {:induction false} NewcomerJoins(cfg: Config, now: int, acts: seq<Action>, r: nat, p: Payload)
    requires ValidConfig(cfg) && IsRun(cfg, LockOutlivesRun, Initial(now), acts)
    requires var st := After(cfg, Initial(now), acts);
      r !in st.requests && cfg.lockKey !in st.store.entries && !Live(st.store, cfg.processedKey)
    ensures IsRun(cfg, LockOutlivesRun, Initial(now), acts + Newcomer(r, p))
    ensures HandlerSuccesses(acts + Newcomer(r, p)) == HandlerSuccesses(acts) + 1
    ensures OnlyCame(
      cfg, After(cfg, Initial(now), acts), After(cfg, Initial(now), acts + Newcomer(r, p)), r, p)
  {
    NewcomerRuns(cfg, After(cfg, Initial(now), acts), r, p);
    RunsConcatenate(cfg, LockOutlivesRun, Initial(now), acts, Newcomer(r, p));
    NewcomerSucceeds(r, p);
    SuccessesAdd(acts, Newcomer(r, p));
  }

  /** One more harmless step, which may be a success of the handler. */
  lemma {:induction false} StepJoins(cfg: Config, now: int, acts: seq<Action>, a: Action)
    requires IsRun(cfg, LockOutlivesRun, Initial(now), acts)
    requires var st := After(cfg, Initial(now), acts);
      Enabled(st, a) && Holds(cfg, Step(cfg, st, a), LockOutlivesRun)
    ensures IsRun(cfg, LockOutlivesRun, Initial(now), acts + [a])
    ensures After(cfg, Initial(now), acts + [a]) == Step(cfg, After(cfg, Initial(now), acts), a)
    ensures HandlerSuccesses(acts + [a]) ==
      HandlerSuccesses(acts) + if a.Finish? && a.outcome.Succeeds? then 1 else 0
  {
    RunGoesOn(cfg, LockOutlivesRun, Initial(now), acts, a);
    SuccessesAdd(acts, [a]);
    assert [a][1..] == [];
  }

  /** With the lock gone and one success already, the next request makes it two. */
  lemma {:induction false} SecondSuccess(cfg: Config, now: int, acts: seq<Action>, p: Payload)
    requires ValidConfig(cfg) && IsRun(cfg, LockOutlivesRun, Initial(now), acts) && HandlerSuccesses(acts) >= 1
    requires cfg.lockKey !in After(cfg, Initial(now), acts).store.entries
    ensures CanSucceedTwice(cfg, now, acts)
  {
    var st := After(cfg, Initial(now), acts);
    var wait := if Live(st.store, cfg.processedKey)
      then st.store.entries[cfg.processedKey].expiresAt - st.store.now else 0;
    StepJoins(cfg, now, acts, Tick(wait));
    var r := FreshRequest(st);
    NewcomerJoins(cfg, now, acts + [Tick(wait)], r, p);
    NewcomerSucceeds(r, p);
    var more := [Tick(wait)] + Newcomer(r, p);
    assert acts + [Tick(wait)] + Newcomer(r, p) == acts + more;
    assert AllHarmless(more);
  }

  /** With the lock gone and a handler running, a newcomer's success and the runner's make two. */
  lemma {:induction false} RunnerAndNewcomer(cfg: Config, now: int, acts: seq<Action>, o: nat, p: Payload)
    requires ValidConfig(cfg) && IsRun(cfg, LockOutlivesRun, Initial(now), acts)
    requires var st := After(cfg, Initial(now), acts);
      cfg.lockKey !in st.store.entries && !Live(st.store, cfg.processedKey) && In(st, o, Running)
    ensures CanSucceedTwice(cfg, now, acts)
  {
    var st := After(cfg, Initial(now), acts);
    var r := FreshRequest(st);
    NewcomerJoins(cfg, now, acts, r, p);
    NewcomerSucceeds(r, p);
    var last := Finish(o, Succeeds(p));
    RunEndHolds(cfg, LockOutlivesRun, Initial(now), acts + Newcomer(r, p));
    StepJoins(cfg, now, acts + Newcomer(r, p), last);
    var more := Newcomer(r, p) + [last];
    assert acts + Newcomer(r, p) + [last] == acts + more;
    assert AllHarmless(more);
  }

  /** With the lock gone, an owner about to release removes the newcomer's lock, and another one gets in. */
  lemma {:induction false} ReleaserAndTwoNewcomers(cfg: Config, now: int, acts: seq<Action>, o: nat, p: Payload)
    requires ValidConfig(cfg) && IsRun(cfg, LockOutlivesRun, Initial(now), acts)
    requires var st := After(cfg, Initial(now), acts);
      && cfg.lockKey !in st.store.entries && !Live(st.store, cfg.processedKey)
      && o in st.requests && st.requests[o].phase.Releasing?
    ensures CanSucceedTwice(cfg, now, acts)
  {
    var st := After(cfg, Initial(now), acts);
    var r := FreshRequest(st);
    NewcomerJoins(cfg, now, acts, r, p);
    NewcomerSucceeds(r, p);
    var acts' := acts + Newcomer(r, p);
    StepJoins(cfg, now, acts', Release(o));
    SecondSuccess(cfg, now, acts' + [Release(o)], p);
    var rest :| AllHarmless(rest) && IsRun(cfg, LockOutlivesRun, Initial(now), acts' + [Release(o)] + rest)
      && HandlerSuccesses(acts' + [Release(o)] + rest) >= 2;
    var more := Newcomer(r, p) + [Release(o)] + rest;
    assert acts' + [Release(o)] + rest == acts + more;
    assert AllHarmless(more);
  }

  // ---- A call that throws before the lock is acquired ---------------------------

  /** The state as it would be if `r` had never come. */
  function Without(st: State, r: nat): State {
    st.(requests := st.requests - {r})
  }

  /** `r` is about to release a lock it does not have; apart from that all is well. */
  ghost predicate FaultPending(cfg: Config, st: State, r: nat) {
    In(st, r, Releasing(Threw, true)) && AtMostOnce(cfg, Without(st, r))
  }

  lemma EarlyFaultIsPending(cfg: Config, st: State, r: nat)
    requires AtMostOnce(cfg, st) && Enabled(st, EarlyFault(r))
    ensures var st' := Step(cfg, st, EarlyFault(r));
      FaultPending(cfg, st', r) && Succeeded(Without(st', r)) == Succeeded(st)
  {
    var st' := Step(cfg, st, EarlyFault(r));
    assert forall q :: q in st.requests && q != r ==> q in Without(st', r).requests;
    assert r in st.requests ==> !Owns(st.requests[r].phase) && !st.requests[r].phase.Done?;
    assert SomebodyMarks(Without(st', r)) <==> SomebodyMarks(st);
  }

  /** A step of another request is the same step without `r`. */
  lemma StepWithout(cfg: Config, st: State, r: nat, a: Action)
    requires Enabled(st, a) && !Moves(a, r)
    ensures Enabled(Without(st, r), a) && Step(cfg, Without(st, r), a) == Without(Step(cfg, st, a), r)
  {
    assert Step(cfg, Without(st, r), a).requests == Without(Step(cfg, st, a), r).requests;
  }

  lemma {:induction false} RunKeepsPending(cfg: Config, st: State, r: nat, acts: seq<Action>)
    requires ValidConfig(cfg) && FaultPending(cfg, st, r) && AllHarmless(acts) && Spares(acts, r)
    requires IsRun(cfg, LockOutlivesRun, st, acts)
    ensures FaultPending(cfg, After(cfg, st, acts), r)
    ensures Succeeded(Without(After(cfg, st, acts), r)) == Succeeded(Without(st, r)) + HandlerSuccesses(acts)
    decreases |acts|
  {
    if acts != [] {
      var a := acts[0];
      StepWithout(cfg, st, r, a);
      StepKeepsAtMostOnce(cfg, Without(st, r), a);
      StepCounts(cfg, Without(st, r), a);
      assert In(Step(cfg, st, a), r, Releasing(Threw, true));
      RunKeepsPending(cfg, Step(cfg, st, a), r, acts[1..]);
      assert [a] + acts[1..] == acts;
      SuccessesAdd([a], acts[1..]);
    }
  }

  /** A run, a fault of `r` before the lock, and whatever the others do before the catch block has released. */
  lemma {:induction false} FaultIsPending(cfg: Config, now: int, acts: seq<Action>, r: nat, mid: seq<Action>)
    requires ValidConfig(cfg) && AllHarmless(acts) && AllHarmless(mid) && Spares(mid, r)
    requires IsRun(cfg, LockOutlivesRun, Initial(now), acts + [EarlyFault(r)] + mid)
    ensures var faulted := acts + [EarlyFault(r)] + mid;
      var st := After(cfg, Initial(now), faulted);
      FaultPending(cfg, st, r) && Succeeded(Without(st, r)) == HandlerSuccesses(faulted)
  {
    var asm, start := LockOutlivesRun, Initial(now);
    RunSplits(cfg, asm, start, acts + [EarlyFault(r)], mid);
    RunSplits(cfg, asm, start, acts, [EarlyFault(r)]);
    RunKeepsAtMostOnce(cfg, start, acts);
    RunCounts(cfg, start, acts);
    EarlyFaultIsPending(cfg, After(cfg, start, acts), r);
    assert [EarlyFault(r)][1..] == [];
    RunKeepsPending(cfg, After(cfg, start, acts + [EarlyFault(r)]), r, mid);
    SuccessesAdd(acts, [EarlyFault(r)]);
    SuccessesAdd(acts + [EarlyFault(r)], mid);
  }

  /** If nobody else owned the lock and nothing had succeeded, the release does no harm. */
  lemma ReleaseIsHarmless(cfg: Config, st: State, r: nat)
    requires ValidConfig(cfg) && FaultPending(cfg, st, r) && st.successes == [] && !OthersOwn(st, r)
    ensures var st' := Step(cfg, st, Release(r)); AtMostOnce(cfg, st') && Succeeded(st') == 0
  {
    var st' := Step(cfg, st, Release(r));
    assert forall q :: q in st.requests && q != r ==> q in Without(st, r).requests && !Owns(st.requests[q].phase);
    assert !SomebodyMarks(st');
  }

  /** A release that fails leaves everything as if `r` had never come. */
  lemma FailedReleaseIsHarmless(cfg: Config, st: State, r: nat)
    requires ValidConfig(cfg) && FaultPending(cfg, st, r)
    ensures var st' := Step(cfg, st, ReleaseFaults(r));
      AtMostOnce(cfg, st') && Succeeded(st') == Succeeded(Without(st, r))
  {
    var st' := Step(cfg, st, ReleaseFaults(r));
    var rest := Without(st, r);
    assert st' == Move(st, r, Done(Threw));
    assert forall q :: q in st'.requests && q != r ==> q in rest.requests && st'.requests[q] == rest.requests[q];
    assert forall q :: q in rest.requests ==> q in st'.requests && st'.requests[q] == rest.requests[q];
    if q :| q in rest.requests && rest.requests[q].phase.Marking? {
      assert st'.requests[q].phase.Marking?;
    }
  }

  /** Where the invariant holds and counts every success there has been, no second one comes. */
  lemma {:induction false} StaysSingle(cfg: Config, now: int, acts: seq<Action>)
    requires ValidConfig(cfg) && AtMostOnce(cfg, After(cfg, Initial(now), acts))
    requires HandlerSuccesses(acts) == Succeeded(After(cfg, Initial(now), acts))
    ensures !CanSucceedTwice(cfg, now, acts)
  {
    var st := After(cfg, Initial(now), acts);
    forall more | AllHarmless(more) && IsRun(cfg, LockOutlivesRun, Initial(now), acts + more)
      ensures HandlerSuccesses(acts + more) <= 1
    {
      RunSplits(cfg, LockOutlivesRun, Initial(now), acts, more);
      RunKeepsAtMostOnce(cfg, st, more);
      RunCounts(cfg, st, more);
      SuccessesAdd(acts, more);
    }
  }

  lemma {:induction false} ReleaseRobsOthers(cfg: Config, now: int, acts: seq<Action>, r: nat, o: nat, p: Payload)
    requires ValidConfig(cfg) && IsRun(cfg, LockOutlivesRun, Initial(now), acts)
    requires var st := After(cfg, Initial(now), acts);
      && FaultPending(cfg, st, r) && Succeeded(Without(st, r)) == HandlerSuccesses(acts)
      && o in st.requests && o != r && Owns(st.requests[o].phase)
    ensures CanSucceedTwice(cfg, now, acts + [Release(r)])
  {
    var st := After(cfg, Initial(now), acts);
    StepJoins(cfg, now, acts, Release(r));
    assert o in Without(st, r).requests && Without(st, r).requests[o] == st.requests[o];
    match st.requests[o].phase
    case Running => RunnerAndNewcomer(cfg, now, acts + [Release(r)], o, p);
    case Marking(_) =>
      assert SomebodyMarks(Without(st, r));
      SecondSuccess(cfg, now, acts + [Release(r)], p);
    case Releasing(_, _) => ReleaserAndTwoNewcomers(cfg, now, acts + [Release(r)], o, p);
  }

  /**
    In every run without lock expiry in which a store call of `r` throws before the lock is
    acquired, whatever the others do before the catch block has released: the handler can
    come to a second success exactly if, just before the release, another request owned the
    lock or a success had been recorded.  A release that fails never harms.
   */
  lemma {:induction false} EarlyFaultBreaksIff(
    cfg: Config, now: int, acts: seq<Action>, r: nat, mid: seq<Action>, p: Payload)
    requires ValidConfig(cfg) && AllHarmless(acts) && AllHarmless(mid) && Spares(mid, r)
    requires IsRun(cfg, LockOutlivesRun, Initial(now), acts + [EarlyFault(r)] + mid)
    ensures var faulted := acts + [EarlyFault(r)] + mid;
      var st := After(cfg, Initial(now), faulted);
      CanSucceedTwice(cfg, now, faulted + [Release(r)]) <==> st.successes != [] || OthersOwn(st, r)
    ensures !CanSucceedTwice(cfg, now, acts + [EarlyFault(r)] + mid + [ReleaseFaults(r)])
  {
    var faulted := acts + [EarlyFault(r)] + mid;
    var st := After(cfg, Initial(now), faulted);
    FaultIsPending(cfg, now, acts, r, mid);
    RunEndHolds(cfg, LockOutlivesRun, Initial(now), faulted);
    StepJoins(cfg, now, faulted, Release(r));
    StepJoins(cfg, now, faulted, ReleaseFaults(r));
    FailedReleaseIsHarmless(cfg, st, r);
    StaysSingle(cfg, now, faulted + [ReleaseFaults(r)]);
    if o :| o in st.requests && o != r && Owns(st.requests[o].phase) {
      ReleaseRobsOthers(cfg, now, faulted, r, o, p);
    } else if st.successes != [] {
      SecondSuccess(cfg, now, faulted + [Release(r)], p);
    } else {
      ReleaseIsHarmless(cfg, st, r);
      assert !SomebodyMarks(Without(st, r));
      StaysSingle(cfg, now, faulted + [Release(r)]);
    }
  }

  /** If nobody moves in between, the state at the fault decides. */
  lemma {:induction false} PromptReleaseBreaksIff(cfg: Config, now: int, acts: seq<Action>, r: nat, p: Payload)
    requires ValidConfig(cfg) && AllHarmless(acts) && IsRun(cfg, LockOutlivesRun, Initial(now), acts)
    requires Enabled(After(cfg, Initial(now), acts), EarlyFault(r))
    ensures var st := After(cfg, Initial(now), acts);
      CanSucceedTwice(cfg, now, acts + [EarlyFault(r), Release(r)]) <==> st.successes != [] || OthersOwn(st, r)
  {
    RunEndHolds(cfg, LockOutlivesRun, Initial(now), acts);
    StepJoins(cfg, now, acts, EarlyFault(r));
    assert acts + [EarlyFault(r)] + [] == acts + [EarlyFault(r)];
    assert acts + [EarlyFault(r)] + [Release(r)] == acts + [EarlyFault(r), Release(r)];
    EarlyFaultBreaksIff(cfg, now, acts, r, [], p);
    var st, st' := After(cfg, Initial(now), acts), After(cfg, Initial(now), acts + [EarlyFault(r)]);
    assert forall q :: q != r ==> (q in st.requests <==> q in st'.requests);
    assert forall q :: q in st.requests && q != r ==> st'.requests[q] == st.requests[q];
    assert OthersOwn(st', r) <==> OthersOwn(st, r);
  }

  // ---- A mark that throws ---------------------------------------------------------

  /** The lock is in the store and nobody but `r` can be its owner. */
  ghost predicate Sealed(cfg: Config, st: State, r: nat) {
    cfg.lockKey in st.store.entries && !OthersOwn(st, r)
  }

  lemma StepKeepsSealed(cfg: Config, st: State, r: nat, a: Action)
    requires ValidConfig(cfg) && Sealed(cfg, st, r) && Enabled(st, a) && Harmless(a) && Holds(cfg, st, LockOutlivesRun)
    requires r in st.requests && (Owns(st.requests[r].phase) ==> !Moves(a, r))
    ensures Sealed(cfg, Step(cfg, st, a), r) && !a.Finish?
    ensures var st' := Step(cfg, st, a);
      r in st'.requests && (Owns(st.requests[r].phase) || Owns(st'.requests[r].phase) ==>
        st'.requests[r] == st.requests[r])
  {
    var st' := Step(cfg, st, a);
    forall q | q in st'.requests && q != r
      ensures !Owns(st'.requests[q].phase)
    {
      assert q in st.requests ==> !Owns(st.requests[q].phase);
    }
  }

  lemma {:induction false} SealedIsQuiet(cfg: Config, st: State, r: nat, acts: seq<Action>)
    requires ValidConfig(cfg) && Sealed(cfg, st, r) && r in st.requests
    requires Owns(st.requests[r].phase) ==> Spares(acts, r)
    requires AllHarmless(acts) && IsRun(cfg, LockOutlivesRun, st, acts)
    ensures HandlerSuccesses(acts) == 0 && Sealed(cfg, After(cfg, st, acts), r)
    ensures r in After(cfg, st, acts).requests
    ensures Owns(st.requests[r].phase) ==> After(cfg, st, acts).requests[r] == st.requests[r]
    decreases |acts|
  {
    if acts != [] {
      StepKeepsSealed(cfg, st, r, acts[0]);
      SealedIsQuiet(cfg, Step(cfg, st, acts[0]), r, acts[1..]);
    }
  }

  lemma {:induction false} MarkFaultSeals(cfg: Config, now: int, acts: seq<Action>, r: nat, mid: seq<Action>)
    requires ValidConfig(cfg) && AllHarmless(acts) && AllHarmless(mid) && Spares(mid, r)
    requires IsRun(cfg, LockOutlivesRun, Initial(now), acts + [MarkFaults(r)] + mid)
    ensures var faulted := acts + [MarkFaults(r)] + mid;
      var st := After(cfg, Initial(now), faulted);
      Sealed(cfg, st, r) && In(st, r, Releasing(Threw, true)) && HandlerSuccesses(faulted) == 1
  {
    var asm, start := LockOutlivesRun, Initial(now);
    RunSplits(cfg, asm, start, acts + [MarkFaults(r)], mid);
    RunSplits(cfg, asm, start, acts, [MarkFaults(r)]);
    RunKeepsAtMostOnce(cfg, start, acts);
    RunCounts(cfg, start, acts);
    assert [MarkFaults(r)][1..] == [];
    assert SomebodyMarks(After(cfg, start, acts));
    SealedIsQuiet(cfg, After(cfg, start, acts + [MarkFaults(r)]), r, mid);
    SuccessesAdd(acts, [MarkFaults(r)]);
    SuccessesAdd(acts + [MarkFaults(r)], mid);
  }

  /**
    In every run without lock expiry in which a mark throws behind a successful handler,
    whatever the others do before the catch block has released: the handler can come to a
    second success exactly if that release goes through.  A lock that stays keeps
    everybody out.
   */
  lemma {:induction false} MarkFaultBreaksIff(
    cfg: Config, now: int, acts: seq<Action>, r: nat, mid: seq<Action>, last: Action, p: Payload)
    requires ValidConfig(cfg) && AllHarmless(acts) && AllHarmless(mid) && Spares(mid, r)
    requires IsRun(cfg, LockOutlivesRun, Initial(now), acts + [MarkFaults(r)] + mid)
    requires last == Release(r) || last == ReleaseFaults(r)
    ensures CanSucceedTwice(cfg, now, acts + [MarkFaults(r)] + mid + [last]) <==> last == Release(r)
  {
    var faulted := acts + [MarkFaults(r)] + mid;
    var st := After(cfg, Initial(now), faulted);
    MarkFaultSeals(cfg, now, acts, r, mid);
    RunEndHolds(cfg, LockOutlivesRun, Initial(now), faulted);
    StepJoins(cfg, now, faulted, last);
    if last == Release(r) {
      SecondSuccess(cfg, now, faulted + [last], p);
    } else {
      LockStaysSealed(cfg, now, faulted + [last], r);
    }
  }

  lemma {:induction false} LockStaysSealed(cfg: Config, now: int, acts: seq<Action>, r: nat)
    requires ValidConfig(cfg) && HandlerSuccesses(acts) <= 1
    requires var st := After(cfg, Initial(now), acts);
      Sealed(cfg, st, r) && r in st.requests && !Owns(st.requests[r].phase)
    ensures !CanSucceedTwice(cfg, now, acts)
  {
    forall more | AllHarmless(more) && IsRun(cfg, LockOutlivesRun, Initial(now), acts + more)
      ensures HandlerSuccesses(acts + more) <= 1
    {
      RunSplits(cfg, LockOutlivesRun, Initial(now), acts, more);
      SealedIsQuiet(cfg, After(cfg, Initial(now), acts), r, more);
      SuccessesAdd(acts, more);
    }
  }

  // ---- Such runs from the start -----------------------------------------------------

  lemma {:induction false} NothingYet(cfg: Config, now: int)
    ensures IsRun(cfg, LockOutlivesRun, Initial(now), []) && After(cfg, Initial(now), []) == Initial(now)
  {
  }

  lemma {:induction false} FourJoin(cfg: Config, now: int, a: Action, b: Action, c: Action, e: Action)
    requires var s0 := Initial(now); Enabled(s0, a) && Holds(cfg, Step(cfg, s0, a), LockOutlivesRun)
    requires var s1 := Step(cfg, Initial(now), a); Enabled(s1, b) && Holds(cfg, Step(cfg, s1, b), LockOutlivesRun)
    requires var s2 := Step(cfg, Step(cfg, Initial(now), a), b);
      Enabled(s2, c) && Holds(cfg, Step(cfg, s2, c), LockOutlivesRun)
    requires var s3 := Step(cfg, Step(cfg, Step(cfg, Initial(now), a), b), c);
      Enabled(s3, e) && Holds(cfg, Step(cfg, s3, e), LockOutlivesRun)
    requires !a.Finish? && !b.Finish? && !c.Finish? && !e.Finish?
    ensures IsRun(cfg, LockOutlivesRun, Initial(now), [a, b, c, e]) && HandlerSuccesses([a, b, c, e]) == 0
    ensures After(cfg, Initial(now), [a, b, c, e]) ==
      Step(cfg, Step(cfg, Step(cfg, Step(cfg, Initial(now), a), b), c), e)
  {
    NothingYet(cfg, now);
    assert [] + [a] == [a] && [a] + [b] == [a, b] && [a, b] + [c] == [a, b, c] && [a, b, c] + [e] == [a, b, c, e];
    StepJoins(cfg, now, [], a);
    StepJoins(cfg, now, [a], b);
    StepJoins(cfg, now, [a, b], c);
    StepJoins(cfg, now, [a, b, c], e);
  }

  lemma {:induction false} RobbedRunnerSucceeds(cfg: Config, now: int, acts: seq<Action>, p: Payload)
    requires ValidConfig(cfg) && IsRun(cfg, LockOutlivesRun, Initial(now), acts) && HandlerSuccesses(acts) == 0
    requires var st := After(cfg, Initial(now), acts);
      In(st, 0, Running) && 2 !in st.requests && st.store.entries == map[]
    ensures var all := acts + Newcomer(2, p) + [Finish(0, Succeeds(p))];
      IsRun(cfg, LockOutlivesRun, Initial(now), all) && HandlerSuccesses(all) == 2
  {
    NewcomerJoins(cfg, now, acts, 2, p);
    RunEndHolds(cfg, LockOutlivesRun, Initial(now), acts + Newcomer(2, p));
    StepJoins(cfg, now, acts + Newcomer(2, p), Finish(0, Succeeds(p)));
  }

  /** A run in which request 1 never gets beyond its check and yet the handler succeeds for 0 and for 2. */
  lemma {:induction false} EarlyFaultRunsHandlerTwice(cfg: Config, now: int, p: Payload)
    requires ValidConfig(cfg)
    ensures var acts := [Check(0), Acquire(0), EarlyFault(1), Release(1)] + Newcomer(2, p) + [Finish(0, Succeeds(p))];
      IsRun(cfg, LockOutlivesRun, Initial(now), acts) && HandlerSuccesses(acts) == 2
  {
    FourJoin(cfg, now, Check(0), Acquire(0), EarlyFault(1), Release(1));
    RobbedRunnerSucceeds(cfg, now, [Check(0), Acquire(0), EarlyFault(1), Release(1)], p);
  }

  /** The same where nobody owned the lock when request 1 failed: 0 gets it before 1 has released. */
  lemma {:induction false} LateReleaseRunsHandlerTwice(cfg: Config, now: int, p: Payload)
    requires ValidConfig(cfg)
    ensures var acts := [EarlyFault(1), Check(0), Acquire(0), Release(1)] + Newcomer(2, p) + [Finish(0, Succeeds(p))];
      IsRun(cfg, LockOutlivesRun, Initial(now), acts) && HandlerSuccesses(acts) == 2
  {
    FourJoin(cfg, now, EarlyFault(1), Check(0), Acquire(0), Release(1));
    RobbedRunnerSucceeds(cfg, now, [EarlyFault(1), Check(0), Acquire(0), Release(1)], p);
  }

  lemma {:induction false} MarkFaultLeavesKeysFree(cfg: Config, now: int, p: Payload)
    requires ValidConfig(cfg)
    ensures var acts := Newcomer(0, p) + [MarkFaults(0)] + [Release(0)];
      var st := After(cfg, Initial(now), acts);
      && IsRun(cfg, LockOutlivesRun, Initial(now), acts) && HandlerSuccesses(acts) == 1
      && 1 !in st.requests && cfg.lockKey !in st.store.entries && !Live(st.store, cfg.processedKey)
  {
    NewcomerRuns(cfg, Initial(now), 0, p);
    NewcomerSucceeds(0, p);
    var before := After(cfg, Initial(now), Newcomer(0, p));
    RunEndHolds(cfg, LockOutlivesRun, Initial(now), Newcomer(0, p));
    StepJoins(cfg, now, Newcomer(0, p), MarkFaults(0));
    StepJoins(cfg, now, Newcomer(0, p) + [MarkFaults(0)], Release(0));
    assert cfg.processedKey !in before.store.entries - {cfg.lockKey};
  }

  /** A failing mark lets the next request run the handler to success a second time. */
  lemma {:induction false} MarkFaultRunsHandlerTwice(cfg: Config, now: int, p: Payload)
    requires ValidConfig(cfg)
    ensures var acts := Newcomer(0, p) + [MarkFaults(0)] + [Release(0)] + Newcomer(1, p);
      IsRun(cfg, LockOutlivesRun, Initial(now), acts) && HandlerSuccesses(acts) == 2
  {
    MarkFaultLeavesKeysFree(cfg, now, p);
    NewcomerJoins(cfg, now, Newcomer(0, p) + [MarkFaults(0)] + [Release(0)], 1, p);
  }
}
