/**
  What every request answers, in every run: its handler's own result, whatever the others do
  and whichever store calls throw, or without a handler run the record or a conflict.
 */
module IdempotencyAnswers {
  import opened Wrappers
  import opened TtlStore
  import opened Idempotency

  ghost predicate NeverFinishes(acts: seq<Action>, r: nat) {
    forall outcome :: Finish(r, outcome) !in acts
  }

  ghost predicate FinishesOnlyWith(acts: seq<Action>, r: nat, outcome: HandlerOutcome) {
    && Finish(r, outcome) in acts
    && forall other :: Finish(r, other) in acts ==> other == outcome
  }

  ghost predicate Undisturbed(acts: seq<Action>, r: nat) {
    EarlyFault(r) !in acts && MarkFaults(r) !in acts && ReleaseFaults(r) !in acts
  }

  /** The answer of a request that is done, by what its handler came to and which calls threw. */
  ghost predicate AnswersAsItShould(acts: seq<Action>, r: nat, response: Response) {
    && (EarlyFault(r) in acts ==> NeverFinishes(acts, r) && response == Threw)
    && (EarlyFault(r) !in acts && NeverFinishes(acts, r) ==>
      response == Conflict || (response.Ok? && response.payload.Defined?))
    && (forall p :: Finish(r, Succeeds(p)) in acts ==> response == if MarkFaults(r) in acts then Threw else Ok(p))
    && (forall e :: Finish(r, Fails(e)) in acts ==>
      response == if ReleaseFaults(r) in acts then Threw else Failure(e))
    && (Finish(r, Throws) in acts ==> response == Threw)
  }

  /** How a request comes to hold the answer it gives once the lock is released. */
  ghost predicate ReleasesAsItShould(acts: seq<Action>, r: nat, response: Response, inCatch: bool) {
    || (NeverFinishes(acts, r) && EarlyFault(r) in acts && response == Threw && inCatch)
    || (EarlyFault(r) !in acts && (
      || (exists p :: FinishesOnlyWith(acts, r, Succeeds(p)) && MarkFaults(r) in acts && response == Threw && inCatch)
      || (exists e :: FinishesOnlyWith(acts, r, Fails(e)) && (ReleaseFaults(r) in acts <==> inCatch)
           && response == if inCatch then Threw else Failure(e))
      || (FinishesOnlyWith(acts, r, Throws) && response == Threw && inCatch)))
  }

  ghost predicate PhaseTells(acts: seq<Action>, r: nat, phase: Phase) {
    match phase
    case Marking(p) => FinishesOnlyWith(acts, r, Succeeds(p)) && Undisturbed(acts, r)
    case Releasing(response, inCatch) => ReleasesAsItShould(acts, r, response, inCatch)
    case Done(response) => AnswersAsItShould(acts, r, response)
    case _ => NeverFinishes(acts, r) && Undisturbed(acts, r)
  }

  ghost predicate Tells(acts: seq<Action>, st: State, r: nat) {
    if r in st.requests then PhaseTells(acts, r, st.requests[r].phase)
    else NeverFinishes(acts, r) && Undisturbed(acts, r)
  }

  /** The steps of others, and the clock, say nothing about `r`. */
  predicate Concerns(a: Action, r: nat) {
    !a.Tick? && a.r == r
  }

  lemma OthersTellNothing(acts: seq<Action>, a: Action, r: nat, phase: Phase)
    requires !Concerns(a, r)
    ensures PhaseTells(acts + [a], r, phase) <==> PhaseTells(acts, r, phase)
    ensures NeverFinishes(acts + [a], r) <==> NeverFinishes(acts, r)
    ensures Undisturbed(acts + [a], r) <==> Undisturbed(acts, r)
  {
    var all := acts + [a];
    assert forall b :: Concerns(b, r) ==> (b in all <==> b in acts);
    assert forall outcome {:trigger Finish(r, outcome)} :: Concerns(Finish(r, outcome), r);
    assert forall outcome :: FinishesOnlyWith(all, r, outcome) <==> FinishesOnlyWith(acts, r, outcome);
  }

  lemma OwnStepTells(cfg: Config, acts: seq<Action>, st: State, a: Action, r: nat)
    requires Concerns(a, r) && Enabled(st, a) && Tells(acts, st, r)
    ensures Tells(acts + [a], Step(cfg, st, a), r)
  {
  }

  lemma {:induction false} RunTells(cfg: Config, asm: Assumption, now: int, acts: seq<Action>, r: nat)
    requires IsRun(cfg, asm, Initial(now), acts)
    ensures Tells(acts, After(cfg, Initial(now), acts), r)
    decreases |acts|
  {
    if acts != [] {
      var n := |acts| - 1;
      var a := acts[n];
      assert acts == acts[..n] + [a];
      RunSplits(cfg, asm, Initial(now), acts[..n], [a]);
      RunTells(cfg, asm, now, acts[..n], r);
      var st := After(cfg, Initial(now), acts[..n]);
      assert [a][1..] == [];
      if Concerns(a, r) {
        OwnStepTells(cfg, acts[..n], st, a, r);
      } else if r in st.requests {
        OthersTellNothing(acts[..n], a, r, st.requests[r].phase);
      } else {
        OthersTellNothing(acts[..n], a, r, Running);
      }
    }
  }

  /**
    In every run, under any assumption and with any store call throwing: a request that is
    done answers what its handler came to; only a mark or a release that throws after it
    turns that into a throw.  Without a handler run it answers a conflict or a defined value.
   */
  lemma {:induction false} AnswersFollowTheHandler(cfg: Config, asm: Assumption, now: int, acts: seq<Action>, r: nat)
    requires IsRun(cfg, asm, Initial(now), acts)
    requires var st := After(cfg, Initial(now), acts); r in st.requests && st.requests[r].phase.Done?
    ensures AnswersAsItShould(acts, r, After(cfg, Initial(now), acts).requests[r].phase.response)
  {
    RunTells(cfg, asm, now, acts, r);
  }

  // ---- How often the lock is released ---------------------------------------------

  ghost function ReleaseAttempts(acts: seq<Action>, r: nat): nat {
    multiset(acts)[Release(r)] + multiset(acts)[ReleaseFaults(r)]
  }

  ghost predicate Failed(acts: seq<Action>, r: nat) {
    exists e :: Finish(r, Fails(e)) in acts
  }

  /** A failed request whose release throws tries it once more; any other tries at most once. */
  ghost predicate TriesAsItShould(acts: seq<Action>, r: nat) {
    ReleaseAttempts(acts, r) ==
      if Failed(acts, r) then if ReleaseFaults(r) in acts then 2 else 1
      else if EarlyFault(r) in acts || MarkFaults(r) in acts || Finish(r, Throws) in acts then 1
      else 0
  }

  ghost predicate HasTried(acts: seq<Action>, r: nat, phase: Phase) {
    match phase
    case Releasing(_, inCatch) => ReleaseAttempts(acts, r) == if inCatch && Failed(acts, r) then 1 else 0
    case Done(_) => TriesAsItShould(acts, r)
    case _ => ReleaseAttempts(acts, r) == 0
  }

  lemma OthersTryNothing(acts: seq<Action>, a: Action, r: nat, phase: Phase)
    requires !Concerns(a, r) && HasTried(acts, r, phase)
    ensures HasTried(acts + [a], r, phase)
  {
    var all := acts + [a];
    assert forall b :: Concerns(b, r) ==> (b in all <==> b in acts) && multiset(all)[b] == multiset(acts)[b];
    assert forall e {:trigger Finish(r, Fails(e))} :: Concerns(Finish(r, Fails(e)), r);
  }

  lemma OwnStepTries(cfg: Config, acts: seq<Action>, st: State, a: Action, r: nat)
    requires Concerns(a, r) && Enabled(st, a) && Tells(acts, st, r)
    requires if r in st.requests then HasTried(acts, r, st.requests[r].phase) else ReleaseAttempts(acts, r) == 0
    ensures var st' := Step(cfg, st, a); r in st'.requests && HasTried(acts + [a], r, st'.requests[r].phase)
  {
  }

  lemma {:induction false} RunTries(cfg: Config, asm: Assumption, now: int, acts: seq<Action>, r: nat)
    requires IsRun(cfg, asm, Initial(now), acts)
    ensures var st := After(cfg, Initial(now), acts);
      if r in st.requests then HasTried(acts, r, st.requests[r].phase) else ReleaseAttempts(acts, r) == 0
    decreases |acts|
  {
    if acts != [] {
      var n := |acts| - 1;
      var a := acts[n];
      assert acts == acts[..n] + [a];
      RunSplits(cfg, asm, Initial(now), acts[..n], [a]);
      RunTries(cfg, asm, now, acts[..n], r);
      RunTells(cfg, asm, now, acts[..n], r);
      var st := After(cfg, Initial(now), acts[..n]);
      assert [a][1..] == [];
      if Concerns(a, r) {
        OwnStepTries(cfg, acts[..n], st, a, r);
      } else if r in st.requests {
        OthersTryNothing(acts[..n], a, r, st.requests[r].phase);
      } else {
        OthersTryNothing(acts[..n], a, r, Running);
      }
    }
  }

  /** In every run, a request that is done has tried to release the lock as often as it should. */
  lemma {:induction false} ReleasesAreTried(cfg: Config, asm: Assumption, now: int, acts: seq<Action>, r: nat)
    requires IsRun(cfg, asm, Initial(now), acts)
    requires var st := After(cfg, Initial(now), acts); r in st.requests && st.requests[r].phase.Done?
    ensures TriesAsItShould(acts, r)
  {
    RunTries(cfg, asm, now, acts, r);
  }

  // ---- Who runs the handler -----------------------------------------------------

  /** The state a run was in when it took its `i`th step. */
  function At(cfg: Config, now: int, acts: seq<Action>, i: nat): State
    requires i <= |acts|
  {
    After(cfg, Initial(now), acts[..i])
  }

  /** The run took this step at some time when the key was, or was not, in the store. */
  ghost predicate TookWhen(cfg: Config, now: int, acts: seq<Action>, a: Action, k: Key, live: bool) {
    exists i :: 0 <= i < |acts| && TookAt(cfg, now, acts, i, a, k, live)
  }

  ghost predicate TookAt(cfg: Config, now: int, acts: seq<Action>, i: nat, a: Action, k: Key, live: bool)
    requires i < |acts|
  {
    acts[i] == a && (Live(At(cfg, now, acts, i).store, k) <==> live)
  }

  /** The run replayed the record to `r`: what could be read at that time is the answer. */
  ghost predicate ReplayedTo(cfg: Config, now: int, acts: seq<Action>, r: nat, response: Response) {
    exists i :: 0 <= i < |acts| && ReplayedAt(cfg, now, acts, i, r, response)
  }

  ghost predicate ReplayedAt(cfg: Config, now: int, acts: seq<Action>, i: nat, r: nat, response: Response)
    requires i < |acts|
  {
    acts[i] == Replay(r) && AnswersRecord(Lookup(At(cfg, now, acts, i).store, cfg.processedKey), response)
  }

  /** Which way a request without an early fault has gone so far. */
  ghost predicate WentAsFar(cfg: Config, now: int, acts: seq<Action>, r: nat, phase: Phase) {
    var recorded := TookWhen(cfg, now, acts, Check(r), cfg.processedKey, true);
    var unrecorded := TookWhen(cfg, now, acts, Check(r), cfg.processedKey, false);
    var refused := TookWhen(cfg, now, acts, Acquire(r), cfg.lockKey, true);
    var locked := TookWhen(cfg, now, acts, Acquire(r), cfg.lockKey, false);
    match phase
    case Replaying => recorded
    case Acquiring => unrecorded
    case Done(response) =>
      || (recorded && NeverFinishes(acts, r) && ReplayedTo(cfg, now, acts, r, response))
      || (unrecorded && refused && NeverFinishes(acts, r) && response == Conflict)
      || (unrecorded && locked && !NeverFinishes(acts, r))
    case _ => unrecorded && locked && (phase.Running? || !NeverFinishes(acts, r))
  }

  lemma TookStays(cfg: Config, now: int, acts: seq<Action>, b: Action, a: Action, k: Key, live: bool)
    ensures TookWhen(cfg, now, acts, a, k, live) ==> TookWhen(cfg, now, acts + [b], a, k, live)
  {
    if i :| 0 <= i < |acts| && TookAt(cfg, now, acts, i, a, k, live) {
      assert (acts + [b])[..i] == acts[..i];
      assert TookAt(cfg, now, acts + [b], i, a, k, live);
    }
  }

  lemma {:induction false} TakesNow(cfg: Config, now: int, acts: seq<Action>, a: Action, k: Key)
    ensures TookWhen(cfg, now, acts + [a], a, k, Live(After(cfg, Initial(now), acts).store, k))
  {
    var i := |acts|;
    assert (acts + [a])[..i] == acts;
    assert TookAt(cfg, now, acts + [a], i, a, k, Live(After(cfg, Initial(now), acts).store, k));
  }

  lemma ReplayStays(cfg: Config, now: int, acts: seq<Action>, b: Action, r: nat, response: Response)
    ensures ReplayedTo(cfg, now, acts, r, response) ==> ReplayedTo(cfg, now, acts + [b], r, response)
  {
    if i :| 0 <= i < |acts| && ReplayedAt(cfg, now, acts, i, r, response) {
      assert (acts + [b])[..i] == acts[..i];
      assert ReplayedAt(cfg, now, acts + [b], i, r, response);
    }
  }

  /** One more step, of anybody. */
  lemma WayStays(cfg: Config, now: int, acts: seq<Action>, b: Action, r: nat, phase: Phase)
    requires WentAsFar(cfg, now, acts, r, phase) && (Concerns(b, r) ==> !b.Finish?)
    ensures WentAsFar(cfg, now, acts + [b], r, phase)
  {
    forall a, k, live | TookWhen(cfg, now, acts, a, k, live)
      ensures TookWhen(cfg, now, acts + [b], a, k, live)
    {
      TookStays(cfg, now, acts, b, a, k, live);
    }
    if phase.Done? {
      ReplayStays(cfg, now, acts, b, r, phase.response);
    }
    assert NeverFinishes(acts + [b], r) <==> NeverFinishes(acts, r) by {
      assert forall outcome :: Finish(r, outcome) in acts + [b] <==> Finish(r, outcome) in acts;
    }
  }

  lemma {:induction false} ReplayGoesOn(cfg: Config, now: int, acts: seq<Action>, r: nat)
    requires var st := After(cfg, Initial(now), acts);
      In(st, r, Replaying) && Tells(acts, st, r) && WentAsFar(cfg, now, acts, r, Replaying)
    ensures var st' := Step(cfg, After(cfg, Initial(now), acts), Replay(r));
      r in st'.requests && WentAsFar(cfg, now, acts + [Replay(r)], r, st'.requests[r].phase)
  {
    var all := acts + [Replay(r)];
    WayStays(cfg, now, acts, Replay(r), r, Replaying);
    assert all[..|acts|] == acts;
    var response := Replayed(Lookup(After(cfg, Initial(now), acts).store, cfg.processedKey));
    assert ReplayedAt(cfg, now, all, |acts|, r, response);
    assert NeverFinishes(all, r);
  }

  lemma {:induction false} AcquireGoesOn(cfg: Config, now: int, acts: seq<Action>, r: nat)
    requires var st := After(cfg, Initial(now), acts);
      In(st, r, Acquiring) && Tells(acts, st, r) && WentAsFar(cfg, now, acts, r, Acquiring)
    ensures var st' := Step(cfg, After(cfg, Initial(now), acts), Acquire(r));
      r in st'.requests && WentAsFar(cfg, now, acts + [Acquire(r)], r, st'.requests[r].phase)
  {
    TakesNow(cfg, now, acts, Acquire(r), cfg.lockKey);
    WayStays(cfg, now, acts, Acquire(r), r, Acquiring);
    assert NeverFinishes(acts + [Acquire(r)], r);
  }

  /** From the end of the handler on, the way does not change any more. */
  lemma {:induction false} OwnerGoesOn(cfg: Config, now: int, acts: seq<Action>, a: Action, r: nat)
    requires Concerns(a, r) && (a.Finish? || a.Mark? || a.MarkFaults? || a.Release? || a.ReleaseFaults?)
    requires var st := After(cfg, Initial(now), acts);
      Enabled(st, a) && WentAsFar(cfg, now, acts, r, st.requests[r].phase)
    ensures var st' := Step(cfg, After(cfg, Initial(now), acts), a);
      r in st'.requests && WentAsFar(cfg, now, acts + [a], r, st'.requests[r].phase)
  {
    if a.Finish? {
      assert Finish(r, a.outcome) in acts + [a];
    }
    assert forall outcome :: Finish(r, outcome) in acts ==> Finish(r, outcome) in acts + [a];
    TookStays(cfg, now, acts, a, Check(r), cfg.processedKey, false);
    TookStays(cfg, now, acts, a, Acquire(r), cfg.lockKey, false);
  }

  lemma {:induction false} OwnStepGoesOn(cfg: Config, now: int, acts: seq<Action>, a: Action, r: nat)
    requires Concerns(a, r) && !a.EarlyFault? && Tells(acts, After(cfg, Initial(now), acts), r)
    requires var st := After(cfg, Initial(now), acts);
      && Enabled(st, a)
      && (r in st.requests ==> WentAsFar(cfg, now, acts, r, st.requests[r].phase))
    ensures var st' := Step(cfg, After(cfg, Initial(now), acts), a);
      r in st'.requests && WentAsFar(cfg, now, acts + [a], r, st'.requests[r].phase)
  {
    match a
    case Check(_) => TakesNow(cfg, now, acts, a, cfg.processedKey);
    case Replay(_) => ReplayGoesOn(cfg, now, acts, r);
    case Acquire(_) => AcquireGoesOn(cfg, now, acts, r);
    case Finish(_, _) => OwnerGoesOn(cfg, now, acts, a, r);
    case Mark(_) => OwnerGoesOn(cfg, now, acts, a, r);
    case MarkFaults(_) => OwnerGoesOn(cfg, now, acts, a, r);
    case Release(_) => OwnerGoesOn(cfg, now, acts, a, r);
    case ReleaseFaults(_) => OwnerGoesOn(cfg, now, acts, a, r);
  }

  lemma {:induction false} RunGoesItsWay(cfg: Config, asm: Assumption, now: int, acts: seq<Action>, r: nat)
    requires IsRun(cfg, asm, Initial(now), acts) && EarlyFault(r) !in acts
    ensures var st := After(cfg, Initial(now), acts);
      r in st.requests ==> WentAsFar(cfg, now, acts, r, st.requests[r].phase)
    decreases |acts|
  {
    if acts != [] {
      var n := |acts| - 1;
      var a := acts[n];
      assert acts == acts[..n] + [a];
      RunSplits(cfg, asm, Initial(now), acts[..n], [a]);
      RunGoesItsWay(cfg, asm, now, acts[..n], r);
      var st := After(cfg, Initial(now), acts[..n]);
      assert [a][1..] == [];
      if Concerns(a, r) {
        RunTells(cfg, asm, now, acts[..n], r);
        OwnStepGoesOn(cfg, now, acts[..n], a, r);
      } else if r in st.requests {
        WayStays(cfg, now, acts[..n], a, r, st.requests[r].phase);
      }
    }
  }

  /**
    In every run, a request that is done and was not stopped by an early fault has gone one
    of three ways: a record was there when it checked, and what could be read a moment later
    is the answer; or the lock was taken when it tried, and a conflict is; or it got the
    lock and its handler finished.
   */
  lemma {:induction false} OneOfThreeWays(cfg: Config, asm: Assumption, now: int, acts: seq<Action>, r: nat)
    requires IsRun(cfg, asm, Initial(now), acts) && EarlyFault(r) !in acts
    requires var st := After(cfg, Initial(now), acts); r in st.requests && st.requests[r].phase.Done?
    ensures var response := After(cfg, Initial(now), acts).requests[r].phase.response;
      || (&& TookWhen(cfg, now, acts, Check(r), cfg.processedKey, true) && NeverFinishes(acts, r)
          && ReplayedTo(cfg, now, acts, r, response))
      || (&& TookWhen(cfg, now, acts, Check(r), cfg.processedKey, false) && NeverFinishes(acts, r)
          && TookWhen(cfg, now, acts, Acquire(r), cfg.lockKey, true) && response == Conflict)
      || (&& TookWhen(cfg, now, acts, Check(r), cfg.processedKey, false) && !NeverFinishes(acts, r)
          && TookWhen(cfg, now, acts, Acquire(r), cfg.lockKey, false))
  {
    RunGoesItsWay(cfg, asm, now, acts, r);
  }
}
