/**
  The rate limiter: every request bumps the counter of its key and refreshes the
  counter's lifetime, and passes while the counter is at most the maximum.
 */
module RateLimiter {
  import opened Wrappers
  import opened TtlStore

  datatype Limits = Limits(maxRequests: nat, windowSeconds: nat)

  datatype Decision = Admitted | Rejected | Unidentified

  /** The decision for one request; without a key the store is left alone. */
  function Decide(limits: Limits, st: Store<int>, key: Option<Key>): (Store<int>, Decision) {
    match key
    case None => (st, Unidentified)
    case Some(k) =>
      var (st', hits) := Bump(st, k, limits.windowSeconds);
      (st', if hits > limits.maxRequests then Rejected else Admitted)
  }

  method Execute(limits: Limits, cache: RedisCache<int>, key: Option<Key>) returns (decision: Decision)
    modifies cache
    ensures (cache.State(), decision) == Decide(limits, old(cache.State()), key)
    ensures key == None ==> decision == Unidentified && cache.State() == old(cache.State())
    ensures key.Some? ==>
      && var seen := Lookup(old(cache.State()), key.value);
      && var hits := if seen.Some? then seen.value + 1 else 1;
      && decision == (if hits <= limits.maxRequests then Admitted else Rejected)
      && cache.State() == Put(old(cache.State()), key.value, hits, limits.windowSeconds)
  {
    if key == None {
      return Unidentified;
    }
    var currentHits := Increment(cache, key.value, Some(limits.windowSeconds));
    decision := if currentHits > limits.maxRequests then Rejected else Admitted;
  }

  // ---- Runs -----------------------------------------------------------------

  /** A request for `key` arriving `wait` milliseconds after the previous one. */
  datatype Arrival = Arrival(wait: nat, key: Key)

  datatype Hit = Hit(at: int, key: Key, count: int, admitted: bool)

  function Window(limits: Limits): int {
    limits.windowSeconds * MS_PER_SECOND
  }

  /** The store and the log of hits after a sequence of arrivals on an empty store. */
  function Run(limits: Limits, arrivals: seq<Arrival>): (Store<int>, seq<Hit>) {
    if arrivals == [] then (Store(0, map[]), [])
    else
      var (st, log) := Run(limits, arrivals[..|arrivals| - 1]);
      var a := arrivals[|arrivals| - 1];
      var st1 := Advance(st, a.wait);
      var count := Bump(st1, a.key, limits.windowSeconds).1;
      var (st2, decision) := Decide(limits, st1, Some(a.key));
      (st2, log + [Hit(st1.now, a.key, count, decision == Admitted)])
  }

  function Log(limits: Limits, arrivals: seq<Arrival>): seq<Hit> {
    Run(limits, arrivals).1
  }

  /** Hits on `key` at or after `from`, admitted or not. */
  function HitsSince(log: seq<Hit>, key: Key, from: int): nat {
    if log == [] then 0
    else
      var h := log[|log| - 1];
      HitsSince(log[..|log| - 1], key, from) + (if h.key == key && from <= h.at then 1 else 0)
  }

  /** Admitted hits on `key` in the half-open interval of one window starting at `from`. */
  function AdmittedWithin(log: seq<Hit>, key: Key, from: int, width: int): nat {
    if log == [] then 0
    else
      var h := log[|log| - 1];
      AdmittedWithin(log[..|log| - 1], key, from, width) +
      (if h.key == key && h.admitted && from <= h.at < from + width then 1 else 0)
  }

  lemma {:induction false} AdmittedAreHits(log: seq<Hit>, key: Key, from: int, width: int)
    ensures AdmittedWithin(log, key, from, width) <= HitsSince(log, key, from)
  {
    if log != [] {
      AdmittedAreHits(log[..|log| - 1], key, from, width);
    }
  }

  /** The latest hit on `key`, if any. */
  function Latest(log: seq<Hit>, key: Key): (r: Option<Hit>)
    ensures r.Some? ==> r.value in log && r.value.key == key
    ensures r.None? ==> forall h :: h in log ==> h.key != key
  {
    if log == [] then None
    else
      var h := log[|log| - 1];
      assert log == log[..|log| - 1] + [h];
      if h.key == key then Some(h) else Latest(log[..|log| - 1], key)
  }

  /** The stored counter of a key is the count of its latest hit and lives one window longer. */
  ghost predicate CounterValid(limits: Limits, st: Store<int>, log: seq<Hit>, key: Key) {
    match Latest(log, key)
    case None => key !in st.entries
    case Some(h) => key in st.entries && st.entries[key] == Entry(h.count, h.at + Window(limits)) && h.at <= st.now
  }

  /** Nothing that happened less than a window ago has been forgotten. */
  ghost predicate CountsEverything(limits: Limits, st: Store<int>, log: seq<Hit>, key: Key) {
    forall from :: st.now < from + Window(limits) ==>
      HitsSince(log, key, from) <= if Live(st, key) then st.entries[key].value else 0
  }

  lemma {:induction false} NoHitsAfterLatest(log: seq<Hit>, key: Key, from: int)
    requires forall i, j :: 0 <= i < j < |log| ==> log[i].at <= log[j].at
    requires Latest(log, key).None? || Latest(log, key).value.at < from
    ensures HitsSince(log, key, from) == 0
  {
    if log != [] {
      var h := log[|log| - 1];
      if h.key == key {
        AllEarlier(log, key, from);
      } else {
        NoHitsAfterLatest(log[..|log| - 1], key, from);
      }
    }
  }

  lemma {:induction false} AllEarlier(log: seq<Hit>, key: Key, from: int)
    requires forall i :: 0 <= i < |log| ==> log[i].at < from
    ensures HitsSince(log, key, from) == 0
  {
    if log != [] {
      AllEarlier(log[..|log| - 1], key, from);
    }
  }

  ghost predicate Ordered(st: Store<int>, log: seq<Hit>) {
    && (forall i :: 0 <= i < |log| ==> log[i].at <= st.now)
    && (forall i, j :: 0 <= i < j < |log| ==> log[i].at <= log[j].at)
  }

  /** Time passing forgets a counter only when its whole window has gone by. */
  lemma WaitingKeepsCounts(limits: Limits, st: Store<int>, log: seq<Hit>, wait: nat, key: Key)
    requires Ordered(st, log) && CounterValid(limits, st, log, key) && CountsEverything(limits, st, log, key)
    ensures CountsEverything(limits, Advance(st, wait), log, key)
  {
    var st1 := Advance(st, wait);
    forall from | st1.now < from + Window(limits)
      ensures HitsSince(log, key, from) <= if Live(st1, key) then st1.entries[key].value else 0
    {
      if !Live(st1, key) {
        NoHitsAfterLatest(log, key, from);
      }
    }
  }

  /** One more hit raises the counter of its key and leaves the others alone. */
  lemma HitKeepsCounts(limits: Limits, st: Store<int>, log: seq<Hit>, k: Key, key: Key)
    requires Ordered(st, log) && CounterValid(limits, st, log, key) && CountsEverything(limits, st, log, key)
    ensures var (st', decision) := Decide(limits, st, Some(k));
      var log' := log + [Hit(st.now, k, Bump(st, k, limits.windowSeconds).1, decision == Admitted)];
      CounterValid(limits, st', log', key) && CountsEverything(limits, st', log', key)
  {
    var (st', decision) := Decide(limits, st, Some(k));
    var log' := log + [Hit(st.now, k, Bump(st, k, limits.windowSeconds).1, decision == Admitted)];
    assert log'[..|log|] == log;
    forall from | st'.now < from + Window(limits)
      ensures HitsSince(log', key, from) <= if Live(st', key) then st'.entries[key].value else 0
    {
      if k == key && from > st.now {
        AllEarlier(log', key, from);
      }
    }
  }

  lemma {:induction false} RunIsValid(limits: Limits, arrivals: seq<Arrival>, key: Key)
    ensures var (st, log) := Run(limits, arrivals);
      && |log| == |arrivals| && Ordered(st, log)
      && CounterValid(limits, st, log, key) && CountsEverything(limits, st, log, key)
  {
    if arrivals == [] {
    } else {
      var before := arrivals[..|arrivals| - 1];
      var a := arrivals[|arrivals| - 1];
      RunIsValid(limits, before, key);
      var (st, log) := Run(limits, before);
      WaitingKeepsCounts(limits, st, log, a.wait, key);
      HitKeepsCounts(limits, Advance(st, a.wait), log, a.key, key);
    }
  }

  /**
    The sliding-window bound: whatever arrives, and for whichever keys, no interval
    of one window ever sees more than the maximum admitted for one key.
   */
  lemma {:induction false} SlidingWindowBound(limits: Limits, arrivals: seq<Arrival>, key: Key, from: int)
    ensures AdmittedWithin(Log(limits, arrivals), key, from, Window(limits)) <= limits.maxRequests
  {
    if arrivals == [] {
    } else {
      var before := arrivals[..|arrivals| - 1];
      var log := Log(limits, arrivals);
      var h := log[|log| - 1];
      SlidingWindowBound(limits, before, key, from);
      assert log[..|log| - 1] == Log(limits, before);
      if h.key == key && h.admitted && from <= h.at < from + Window(limits) {
        RunIsValid(limits, arrivals, key);
        AdmittedAreHits(log, key, from, Window(limits));
        assert Latest(log, key) == Some(h);
      }
    }
  }

  /** A hit continues the count of the previous hit on its key unless a whole window has passed. */
  lemma CountContinues(limits: Limits, arrivals: seq<Arrival>, a: Arrival)
    ensures var log := Log(limits, arrivals);
      var h := Log(limits, arrivals + [a])[|log|];
      && Log(limits, arrivals + [a])[..|log|] == log && h.key == a.key
      && h.admitted == (h.count <= limits.maxRequests)
      && h.count == match Latest(log, a.key)
                    case None => 1
                    case Some(p) => if h.at < p.at + Window(limits) then p.count + 1 else 1
  {
    RunIsValid(limits, arrivals, a.key);
    assert (arrivals + [a])[..|arrivals|] == arrivals;
  }

  /** A key that was just rejected is rejected again exactly until it has been quiet for a window. */
  lemma BlockedUntilQuiet(limits: Limits, arrivals: seq<Arrival>, a: Arrival)
    requires 0 < limits.maxRequests
    requires var p := Latest(Log(limits, arrivals), a.key); p.Some? && !p.value.admitted
    ensures var log := Log(limits, arrivals);
      var h := Log(limits, arrivals + [a])[|log|];
      h.admitted <==> Latest(log, a.key).value.at + Window(limits) <= h.at
  {
    CountContinues(limits, arrivals, a);
    var log := Log(limits, arrivals);
    AdmittedByCount(limits, arrivals, Latest(log, a.key).value);
  }

  lemma {:induction false} AdmittedByCount(limits: Limits, arrivals: seq<Arrival>, h: Hit)
    requires h in Log(limits, arrivals)
    ensures h.admitted <==> h.count <= limits.maxRequests
  {
    if arrivals != [] {
      var before := arrivals[..|arrivals| - 1];
      var log := Log(limits, arrivals);
      assert log == Log(limits, before) + [log[|log| - 1]];
      if h in Log(limits, before) {
        AdmittedByCount(limits, before, h);
      }
    }
  }
}
