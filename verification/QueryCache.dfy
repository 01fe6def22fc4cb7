/**
  The read-through cache in front of the query handlers.  Any number of queries
  read, run and write interleaved over one store whose entries expire, are evicted
  by others, and whose reads and writes may fail.
 */
module QueryCache {
  import opened Wrappers
  import opened TtlStore

  datatype Options = Options(
    cacheKey: string, bypassCache: bool, consistentRead: bool, isUserScoped: bool, ttl: Option<int>)

  datatype Query = Query(options: Option<Options>, identity: string)

  /** Builds the key in the store from user-scoped or not, the caller's identity and the query's own key. */
  type KeyBuilder = (bool, string, string) -> Key

  predicate Cached(q: Query) {
    q.options.Some? && q.options.value.cacheKey != ""
  }

  predicate Bypasses(q: Query)
    requires Cached(q)
  {
    q.options.value.bypassCache || q.options.value.consistentRead
  }

  function KeyOf(build: KeyBuilder, q: Query): Key
    requires Cached(q)
  {
    build(q.options.value.isUserScoped, q.identity, q.options.value.cacheKey)
  }

  /** A day, unless the query says otherwise. */
  function TtlOf(q: Query): int
    requires Cached(q)
  {
    if q.options.value.ttl.Some? then q.options.value.ttl.value else 86400
  }

  // ---- The machine ------------------------------------------------------------

  datatype Outcome = Ok(payload: Payload) | Failure(error: int) | Threw(error: int)

  datatype Phase =
    | Reading
    | Running
    | Writing(payload: Payload)
    | Answered(outcome: Outcome, fromCache: bool)

  datatype Request = Request(query: Query, phase: Phase, answeredAt: int)

  /** A handler run that has returned, and a value that has reached the store. */
  datatype Ran = Ran(request: nat, query: Query, outcome: Outcome, at: int)
  datatype Wrote = Wrote(request: nat, query: Query, payload: Payload, at: int)

  /** `ran` and `wrote` are history: no step reads them. */
  datatype State = State(store: Store<Payload>, requests: map<nat, Request>, ran: seq<Ran>, wrote: seq<Wrote>)

  datatype Action =
    | Tick(ms: nat)
    | Evict(key: Key)
    | Start(r: nat, query: Query)
    | Read(r: nat)
    | ReadFaults(r: nat)
    | Finish(r: nat, outcome: Outcome)
    | Write(r: nat)
    | WriteFaults(r: nat)

  predicate At(st: State, r: nat, phase: Phase) {
    r in st.requests && st.requests[r].phase == phase
  }

  predicate WritingAt(st: State, r: nat) {
    r in st.requests && st.requests[r].phase.Writing?
  }

  /** The store refuses an entry without a positive lifetime: such a write can only fail. */
  predicate Enabled(st: State, a: Action) {
    match a
    case Tick(_) => true
    case Evict(_) => true
    case Start(r, _) => r !in st.requests
    case Read(r) => At(st, r, Reading)
    case ReadFaults(r) => At(st, r, Reading)
    case Finish(r, _) => At(st, r, Running)
    case Write(r) =>
      WritingAt(st, r) && Cached(st.requests[r].query) && 0 < TtlOf(st.requests[r].query)
    case WriteFaults(r) => WritingAt(st, r)
  }

  function Move(st: State, r: nat, phase: Phase): State
    requires r in st.requests
  {
    st.(requests := st.requests[r := st.requests[r].(phase := phase, answeredAt := st.store.now)])
  }

  predicate IsHit(found: Option<Payload>) {
    found.Some? && found.value.Defined?
  }

  /** Where a query goes first: without usable cache options, or past the cache, straight to its handler. */
  function FirstPhase(q: Query): Phase {
    if Cached(q) && !Bypasses(q) then Reading else Running
  }

  /** Where a handler's outcome leads: only a success of a cached query is written. */
  function AfterRun(q: Query, outcome: Outcome): Phase {
    if Cached(q) && outcome.Ok? then Writing(outcome.payload) else Answered(outcome, false)
  }

  function Step(build: KeyBuilder, st: State, a: Action): State {
    if !Enabled(st, a) then st
    else match a
      case Tick(ms) => st.(store := Advance(st.store, ms))
      case Evict(key) => st.(store := Delete(st.store, key))
      case Start(r, q) => st.(requests := st.requests[r := Request(q, FirstPhase(q), st.store.now)])
      case Read(r) =>
        var q := st.requests[r].query;
        var found := if Cached(q) then Lookup(st.store, KeyOf(build, q)) else None;
        Move(st, r, if IsHit(found) then Answered(Ok(found.value), true) else Running)
      case ReadFaults(r) => Move(st, r, Running)
      case Finish(r, outcome) =>
        var q := st.requests[r].query;
        Move(st, r, AfterRun(q, outcome)).(ran := st.ran + [Ran(r, q, outcome, st.store.now)])
      case Write(r) =>
        var q := st.requests[r].query;
        var p := st.requests[r].phase.payload;
        Move(st, r, Answered(Ok(p), false)).(
          store := Put(st.store, KeyOf(build, q), p, TtlOf(q)),
          wrote := st.wrote + [Wrote(r, q, p, st.store.now)])
      case WriteFaults(r) => Move(st, r, Answered(Ok(st.requests[r].phase.payload), false))
  }

  function Initial(now: int): State {
    State(Store(now, map[]), map[], [], [])
  }

  /** A run: the actions one after the other, those that are not enabled left out. */
  function After(build: KeyBuilder, st: State, acts: seq<Action>): State
    decreases |acts|
  {
    if acts == [] then st else After(build, Step(build, st, acts[0]), acts[1..])
  }

  // ---- What every step keeps ----------------------------------------------------

  /** A handler run of request `r` ended with this outcome and no later than `until`. */
  ghost predicate RanWith(ran: seq<Ran>, r: nat, q: Query, outcome: Outcome, until: int) {
    exists i :: 0 <= i < |ran| && IsRun(ran[i], r, q, outcome, until)
  }

  predicate IsRun(x: Ran, r: nat, q: Query, outcome: Outcome, until: int) {
    x.request == r && x.query == q && x.outcome == outcome && x.at <= until
  }

  ghost predicate HasRun(ran: seq<Ran>, r: nat) {
    exists i :: 0 <= i < |ran| && ran[i].request == r
  }

  ghost predicate RunsOnce(ran: seq<Ran>) {
    forall i, j :: 0 <= i < j < |ran| ==> ran[i].request != ran[j].request
  }

  ghost predicate WriteValid(ran: seq<Ran>, w: Wrote) {
    Cached(w.query) && RanWith(ran, w.request, w.query, Ok(w.payload), w.at)
  }

  ghost predicate WritesValid(ran: seq<Ran>, wrote: seq<Wrote>) {
    forall j :: 0 <= j < |wrote| ==> WriteValid(ran, wrote[j])
  }

  /** A value under this key that expires then was put there by a recorded write. */
  ghost predicate Written(build: KeyBuilder, wrote: seq<Wrote>, key: Key, p: Payload, expiresAt: int, until: int) {
    exists j :: 0 <= j < |wrote| && Matches(build, wrote[j], key, p, expiresAt, until)
  }

  ghost predicate Matches(build: KeyBuilder, w: Wrote, key: Key, p: Payload, expiresAt: int, until: int) {
    && Cached(w.query) && KeyOf(build, w.query) == key && w.payload == p
    && w.at <= until && expiresAt == w.at + TtlOf(w.query) * MS_PER_SECOND
  }

  ghost predicate EntryValid(build: KeyBuilder, st: State, key: Key) {
    key in st.store.entries ==>
      Written(build, st.wrote, key, st.store.entries[key].value, st.store.entries[key].expiresAt, st.store.now)
  }

  /** A recorded write to the query's own key that had not expired at the time. */
  ghost predicate Served(build: KeyBuilder, wrote: seq<Wrote>, q: Query, p: Payload, at: int)
    requires Cached(q)
  {
    exists j :: 0 <= j < |wrote| && Serves(build, wrote[j], q, p, at)
  }

  ghost predicate Serves(build: KeyBuilder, w: Wrote, q: Query, p: Payload, at: int)
    requires Cached(q)
  {
    && Cached(w.query) && KeyOf(build, w.query) == KeyOf(build, q) && w.payload == p
    && w.at <= at < w.at + TtlOf(w.query) * MS_PER_SECOND
  }

  ghost predicate RequestValid(build: KeyBuilder, ran: seq<Ran>, wrote: seq<Wrote>, r: nat, req: Request) {
    match req.phase
    case Reading => Cached(req.query) && !Bypasses(req.query) && !HasRun(ran, r)
    case Running => !HasRun(ran, r)
    case Writing(p) => Cached(req.query) && RanWith(ran, r, req.query, Ok(p), req.answeredAt)
    case Answered(outcome, fromCache) =>
      if fromCache then
        && Cached(req.query) && !Bypasses(req.query) && !HasRun(ran, r)
        && outcome.Ok? && outcome.payload.Defined?
        && Served(build, wrote, req.query, outcome.payload, req.answeredAt)
      else RanWith(ran, r, req.query, outcome, req.answeredAt)
  }

  ghost predicate RequestsValid(build: KeyBuilder, st: State) {
    && (forall r :: r in st.requests ==> RequestValid(build, st.ran, st.wrote, r, st.requests[r]))
    && (forall r :: r in st.requests ==> st.requests[r].answeredAt <= st.store.now)
    && (forall i :: 0 <= i < |st.ran| ==> st.ran[i].request in st.requests)
  }

  ghost predicate Valid(build: KeyBuilder, st: State) {
    && RunsOnce(st.ran) && WritesValid(st.ran, st.wrote)
    && (forall key :: key in st.store.entries ==> EntryValid(build, st, key))
    && RequestsValid(build, st)
  }

  lemma RanStays(ran: seq<Ran>, more: seq<Ran>, r: nat, q: Query, outcome: Outcome, until: int, until': int)
    requires RanWith(ran, r, q, outcome, until) && until <= until'
    ensures RanWith(ran + more, r, q, outcome, until')
  {
    var i :| 0 <= i < |ran| && IsRun(ran[i], r, q, outcome, until);
    assert IsRun((ran + more)[i], r, q, outcome, until');
  }

  lemma OthersDoNotRun(ran: seq<Ran>, x: Ran, r: nat)
    requires x.request != r
    ensures HasRun(ran + [x], r) <==> HasRun(ran, r)
  {
    if HasRun(ran, r) {
      var i :| 0 <= i < |ran| && ran[i].request == r;
      assert (ran + [x])[i] == ran[i];
    }
  }

  lemma ServedStays(build: KeyBuilder, wrote: seq<Wrote>, w: Wrote, q: Query, p: Payload, at: int)
    requires Cached(q) && Served(build, wrote, q, p, at)
    ensures Served(build, wrote + [w], q, p, at)
  {
    var j :| 0 <= j < |wrote| && Serves(build, wrote[j], q, p, at);
    assert (wrote + [w])[j] == wrote[j];
  }

  lemma WrittenStays(
    build: KeyBuilder, wrote: seq<Wrote>, more: seq<Wrote>, key: Key, p: Payload, expiresAt: int,
    until: int, until': int)
    requires Written(build, wrote, key, p, expiresAt, until) && until <= until'
    ensures Written(build, wrote + more, key, p, expiresAt, until')
  {
    var j :| 0 <= j < |wrote| && Matches(build, wrote[j], key, p, expiresAt, until);
    assert Matches(build, (wrote + more)[j], key, p, expiresAt, until');
  }

  /** Another request's run and write leave a request's standing as it is. */
  lemma OthersStayValid(build: KeyBuilder, ran: seq<Ran>, wrote: seq<Wrote>, r: nat, req: Request, x: Ran, w: Wrote)
    requires RequestValid(build, ran, wrote, r, req) && x.request != r
    ensures RequestValid(build, ran + [x], wrote, r, req) && RequestValid(build, ran, wrote + [w], r, req)
  {
    OthersDoNotRun(ran, x, r);
    match req.phase
    case Writing(p) => RanStays(ran, [x], r, req.query, Ok(p), req.answeredAt, req.answeredAt);
    case Answered(outcome, fromCache) =>
      if fromCache {
        ServedStays(build, wrote, w, req.query, outcome.payload, req.answeredAt);
      } else {
        RanStays(ran, [x], r, req.query, outcome, req.answeredAt, req.answeredAt);
      }
    case _ =>
  }

  lemma RecordKeepsRuns(ran: seq<Ran>, wrote: seq<Wrote>, x: Ran)
    requires RunsOnce(ran) && WritesValid(ran, wrote) && !HasRun(ran, x.request)
    ensures RunsOnce(ran + [x]) && WritesValid(ran + [x], wrote)
  {
    forall j | 0 <= j < |wrote|
      ensures WriteValid(ran + [x], wrote[j])
    {
      assert WriteValid(ran, wrote[j]);
      RanStays(ran, [x], wrote[j].request, wrote[j].query, Ok(wrote[j].payload), wrote[j].at, wrote[j].at);
    }
  }

  lemma FinishKeepsValid(build: KeyBuilder, st: State, r: nat, outcome: Outcome)
    requires Valid(build, st) && At(st, r, Running)
    ensures Valid(build, Step(build, st, Finish(r, outcome)))
  {
    var st' := Step(build, st, Finish(r, outcome));
    var q := st.requests[r].query;
    var x := Ran(r, q, outcome, st.store.now);
    assert RequestValid(build, st.ran, st.wrote, r, st.requests[r]);
    RecordKeepsRuns(st.ran, st.wrote, x);
    assert st'.ran[|st.ran|] == x;
    forall p | p in st'.requests
      ensures RequestValid(build, st'.ran, st'.wrote, p, st'.requests[p])
    {
      if p != r {
        OthersStayValid(build, st.ran, st.wrote, p, st.requests[p], x, Wrote(r, q, Undefined, 0));
      }
    }
    forall key | key in st'.store.entries
      ensures EntryValid(build, st', key)
    {
      assert EntryValid(build, st, key);
    }
  }

  lemma WriteKeepsRequests(build: KeyBuilder, st: State, r: nat, w: Wrote)
    requires RequestsValid(build, st) && WritingAt(st, r)
    ensures var moved := Move(st, r, Answered(Ok(st.requests[r].phase.payload), false));
      RequestsValid(build, moved.(wrote := st.wrote + [w]))
  {
    var req := st.requests[r];
    assert RequestValid(build, st.ran, st.wrote, r, req);
    RanStays(st.ran, [], r, req.query, Ok(req.phase.payload), req.answeredAt, st.store.now);
    assert st.ran + [] == st.ran;
    forall p | p in st.requests && p != r
      ensures RequestValid(build, st.ran, st.wrote + [w], p, st.requests[p])
    {
      OthersStayValid(build, st.ran, st.wrote, p, st.requests[p], Ran(r, req.query, Threw(0), 0), w);
    }
  }

  lemma WriteKeepsValid(build: KeyBuilder, st: State, r: nat)
    requires Valid(build, st) && Enabled(st, Write(r))
    ensures Valid(build, Step(build, st, Write(r)))
  {
    var st' := Step(build, st, Write(r));
    var req := st.requests[r];
    var w := Wrote(r, req.query, req.phase.payload, st.store.now);
    assert RequestValid(build, st.ran, st.wrote, r, req);
    RanStays(st.ran, [], r, req.query, Ok(req.phase.payload), req.answeredAt, st.store.now);
    assert st.ran + [] == st.ran;
    assert WriteValid(st.ran, w);
    WriteKeepsRequests(build, st, r, w);
    forall key | key in st'.store.entries
      ensures EntryValid(build, st', key)
    {
      if key == KeyOf(build, req.query) {
        assert Matches(build, st'.wrote[|st.wrote|], key, w.payload, st'.store.entries[key].expiresAt, st.store.now);
      } else {
        var e := st.store.entries[key];
        assert EntryValid(build, st, key);
        WrittenStays(build, st.wrote, [w], key, e.value, e.expiresAt, st.store.now, st.store.now);
      }
    }
  }

  lemma StepKeepsValid(build: KeyBuilder, st: State, a: Action)
    requires Valid(build, st)
    ensures Valid(build, Step(build, st, a))
  {
    if Enabled(st, a) {
      match a
      case ReadFaults(r) => assert RequestValid(build, st.ran, st.wrote, r, st.requests[r]);
      case Finish(r, outcome) => FinishKeepsValid(build, st, r, outcome);
      case Write(r) => WriteKeepsValid(build, st, r);
      case _ =>
    }
  }

  lemma {:induction false} RunKeepsValid(build: KeyBuilder, st: State, acts: seq<Action>)
    requires Valid(build, st)
    ensures Valid(build, After(build, st, acts))
    decreases |acts|
  {
    if acts != [] {
      StepKeepsValid(build, st, acts[0]);
      RunKeepsValid(build, Step(build, st, acts[0]), acts[1..]);
    }
  }

  // ---- What holds of every run ----------------------------------------------------

  /** Whatever is in the store came from a successful handler run of a query with the same key. */
  lemma {:induction false} CachedValuesAreGenuine(build: KeyBuilder, now: int, acts: seq<Action>, key: Key)
    requires key in After(build, Initial(now), acts).store.entries
    ensures var st := After(build, Initial(now), acts);
      exists i :: 0 <= i < |st.ran| && Cached(st.ran[i].query) && KeyOf(build, st.ran[i].query) == key
        && st.ran[i].outcome == Ok(st.store.entries[key].value)
  {
    var st := After(build, Initial(now), acts);
    RunKeepsValid(build, Initial(now), acts);
    var e := st.store.entries[key];
    assert EntryValid(build, st, key);
    var j :| 0 <= j < |st.wrote| && Matches(build, st.wrote[j], key, e.value, e.expiresAt, st.store.now);
    assert WriteValid(st.ran, st.wrote[j]);
  }

  /**
    An answer is the outcome of the request's one own handler run, or the request never
    ran its handler and the answer was written under its key within the writer's lifetime.
   */
  lemma {:induction false} EveryAnswerIsAccountedFor(build: KeyBuilder, now: int, acts: seq<Action>, r: nat)
    requires r in After(build, Initial(now), acts).requests
    requires After(build, Initial(now), acts).requests[r].phase.Answered?
    ensures var st := After(build, Initial(now), acts);
      var req := st.requests[r];
      && (HasRun(st.ran, r) <==> !req.phase.fromCache)
      && (!req.phase.fromCache ==> RanWith(st.ran, r, req.query, req.phase.outcome, req.answeredAt))
      && (req.phase.fromCache ==>
        && Cached(req.query) && req.phase.outcome.Ok?
        && Served(build, st.wrote, req.query, req.phase.outcome.payload, req.answeredAt))
      && (forall i, j :: 0 <= i < j < |st.ran| ==> st.ran[i].request != st.ran[j].request)
  {
    var st := After(build, Initial(now), acts);
    RunKeepsValid(build, Initial(now), acts);
    assert RequestValid(build, st.ran, st.wrote, r, st.requests[r]);
  }

  /** Bypassing, asking for a consistent read, or giving no cache key: the answer is the request's own. */
  lemma {:induction false} BypassAnswersAreOwn(build: KeyBuilder, now: int, acts: seq<Action>, r: nat)
    requires r in After(build, Initial(now), acts).requests
    requires After(build, Initial(now), acts).requests[r].phase.Answered?
    requires var q := After(build, Initial(now), acts).requests[r].query;
      q.options.None? || var o := q.options.value; o.cacheKey == "" || o.bypassCache || o.consistentRead
    ensures var st := After(build, Initial(now), acts);
      RanWith(st.ran, r, st.requests[r].query, st.requests[r].phase.outcome, st.requests[r].answeredAt)
  {
    var st := After(build, Initial(now), acts);
    RunKeepsValid(build, Initial(now), acts);
    assert RequestValid(build, st.ran, st.wrote, r, st.requests[r]);
  }

  /** Scoped keys tell users and cache keys apart, and no scoped key is a contextual one. */
  ghost predicate Separates(build: KeyBuilder) {
    && (forall i, k, i', k' :: build(true, i, k) == build(true, i', k') ==> i == i' && k == k')
    && (forall i, k, i', k' :: build(true, i, k) != build(false, i', k'))
  }

  /** A value `q` left may be handed to `q'`: to the same user under the same key, or within one context. */
  ghost predicate MayShare(build: KeyBuilder, o: Options, identity: string, o': Options, identity': string) {
    && o.isUserScoped == o'.isUserScoped
    && if o'.isUserScoped then identity == identity' && o.cacheKey == o'.cacheKey
       else build(false, identity, o.cacheKey) == build(false, identity', o'.cacheKey)
  }

  /** The write of a value that lived, for a day unless the writer said otherwise, when it was read. */
  ghost predicate LeftFor(build: KeyBuilder, w: Wrote, o: Options, identity: string, p: Payload, at: int) {
    && w.query.options.Some? && MayShare(build, w.query.options.value, w.query.identity, o, identity)
    && w.payload == p && w.at <= at
    && at < w.at + 1000 * (if w.query.options.value.ttl.Some? then w.query.options.value.ttl.value else 86400)
  }

  /**
    In every run, an answer from the cache to a user-scoped query was written by a user-scoped
    query of the same user under the same cache key, and one to any other query under the same
    contextual key; it is what the writer's own handler run had come to.
   */
  lemma {:induction false} CachedAnswersStayPrivate(build: KeyBuilder, now: int, acts: seq<Action>, r: nat)
    requires Separates(build) && r in After(build, Initial(now), acts).requests
    requires var phase := After(build, Initial(now), acts).requests[r].phase; phase.Answered? && phase.fromCache
    ensures var st := After(build, Initial(now), acts);
      var req := st.requests[r];
      && req.query.options.Some? && req.phase.outcome.Ok?
      && exists w ::
        && w in st.wrote && RanWith(st.ran, w.request, w.query, Ok(req.phase.outcome.payload), w.at)
        && LeftFor(build, w, req.query.options.value, req.query.identity, req.phase.outcome.payload, req.answeredAt)
  {
    var st := After(build, Initial(now), acts);
    var req := st.requests[r];
    RunKeepsValid(build, Initial(now), acts);
    assert RequestValid(build, st.ran, st.wrote, r, req);
    var j :| 0 <= j < |st.wrote| &&
      Serves(build, st.wrote[j], req.query, req.phase.outcome.payload, req.answeredAt);
    assert WriteValid(st.ran, st.wrote[j]);
    SharedKeysMayShare(build, st.wrote[j].query, req.query);
  }

  lemma SharedKeysMayShare(build: KeyBuilder, q: Query, q': Query)
    requires Separates(build) && Cached(q) && Cached(q') && KeyOf(build, q) == KeyOf(build, q')
    ensures MayShare(build, q.options.value, q.identity, q'.options.value, q'.identity)
  {
  }

  /** `q` leaves a value in the store that `q'` can be answered with. */
  predicate CanServe(build: KeyBuilder, handler: Query -> Outcome, q: Query, q': Query) {
    && Cached(q) && Cached(q') && !Bypasses(q') && KeyOf(build, q) == KeyOf(build, q')
    && handler(q).Ok? && handler(q).payload.Defined? && 0 < TtlOf(q)
  }

  /** What one query can leave for another is what the other's handler would answer. */
  ghost predicate HitsDetermine(build: KeyBuilder, handler: Query -> Outcome) {
    forall q, q' :: CanServe(build, handler, q, q') ==> handler(q') == handler(q)
  }

  /** The handler runs of a state are those of `handler`. */
  ghost predicate Honest(handler: Query -> Outcome, st: State) {
    forall x :: x in st.ran ==> x.outcome == handler(x.query)
  }

  /** No evictions, expiries, faults or interleaving can make the cache visible in an answer. */
  lemma {:induction false} CacheIsTransparent(
    build: KeyBuilder, handler: Query -> Outcome, now: int, acts: seq<Action>, r: nat)
    requires HitsDetermine(build, handler) && Honest(handler, After(build, Initial(now), acts))
    requires r in After(build, Initial(now), acts).requests
    requires After(build, Initial(now), acts).requests[r].phase.Answered?
    ensures var req := After(build, Initial(now), acts).requests[r];
      req.phase.outcome == handler(req.query)
  {
    var st := After(build, Initial(now), acts);
    var req := st.requests[r];
    RunKeepsValid(build, Initial(now), acts);
    assert RequestValid(build, st.ran, st.wrote, r, req);
    if req.phase.fromCache {
      var j :| 0 <= j < |st.wrote| &&
        Serves(build, st.wrote[j], req.query, req.phase.outcome.payload, req.answeredAt);
      assert WriteValid(st.ran, st.wrote[j]);
      assert CanServe(build, handler, st.wrote[j].query, req.query);
    }
  }

  /** In this run, request `r` is not answered with anything but its handler's outcome. */
  ghost predicate AnsweredHonestly(build: KeyBuilder, handler: Query -> Outcome, now: int, acts: seq<Action>, r: nat) {
    var st := After(build, Initial(now), acts);
    Honest(handler, st) && r in st.requests && st.requests[r].phase.Answered? ==>
      st.requests[r].phase.outcome == handler(st.requests[r].query)
  }

  ghost predicate Transparent(build: KeyBuilder, handler: Query -> Outcome) {
    forall now, acts, r :: AnsweredHonestly(build, handler, now, acts, r)
  }

  /**
    The cache is invisible in every run exactly if no query can leave a value for another one
    whose handler would answer differently.
   */
  lemma TransparentIff(build: KeyBuilder, handler: Query -> Outcome)
    ensures Transparent(build, handler) <==> HitsDetermine(build, handler)
  {
    if HitsDetermine(build, handler) {
      forall now, acts, r
        ensures AnsweredHonestly(build, handler, now, acts, r)
      {
        var st := After(build, Initial(now), acts);
        if Honest(handler, st) && r in st.requests && st.requests[r].phase.Answered? {
          CacheIsTransparent(build, handler, now, acts, r);
        }
      }
    } else {
      var q, q' :| CanServe(build, handler, q, q') && handler(q') != handler(q);
      ServedWrongly(build, handler, q, q');
    }
  }

  /** One query fills the cache; the other one is answered from it. */
  function FillAndRead(q: Query, q': Query, outcome: Outcome): seq<Action> {
    [Start(0, q), Read(0), Finish(0, outcome), Write(0)] + [Start(1, q'), Read(1)]
  }

  lemma ServedWrongly(build: KeyBuilder, handler: Query -> Outcome, q: Query, q': Query)
    requires CanServe(build, handler, q, q') && handler(q') != handler(q)
    ensures !AnsweredHonestly(build, handler, 0, FillAndRead(q, q', handler(q)), 1)
  {
    var out := handler(q);
    var s0 := Initial(0);
    FourSteps(build, s0, Start(0, q), Read(0), Finish(0, out), Write(0));
    var s4 := After(build, s0, [Start(0, q), Read(0), Finish(0, out), Write(0)]);
    FilledBy(build, q, out);
    AfterConcat(build, s0, [Start(0, q), Read(0), Finish(0, out), Write(0)], [Start(1, q'), Read(1)]);
    Unfold(build, s4, Start(1, q'), [Read(1)]);
    Unfold(build, Step(build, s4, Start(1, q')), Read(1), []);
    assert [Start(1, q')] + [Read(1)] == [Start(1, q'), Read(1)] && [Read(1)] + [] == [Read(1)];
  }

  lemma FilledBy(build: KeyBuilder, q: Query, out: Outcome)
    requires Cached(q) && out.Ok? && 0 < TtlOf(q)
    ensures var st :=
        Step(build, Step(build, Step(build, Step(build, Initial(0), Start(0, q)), Read(0)), Finish(0, out)), Write(0));
      && st.store == Put(Initial(0).store, KeyOf(build, q), out.payload, TtlOf(q))
      && st.ran == [Ran(0, q, out, 0)] && st.requests.Keys == {0}
  {
    var s1 := Step(build, Initial(0), Start(0, q));
    var s2 := Step(build, s1, Read(0));
    assert s2.requests == map[0 := Request(q, Running, 0)] && s2.store == Initial(0).store;
  }

  lemma {:induction false} AfterConcat(build: KeyBuilder, st: State, a: seq<Action>, b: seq<Action>)
    ensures After(build, st, a + b) == After(build, After(build, st, a), b)
    decreases |a|
  {
    if a == [] {
      assert a + b == b;
    } else {
      AfterConcat(build, Step(build, st, a[0]), a[1..], b);
      assert (a + b)[1..] == a[1..] + b;
    }
  }

  /** In particular, the cache is invisible if equal keys mean equal answers. */
  lemma EqualKeysSuffice(build: KeyBuilder, handler: Query -> Outcome)
    requires forall q, q' ::
      Cached(q) && Cached(q') && KeyOf(build, q) == KeyOf(build, q') ==> handler(q) == handler(q')
    ensures Transparent(build, handler)
  {
    TransparentIff(build, handler);
  }

  // ---- One query on its own -----------------------------------------------------------

  /** What one query does to the store and answers when nobody moves between its awaits. */
  function Solo(
    build: KeyBuilder, store: Store<Payload>, q: Query, readFaults: bool, writeFaults: bool, outcome: Outcome)
    : (Store<Payload>, Outcome)
  {
    if !Cached(q) then (store, outcome)
    else
      var found := if Bypasses(q) || readFaults then None else Lookup(store, KeyOf(build, q));
      if IsHit(found) then (store, Ok(found.value))
      else if outcome.Ok? && !writeFaults then
        (Put(store, KeyOf(build, q), outcome.payload, TtlOf(q)), outcome)
      else (store, outcome)
  }

  function SoloActions(
    build: KeyBuilder, store: Store<Payload>, r: nat, q: Query, readFaults: bool, writeFaults: bool, outcome: Outcome)
    : seq<Action>
  {
    [Start(r, q), if readFaults then ReadFaults(r) else Read(r), Finish(r, outcome),
     if writeFaults then WriteFaults(r) else Write(r)]
  }

  /** The sequential path is one of the machine's runs, so all of the above holds of it. */
  lemma {:induction false} SoloIsARun(
    build: KeyBuilder, st: State, r: nat, q: Query, readFaults: bool, writeFaults: bool, outcome: Outcome)
    requires r !in st.requests
    requires Cached(q) && TtlOf(q) <= 0 ==> writeFaults
    ensures var (store, answer) := Solo(build, st.store, q, readFaults, writeFaults, outcome);
      var st' := After(build, st, SoloActions(build, st.store, r, q, readFaults, writeFaults, outcome));
      && st'.store == store && r in st'.requests && st'.requests[r].phase.Answered?
      && st'.requests[r].phase.outcome == answer
  {
    var acts := SoloActions(build, st.store, r, q, readFaults, writeFaults, outcome);
    var s1 := Step(build, st, acts[0]);
    assert s1 == st.(requests := st.requests[r := Request(q, FirstPhase(q), st.store.now)]);
    FourSteps(build, st, acts[0], acts[1], acts[2], acts[3]);
    assert FirstPhase(q).Running? ==> Step(build, s1, acts[1]) == s1;
  }

  lemma {:induction false} FourSteps(build: KeyBuilder, st: State, a: Action, b: Action, c: Action, d: Action)
    ensures After(build, st, [a, b, c, d]) ==
      Step(build, Step(build, Step(build, Step(build, st, a), b), c), d)
  {
    var s2 := Step(build, Step(build, st, a), b);
    Unfold(build, st, a, [b, c, d]);
    Unfold(build, Step(build, st, a), b, [c, d]);
    Unfold(build, s2, c, [d]);
    Unfold(build, Step(build, s2, c), d, []);
    assert [a] + [b, c, d] == [a, b, c, d] && [b] + [c, d] == [b, c, d] && [c] + [d] == [c, d] && [d] + [] == [d];
  }

  lemma {:induction false} Unfold(build: KeyBuilder, st: State, a: Action, rest: seq<Action>)
    ensures After(build, st, [a] + rest) == After(build, Step(build, st, a), rest)
  {
    assert ([a] + rest)[1..] == rest;
  }

  /**
    A query with usable options, under its key: a defined value that can be read is the answer
    unless the query bypasses the cache; otherwise the handler's outcome is, and a success
    can be read under that key for its lifetime.
   */
  ghost predicate HandledUnder(
    key: Key, o: Options, before: Store<Payload>, readFaults: bool, writeFaults: bool, outcome: Outcome,
    after: Store<Payload>, answer: Outcome, handlerRan: bool)
  {
    var found := Lookup(before, key);
    && (!handlerRan <==>
      !o.bypassCache && !o.consistentRead && !readFaults && found.Some? && found.value.Defined?)
    && (if !handlerRan then found.Some? && answer == Ok(found.value) && after == before
        else
          && answer == outcome
          && if outcome.Ok? && !writeFaults
             then after == Put(before, key, outcome.payload, if o.ttl.Some? then o.ttl.value else 86400)
             else after == before)
  }

  /**
    `QueryCachingPipeline.handle` with an undisturbed store.  The two flags say whether the
    cache's read or write throws; the handler's outcome is what `next()` would yield.
   */
  method Handle(
    cache: RedisCache<Payload>, build: KeyBuilder, q: Query, readFaults: bool, writeFaults: bool, outcome: Outcome)
    returns (answer: Outcome, handlerRan: bool)
    requires Cached(q) && TtlOf(q) <= 0 ==> writeFaults
    modifies cache
    ensures (cache.State(), answer) == Solo(build, old(cache.State()), q, readFaults, writeFaults, outcome)
    ensures q.options.None? || q.options.value.cacheKey == "" ==>
      handlerRan && answer == outcome && cache.State() == old(cache.State())
    ensures q.options.Some? && q.options.value.cacheKey != "" ==>
      HandledUnder(
        build(q.options.value.isUserScoped, q.identity, q.options.value.cacheKey), q.options.value,
        old(cache.State()), readFaults, writeFaults, outcome, cache.State(), answer, handlerRan)
  {
    if q.options.None? || q.options.value.cacheKey == "" {
      return outcome, true;
    }
    var options := q.options.value;
    var bypass := options.bypassCache || options.consistentRead;
    var key := build(options.isUserScoped, q.identity, options.cacheKey);
    if !bypass && !readFaults {
      var cached := cache.Get(key);
      if cached.Some? && cached.value.Defined? {
        return Ok(cached.value), false;
      }
    }
    answer, handlerRan := outcome, true;
    if answer.Ok? && !writeFaults {
      cache.Set(key, answer.payload, options.ttl);
    }
  }

  /** After a write, the same query is answered from the cache until the lifetime is over, and not after. */
  lemma SecondQueryHits(
    build: KeyBuilder, store: Store<Payload>, q: Query, p: Payload, again: Outcome, waited: nat, lifetime: int)
    requires Cached(q) && !Bypasses(q) && !IsHit(Lookup(store, KeyOf(build, q)))
    requires 0 < lifetime == if q.options.value.ttl.Some? then q.options.value.ttl.value else 86400
    ensures var (store', first) := Solo(build, store, q, false, false, Ok(p));
      && first == Ok(p)
      && Solo(build, Advance(store', waited), q, false, true, again).1 ==
        if p.Defined? && waited < lifetime * 1000 then Ok(p) else again
  {
  }
}
