/**
  The key-value store behind the caches: entries carry an expiry time and are
  visible until that time.  The clock counts milliseconds.
 */
module TtlStore {
  import opened Wrappers

  type Key = string

  /** A handler's value; an undefined one cannot be told from a missing entry when it is read back. */
  datatype Payload = Undefined | Defined(value: int)

  datatype Entry<V> = Entry(value: V, expiresAt: int)

  datatype Store<V> = Store(now: int, entries: map<Key, Entry<V>>)

  const MS_PER_SECOND := 1000

  predicate Live<V>(st: Store<V>, k: Key) {
    k in st.entries && st.now < st.entries[k].expiresAt
  }

  function Lookup<V>(st: Store<V>, k: Key): Option<V> {
    if Live(st, k) then Some(st.entries[k].value) else None
  }

  function Put<V>(st: Store<V>, k: Key, v: V, ttlSeconds: int): Store<V> {
    st.(entries := st.entries[k := Entry(v, st.now + ttlSeconds * MS_PER_SECOND)])
  }

  function Delete<V>(st: Store<V>, k: Key): Store<V> {
    st.(entries := st.entries - {k})
  }

  /** What is put under a key is found until its lifetime is over, and changes what is found nowhere else. */
  lemma ReadUntilExpiry<V>(st: Store<V>, k: Key, v: V, ttlSeconds: int, ms: nat)
    ensures var later := Advance(Put(st, k, v, ttlSeconds), ms);
      && Lookup(later, k) == (if ms < ttlSeconds * MS_PER_SECOND then Some(v) else None)
      && forall other :: other != k ==> Lookup(later, other) == Lookup(Advance(st, ms), other)
  {
  }

  /** INCR followed by EXPIRE in one transaction: a missing counter starts at zero. */
  function Bump(st: Store<int>, k: Key, ttlSeconds: int): (r: (Store<int>, int)) {
    var count := (if Live(st, k) then st.entries[k].value else 0) + 1;
    (Put(st, k, count, ttlSeconds), count)
  }

  function Advance<V>(st: Store<V>, ms: nat): Store<V> {
    st.(now := st.now + ms)
  }

  /** The cache over one store, with the default lifetimes it applies when none is given. */
  class RedisCache<V> {
    var now: int
    var entries: map<Key, Entry<V>>

    constructor (now: int)
      ensures State() == Store(now, map[])
    {
      this.now, entries := now, map[];
    }

    function State(): Store<V>
      reads this
    {
      Store(now, entries)
    }

    method Get(key: Key) returns (found: Option<V>)
      ensures found == Lookup(State(), key)
    {
      found := if key in entries && now < entries[key].expiresAt then Some(entries[key].value) else None;
    }

    method Has(key: Key) returns (exists_: bool)
      ensures exists_ <==> Lookup(State(), key).Some?
    {
      exists_ := key in entries && now < entries[key].expiresAt;
    }

    method Set(key: Key, value: V, ttl: Option<int>)
      modifies this
      ensures State() == Put(old(State()), key, value, if ttl.Some? then ttl.value else 86400)
      ensures ttl.Some? && 0 < ttl.value ==> Lookup(State(), key) == Some(value)
    {
      var seconds := if ttl.Some? then ttl.value else 86400;
      entries := entries[key := Entry(value, now + seconds * MS_PER_SECOND)];
    }

    /** SET with NX: an unexpired entry is left alone and the call reports failure. */
    method SetIfAbsent(key: Key, value: V, ttl: Option<int>) returns (stored: bool)
      modifies this
      ensures stored <==> !Live(old(State()), key)
      ensures State() == if stored then Put(old(State()), key, value, if ttl.Some? then ttl.value else 300)
                         else old(State())
    {
      stored := !(key in entries && now < entries[key].expiresAt);
      if stored {
        var seconds := if ttl.Some? then ttl.value else 300;
        entries := entries[key := Entry(value, now + seconds * MS_PER_SECOND)];
      }
    }

    method Remove(key: Key)
      modifies this
      ensures State() == Delete(old(State()), key)
      ensures Lookup(State(), key) == None
    {
      entries := entries - {key};
    }

    /** Time passing while the caller waits for something else. */
    method Wait(ms: nat)
      modifies this
      ensures State() == Advance(old(State()), ms)
    {
      now := now + ms;
    }
  }

  /** The atomic counter the rate limiter uses; its lifetime is refreshed by every hit. */
  method Increment(cache: RedisCache<int>, key: Key, ttlSeconds: Option<int>) returns (hits: int)
    modifies cache
    ensures (cache.State(), hits) == Bump(old(cache.State()), key, if ttlSeconds.Some? then ttlSeconds.value else 60)
  {
    var seconds := if ttlSeconds.Some? then ttlSeconds.value else 60;
    hits := (if key in cache.entries && cache.now < cache.entries[key].expiresAt
      then cache.entries[key].value else 0) + 1;
    cache.entries := cache.entries[key := Entry(hits, cache.now + seconds * MS_PER_SECOND)];
  }
}
