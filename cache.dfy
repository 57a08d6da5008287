/**
  The process-wide TTL cache of `lib/cache.ts`: a map from an opaque string
  key to a payload and the absolute time (milliseconds) at which it expires.
  Expiry is lazy: an entry is removed only when a read finds it stale.
  The clock reading `Date.now()` is passed in as `now`.
 */
module Cache {

  datatype Option<T> = None | Some(value: T)

  /** One stored payload and its absolute expiry time in milliseconds. */
  datatype Entry<T> = Entry(expires: int, data: T)

  type Store<T> = map<string, Entry<T>>

  /** Milliseconds per second, the factor applied to a TTL given in seconds. */
  const MillisPerSecond: int := 1000

  /** The key under which a request is cached: the request's URL itself. */
  function CacheKey(url: string): (key: string)
  {
    url
  }

  /** Equal keys come exactly from equal URLs. */
  lemma CacheKeyInjective(a: string, b: string)
    ensures CacheKey(a) == CacheKey(b) <==> a == b
  {
  }

  /** An entry is stale once the clock has passed its expiry; at `now == expires` it is still fresh. */
  predicate Stale<T>(e: Entry<T>, now: int)
  {
    now > e.expires
  }

  /** What a read of `key` at time `now` returns. */
  function Lookup<T>(store: Store<T>, key: string, now: int): (r: Option<T>)
  {
    if key !in store then None
    else if Stale(store[key], now) then None
    else Some(store[key].data)
  }

  /** The store after a read of `key` at time `now`: a stale entry for `key` is dropped. */
  function AfterLookup<T>(store: Store<T>, key: string, now: int): (after: Store<T>)
  {
    if key in store && Stale(store[key], now) then store - {key} else store
  }

  /** The store after writing `data` under `key` at time `now` with a TTL of `ttlSec` seconds. */
  function Stored<T>(store: Store<T>, key: string, data: T, ttlSec: int, now: int): (after: Store<T>)
  {
    store[key := Entry(now + ttlSec * MillisPerSecond, data)]
  }

  class TtlCache<T> {
    var store: Store<T>

    /** The cache starts empty when the process starts. */
    constructor ()
      ensures store == map[]
    {
      store := map[];
    }

    /** Reads `key` at time `now`, dropping the entry if it has expired. */
    method GetCached(key: string, now: int) returns (r: Option<T>)
      modifies this
      ensures r == Lookup(old(store), key, now)
      ensures store == AfterLookup(old(store), key, now)
    {
      if key !in store {
        return None;
      }
      var hit := store[key];
      if now > hit.expires {
        store := store - {key};
        return None;
      }
      return Some(hit.data);
    }

    /** Writes `data` under `key` at time `now`, replacing any earlier entry. */
    method SetCached(key: string, data: T, ttlSec: int, now: int)
      modifies this
      ensures store == Stored(old(store), key, data, ttlSec, now)
      ensures key in store && store[key] == Entry(now + ttlSec * MillisPerSecond, data)
      ensures forall k :: k != key ==> (k in store <==> k in old(store))
      ensures forall k :: k != key && k in store ==> store[k] == old(store)[k]
    {
      store := store[key := Entry(now + ttlSec * MillisPerSecond, data)];
    }
  }

  /** A read of a key with no entry misses and leaves the store as it was. */
  lemma LookupMissing<T>(store: Store<T>, key: string, now: int)
    requires key !in store
    ensures Lookup(store, key, now) == None
    ensures AfterLookup(store, key, now) == store
  {
  }

  /** A read up to and including the expiry instant returns the payload and changes nothing. */
  lemma LookupFresh<T>(store: Store<T>, key: string, now: int)
    requires key in store && now <= store[key].expires
    ensures Lookup(store, key, now) == Some(store[key].data)
    ensures AfterLookup(store, key, now) == store
  {
  }

  /** A read after the expiry instant misses and removes exactly that key. */
  lemma LookupExpired<T>(store: Store<T>, key: string, now: int)
    requires key in store && now > store[key].expires
    ensures Lookup(store, key, now) == None
    ensures AfterLookup(store, key, now).Keys == store.Keys - {key}
    ensures forall k :: k in AfterLookup(store, key, now) ==> AfterLookup(store, key, now)[k] == store[k]
  {
  }

  /** A read of one key never changes what any other key reads, at any time. */
  lemma LookupIsolated<T>(store: Store<T>, key: string, now: int, other: string, later: int)
    requires other != key
    ensures Lookup(AfterLookup(store, key, now), other, later) == Lookup(store, other, later)
  {
  }

  /** After a write at `t0`, reads hit from `t0` up to `t0 + ttlSec * MillisPerSecond` inclusive and miss afterwards. */
  lemma SetThenGet<T>(store: Store<T>, key: string, data: T, ttlSec: int, t0: int, t: int)
    ensures t0 <= t <= t0 + ttlSec * MillisPerSecond ==> Lookup(Stored(store, key, data, ttlSec, t0), key, t) == Some(data)
    ensures t > t0 + ttlSec * MillisPerSecond ==>
              Lookup(Stored(store, key, data, ttlSec, t0), key, t) == None &&
              AfterLookup(Stored(store, key, data, ttlSec, t0), key, t) == store - {key}
  {
  }

  /** The second of two writes to one key decides both the payload and the expiry. */
  lemma SecondSetWins<T>(store: Store<T>, key: string, d1: T, ttl1: int, t1: int, d2: T, ttl2: int, t2: int)
    ensures Stored(Stored(store, key, d1, ttl1, t1), key, d2, ttl2, t2) == Stored(store, key, d2, ttl2, t2)
    ensures forall t :: Lookup(Stored(Stored(store, key, d1, ttl1, t1), key, d2, ttl2, t2), key, t) ==
                        (if t > t2 + ttl2 * MillisPerSecond then None else Some(d2))
  {
  }

  /** A write to one key never changes what any other key reads. */
  lemma SetIsolated<T>(store: Store<T>, key: string, data: T, ttlSec: int, now: int, other: string, t: int)
    requires other != key
    ensures Lookup(Stored(store, key, data, ttlSec, now), other, t) == Lookup(store, other, t)
  {
  }

  /** Once a read has found `key` expired, every later read of it misses and changes nothing. */
  lemma ExpiredStaysGone<T>(store: Store<T>, key: string, now: int, later: int)
    requires key in store && now > store[key].expires
    ensures Lookup(AfterLookup(store, key, now), key, later) == None
    ensures AfterLookup(AfterLookup(store, key, now), key, later) == AfterLookup(store, key, now)
  {
  }

  /** The lifetime a list route gives a freshly built payload. */
  const RouteTtlSeconds: int := 120

  /**
    One request of a cache-aside route: serve the cached payload when the read
    hits, otherwise store `built` for the route's TTL and serve it.
   */
  function Serve<T>(store: Store<T>, key: string, built: T, now: int): (served: (T, Store<T>))
  {
    match Lookup(store, key, now)
    case Some(cached) => (cached, AfterLookup(store, key, now))
    case None => (built, Stored(AfterLookup(store, key, now), key, built, RouteTtlSeconds, now))
  }

  /**
    When a cache-aside request misses and builds `built1` at `t1`, every request
    up to 120 seconds later serves that same payload, whatever it would have
    built itself, and leaves the store as the first request left it.
   */
  lemma ServeWithinTtl<T>(store: Store<T>, key: string, built1: T, t1: int, built2: T, t2: int)
    requires Lookup(store, key, t1) == None
    requires t1 <= t2 <= t1 + RouteTtlSeconds * MillisPerSecond
    ensures Serve(store, key, built1, t1).0 == built1
    ensures Serve(Serve(store, key, built1, t1).1, key, built2, t2).0 == built1
    ensures Serve(Serve(store, key, built1, t1).1, key, built2, t2).1 == Serve(store, key, built1, t1).1
  {
    SetThenGet(AfterLookup(store, key, t1), key, built1, RouteTtlSeconds, t1, t2);
  }
}
