/**
  The capacity-bounded in-memory cache (cache/memcache/memcache.go) over a
  Dafny map, with the cache error values of cache/cache.go. Each operation
  returns the new cache next to its Go result; the locking is left out.
*/
module MemCache {
  import opened Results
  import opened Record

  /** The error values cache/cache.go declares. */
  datatype CacheError = ErrorCacheKeyMissed | ErrorCacheKeyExpired | ErrorCacheFull

  /** `MemoryCache`: a capacity of 0 means unbounded. */
  datatype Cache = Cache(records: map<string, Record>, capacity: int)

  /** `NewSizedCache(capacity)`; `NewCache()` is `NewSizedCache(0)`. */
  function NewSizedCache(capacity: int): Cache {
    Cache(map[], capacity)
  }

  function Length(c: Cache): nat {
    |c.records|
  }

  predicate Exists(c: Cache, key: string) {
    key in c.records
  }

  /** `Full`: never for capacity 0, otherwise at or above capacity. */
  predicate Full(c: Cache) {
    if c.capacity == 0 then false
    else Length(c) >= c.capacity
  }

  /** An unbounded cache is never full, so it accepts every new key; a
      bounded one is full exactly when it holds at least `capacity` records,
      and a negative capacity makes it permanently full. */
  lemma FullMeansAtCapacity(c: Cache, key: string, record: Record)
    ensures c.capacity == 0 ==> !Full(c) && key in Set(c, key, record).0.records
    ensures c.capacity != 0 ==> (Full(c) <==> Length(c) >= c.capacity)
    ensures c.capacity < 0 ==> Full(c)
  {
  }

  /** `Remove`: deletes `key` alone; a missing key is a no-op. */
  function Remove(c: Cache, key: string): (r: Cache)
    ensures r.capacity == c.capacity
    ensures key !in r.records
    ensures r.records.Keys == c.records.Keys - {key}
    ensures forall k :: k in r.records ==> r.records[k] == c.records[k]
    ensures key !in c.records ==> r == c
    ensures key in c.records ==> Length(r) == Length(c) - 1
  {
    var m := c.records - {key};
    assert key !in c.records ==> m == c.records;
    c.(records := m)
  }

  /** `Set`: the full check comes first and refuses with `ErrorCacheFull`;
      an existing key is kept with its old record and no error; otherwise
      exactly `key` is added. With a positive capacity no `Set` takes the
      cache beyond it. */
  function Set(c: Cache, key: string, record: Record): (r: (Cache, Option<CacheError>))
    ensures r.0.capacity == c.capacity
    ensures r.1 == Some(ErrorCacheFull) <==> Full(c)
    ensures r.1.Some? ==> r.1 == Some(ErrorCacheFull) && r.0 == c
    ensures key in c.records ==> r.0 == c
    ensures r.1.None? ==> key in r.0.records && r.0.records.Keys == c.records.Keys + {key}
    ensures r.1.None? && key !in c.records ==> r.0.records[key] == record && Length(r.0) == Length(c) + 1
    ensures forall k :: k in c.records ==> k in r.0.records && r.0.records[k] == c.records[k]
    ensures c.capacity > 0 && Length(c) <= c.capacity ==> Length(r.0) <= c.capacity
  {
    if Full(c) then (c, Some(ErrorCacheFull))
    else if Exists(c, key) then (c, None)
    else (c.(records := c.records[key := record]), None)
  }

  /** `Get` at instant `now`: a missing key is `ErrorCacheKeyMissed` with the
      cache unchanged; an expired record is evicted and reported as
      `ErrorCacheKeyExpired`; a live record is returned, cache unchanged. */
  function Get(c: Cache, key: string, now: int): (r: (Cache, Result<Record, CacheError>))
    ensures key !in c.records ==> r == (c, Failure(ErrorCacheKeyMissed))
    ensures key in c.records && Expired(c.records[key], now) ==>
      r.1 == Failure(ErrorCacheKeyExpired) && r.0 == Remove(c, key)
    ensures key in c.records && !Expired(c.records[key], now) ==>
      r == (c, Success(c.records[key]))
    ensures r.1.Success? ==> !Expired(r.1.value, now)
    ensures r.0.records.Keys <= c.records.Keys
  {
    if key !in c.records then (c, Failure(ErrorCacheKeyMissed))
    else
      var record := c.records[key];
      if Expired(record, now) then (Remove(c, key), Failure(ErrorCacheKeyExpired))
      else (c, Success(record))
  }

  /** After `Get` reports a key expired, the key is gone: the next `Get`
      misses. A successful `Get` repeated at the same instant gives the same
      record again. */
  lemma GetEvictsOnce(c: Cache, key: string, now: int)
    ensures var (c1, r1) := Get(c, key, now);
      (r1 == Failure(ErrorCacheKeyExpired) ==> Get(c1, key, now) == (c1, Failure(ErrorCacheKeyMissed)))
      && (r1.Success? ==> Get(c1, key, now) == (c1, r1))
  {
  }

  /** `Exists` agrees with `Get`: a key exists exactly when `Get` does not
      report it missing, and after a `Set` that was not refused it exists. */
  lemma ExistsMatchesGet(c: Cache, key: string, record: Record, now: int)
    ensures Exists(c, key) <==> Get(c, key, now).1 != Failure(ErrorCacheKeyMissed)
    ensures Exists(Set(c, key, record).0, key) <==> Exists(c, key) || !Full(c)
  {
  }

  /** `Length` counts keys: `Set` adds one exactly when it stores a new key
      and `Remove` takes one away exactly when the key existed. */
  lemma LengthCountsKeys(c: Cache, key: string, record: Record)
    ensures Length(Set(c, key, record).0) == Length(c) + (if !Full(c) && !Exists(c, key) then 1 else 0)
    ensures Length(Remove(c, key)) == Length(c) - (if Exists(c, key) then 1 else 0)
  {
  }
}
