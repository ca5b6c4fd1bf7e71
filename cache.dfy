/** The front end's cache utilities: cache items with an expiry, the in-memory cache manager
    with its hit and miss counters, the local-storage clean-up that evicts the least recently
    used half, and the memoising wrappers. Times are milliseconds and the clock is a parameter. */
module Cache {
  import opened Common
  import Sorting

  const DefaultExpiry := 30 * 60 * 1000
  const DefaultMemoTtl := 5 * 60 * 1000

  /** A cached value with the time it was stored, its lifetime and its last access. */
  datatype CacheItem<T> = CacheItem(key: string, data: T, timestamp: int, expiry: int,
                                    lastAccessed: int)

  /** JavaScript's `expiry || fallback`: a missing or zero expiry falls back. */
  function ExpiryOr(expiry: Option<int>, fallback: int): int
  {
    if expiry.Some? && expiry.value != 0 then expiry.value else fallback
  }

  /** A new item stored at `now`; a missing or zero expiry gives thirty minutes. */
  function NewItem<T>(key: string, data: T, expiry: Option<int>, now: int): CacheItem<T>
  {
    CacheItem(key, data, now, ExpiryOr(expiry, DefaultExpiry), now)
  }

  predicate IsExpired<T>(item: CacheItem<T>, now: int)
  {
    now - item.timestamp > item.expiry
  }

  function Age<T>(item: CacheItem<T>, now: int): int
  {
    now - item.timestamp
  }

  /** The time left before the item expires, never negative. */
  function TimeToExpire<T>(item: CacheItem<T>, now: int): (left: int)
    ensures left >= 0
    ensures left > 0 ==> !IsExpired(item, now)
    ensures IsExpired(item, now) ==> left == 0
    ensures left == 0 && !IsExpired(item, now) <==> Age(item, now) == item.expiry
    ensures left > 0 ==> left + Age(item, now) == item.expiry
  {
    Max(0, item.expiry - Age(item, now))
  }

  /** An item whose time left is zero but which has not yet expired stays so for exactly one
      instant: one millisecond later it has expired. */
  lemma ExpiresRightAfterTimeRunsOut<T>(item: CacheItem<T>, now: int, later: int)
    requires TimeToExpire(item, now) == 0 && now < later
    ensures IsExpired(item, later)
  {
  }

  // ---------------------------------------------------------------------------
  // The in-memory cache manager
  // ---------------------------------------------------------------------------

  /** The manager's statistics counters. */
  datatype Counters = Counters(hits: nat, misses: nat, sets: nat, deletes: nat)

  /** What a lookup returns and leaves behind. */
  datatype Outcome<T> = Outcome(result: Option<T>, store: map<string, CacheItem<T>>,
                                counters: Counters)

  /** A lookup: a missing key is a miss; an expired item is deleted and is a miss; otherwise
      the item's last access becomes `now` and its data is a hit. */
  function GetOutcome<T>(store: map<string, CacheItem<T>>, c: Counters, key: string, now: int)
    : (o: Outcome<T>)
    ensures o.result.Some? <==> key in store && !IsExpired(store[key], now)
    ensures o.result.Some? ==> o.result.value == store[key].data
    ensures o.result.Some? <==> o.counters.hits == c.hits + 1
    ensures o.result.None? <==> o.counters.misses == c.misses + 1
    ensures o.counters.hits + o.counters.misses == c.hits + c.misses + 1
    ensures o.counters.sets == c.sets
    ensures o.counters.deletes == c.deletes + (if key in store && IsExpired(store[key], now) then 1 else 0)
    ensures key in o.store <==> o.result.Some?
    ensures key in o.store ==> o.store[key] == store[key].(lastAccessed := now)
    ensures forall k :: k != key ==> (k in o.store <==> k in store)
    ensures forall k :: k != key && k in store ==> o.store[k] == store[k]
  {
    if key !in store then Outcome(None, store, c.(misses := c.misses + 1))
    else if IsExpired(store[key], now) then
      Outcome(None, store - {key}, c.(misses := c.misses + 1, deletes := c.deletes + 1))
    else
      Outcome(Some(store[key].data), store[key := store[key].(lastAccessed := now)],
              c.(hits := c.hits + 1))
  }

  /** The item `set` stores: the given expiry, else the manager's default, else (when that is
      zero) thirty minutes. */
  function StoredItem<T>(key: string, data: T, expiry: Option<int>, defaultExpiry: int, now: int)
    : CacheItem<T>
  {
    NewItem(key, data, Some(ExpiryOr(expiry, defaultExpiry)), now)
  }

  /** A value just stored is found again exactly while its lifetime has not passed. */
  lemma SetThenGet<T>(store: map<string, CacheItem<T>>, c: Counters, key: string, data: T,
                      expiry: Option<int>, defaultExpiry: int, now: int, later: int)
    ensures var item := StoredItem(key, data, expiry, defaultExpiry, now);
      GetOutcome(store[key := item], c, key, later).result == Some(data)
      <==> later - now <= item.expiry
  {
  }

  /** A hit refreshes only the last access: the item still expires at the time it was set
      for, so reading an item never extends its life. */
  lemma HitDoesNotRenew<T>(store: map<string, CacheItem<T>>, c: Counters, key: string,
                           now: int, later: int)
    requires GetOutcome(store, c, key, now).result.Some?
    ensures var o := GetOutcome(store, c, key, now);
      GetOutcome(o.store, o.counters, key, later).result.Some?
      <==> GetOutcome(store, c, key, later).result.Some?
  {
  }

  /** The manager over its in-memory storage. */
  class CacheManager<T> {
    var store: map<string, CacheItem<T>>
    var counters: Counters
    const defaultExpiry: int

    /** A manager with the given default lifetime, thirty minutes when none is given. */
    constructor (defaultExpiry: Option<int>)
      ensures store == map[] && counters == Counters(0, 0, 0, 0)
      ensures this.defaultExpiry == if defaultExpiry.Some? then defaultExpiry.value else DefaultExpiry
    {
      store := map[];
      counters := Counters(0, 0, 0, 0);
      this.defaultExpiry := if defaultExpiry.Some? then defaultExpiry.value else DefaultExpiry;
    }

    method Set(key: string, data: T, expiry: Option<int>, now: int) returns (ok: bool)
      modifies this
      ensures ok
      ensures store == old(store)[key := StoredItem(key, data, expiry, defaultExpiry, now)]
      ensures counters == old(counters).(sets := old(counters).sets + 1)
    {
      store := store[key := StoredItem(key, data, expiry, defaultExpiry, now)];
      counters := counters.(sets := counters.sets + 1);
      ok := true;
    }

    method Get(key: string, now: int) returns (r: Option<T>)
      modifies this
      ensures Outcome(r, store, counters) == GetOutcome(old(store), old(counters), key, now)
    {
      if key !in store {
        counters := counters.(misses := counters.misses + 1);
        return None;
      }
      var item := store[key];
      if IsExpired(item, now) {
        var _ := Delete(key);
        counters := counters.(misses := counters.misses + 1);
        return None;
      }
      item := item.(lastAccessed := now);
      store := store[key := item];
      counters := counters.(hits := counters.hits + 1);
      r := Some(item.data);
    }

    method Delete(key: string) returns (ok: bool)
      modifies this
      ensures ok
      ensures store == old(store) - {key}
      ensures counters == old(counters).(deletes := old(counters).deletes + 1)
    {
      store := store - {key};
      counters := counters.(deletes := counters.deletes + 1);
      ok := true;
    }

    /** Whether a live item is stored; an expired one is deleted, which counts one delete.
        No other counter changes. */
    method Has(key: string, now: int) returns (b: bool)
      modifies this
      ensures b <==> key in old(store) && !IsExpired(old(store)[key], now)
      ensures store == if key in old(store) && !b then old(store) - {key} else old(store)
      ensures counters == old(counters).(deletes := old(counters).deletes
                                                    + if key in old(store) && !b then 1 else 0)
    {
      if key !in store {
        return false;
      }
      if IsExpired(store[key], now) {
        var _ := Delete(key);
        return false;
      }
      b := true;
    }

    method Clear() returns (ok: bool)
      modifies this
      ensures ok && store == map[] && counters == old(counters)
    {
      store := map[];
      ok := true;
    }
  }

  // ---------------------------------------------------------------------------
  // Local-storage clean-up
  // ---------------------------------------------------------------------------

  const LocalPrefix := "cache_"

  /** What a local-storage entry holds: text that does not parse as a record, or a record with
      its last-access time when it has one. */
  datatype Stored = Unparsable | Record(lastAccessed: Option<int>)

  datatype Slot = Slot(key: string, stored: Stored)

  /** An entry the clean-up considers, with `lastAccessed || 0` as its time. */
  datatype Candidate = Candidate(key: string, lastAccessed: int)

  function LastAccessed(c: Candidate): int { c.lastAccessed }

  /** The entries under the adapter's prefix whose text parses, in storage order. */
  function Candidates(storage: seq<Slot>): (cs: seq<Candidate>)
    ensures |cs| <= |storage|
    ensures forall k :: 0 <= k < |cs| ==> StartsWith(cs[k].key, LocalPrefix)
  {
    if storage == [] then []
    else
      var init := Candidates(storage[..|storage| - 1]);
      var s := storage[|storage| - 1];
      if StartsWith(s.key, LocalPrefix) && s.stored.Record? then
        init + [Candidate(s.key, ExpiryOr(s.stored.lastAccessed, 0))]
      else init
  }

  /** The candidates removed: the first half, rounded down, after a stable sort by last
      access. */
  function Victims(storage: seq<Slot>): seq<Candidate>
  {
    var cs := Candidates(storage);
    Sorting.SortBy(cs, LastAccessed)[..|cs| / 2]
  }

  function KeysOf(cs: seq<Candidate>): (keys: set<string>)
    ensures forall c :: c in cs ==> c.key in keys
    ensures forall k :: k in keys ==> exists c :: c in cs && c.key == k
  {
    set c | c in cs :: c.key
  }

  /** The storage without the entries whose keys are listed, in the same order. */
  function Without(storage: seq<Slot>, keys: set<string>): (rest: seq<Slot>)
    ensures |rest| <= |storage|
    ensures forall s :: s in rest <==> s in storage && s.key !in keys
  {
    if storage == [] then []
    else
      var init := Without(storage[..|storage| - 1], keys);
      var s := storage[|storage| - 1];
      assert forall x :: x in storage ==> x in storage[..|storage| - 1] || x == s;
      if s.key in keys then init else init + [s]
  }

  /** Half the candidates, rounded down, are evicted, and none of them was used more recently
      than a candidate that stays; entries outside the prefix are never touched. */
  lemma {:induction false} VictimsAreOldestHalf(storage: seq<Slot>)
    ensures var cs := Candidates(storage);
      |Victims(storage)| == |cs| / 2
      && multiset(Victims(storage)) <= multiset(cs)
      && forall i, j :: 0 <= i < |cs| / 2 <= j < |cs| ==>
           Sorting.SortBy(cs, LastAccessed)[i].lastAccessed
           <= Sorting.SortBy(cs, LastAccessed)[j].lastAccessed
    ensures forall s :: s in storage && !StartsWith(s.key, LocalPrefix) ==>
      s in Without(storage, KeysOf(Victims(storage)))
  {
    var cs := Candidates(storage);
    var sorted := Sorting.SortBy(cs, LastAccessed);
    var n := |cs| / 2;
    Sorting.PrefixOfSortedIsLowest(cs, LastAccessed, n);
    assert sorted == sorted[..n] + sorted[n..];
    assert multiset(sorted) == multiset(sorted[..n]) + multiset(sorted[n..]);
    forall c | c in Victims(storage)
      ensures StartsWith(c.key, LocalPrefix)
    {
      assert c in multiset(cs);
      var k :| 0 <= k < |cs| && cs[k] == c;
    }
  }

  /** The clean-up: collect the candidates, sort them by last access, remove the older half. */
  method Cleanup(storage: seq<Slot>) returns (remaining: seq<Slot>)
    ensures remaining == Without(storage, KeysOf(Victims(storage)))
  {
    var items: seq<Candidate> := [];
    var i := 0;
    while i < |storage|
      invariant 0 <= i <= |storage|
      invariant items == Candidates(storage[..i])
    {
      assert storage[..i + 1][..i] == storage[..i];
      var s := storage[i];
      if StartsWith(s.key, LocalPrefix) && s.stored.Record? {
        items := items + [Candidate(s.key, ExpiryOr(s.stored.lastAccessed, 0))];
      }
      i := i + 1;
    }
    assert storage[..|storage|] == storage;
    var sorted := Sorting.SortBy(items, LastAccessed);
    var toRemove := sorted[..|items| / 2];
    var keys := KeysOf(toRemove);
    remaining := [];
    i := 0;
    while i < |storage|
      invariant 0 <= i <= |storage|
      invariant remaining == Without(storage[..i], keys)
    {
      assert storage[..i + 1][..i] == storage[..i];
      if storage[i].key !in keys {
        remaining := remaining + [storage[i]];
      }
      i := i + 1;
    }
    assert storage[..|storage|] == storage;
  }

  // ---------------------------------------------------------------------------
  // Memoisation
  // ---------------------------------------------------------------------------

  /** A memoised value and the time it was computed. */
  datatype Entry<V> = Entry(value: V, timestamp: int)

  predicate Fresh<K, V>(cache: map<K, Entry<V>>, key: K, now: int, ttl: int)
  {
    key in cache && now - cache[key].timestamp < ttl
  }

  /** One call of a memoised function: a fresh entry is returned as it is; otherwise the
      function's value is computed and stored with the time of the call. */
  function MemoStep<K, V>(cache: map<K, Entry<V>>, ttl: int, fn: K -> V, key: K, now: int)
    : (r: (V, map<K, Entry<V>>))
    ensures key in r.1 && r.1[key].value == r.0
    ensures r.1.Keys == cache.Keys + {key}
    ensures forall k :: k in cache && k != key ==> r.1[k] == cache[k]
    ensures Fresh(cache, key, now, ttl) ==> r == (cache[key].value, cache)
    ensures !Fresh(cache, key, now, ttl) ==> r.0 == fn(key) && r.1[key].timestamp == now
  {
    if Fresh(cache, key, now, ttl) then (cache[key].value, cache)
    else (fn(key), cache[key := Entry(fn(key), now)])
  }

  /** Every stored value is the function's value for its key. */
  ghost predicate Agrees<K, V>(cache: map<K, Entry<V>>, fn: K -> V)
  {
    forall k :: k in cache ==> cache[k].value == fn(k)
  }

  /** Memoising a function changes no answer: as long as the cache only ever held the
      function's own values, each call returns what the function returns. */
  lemma MemoTransparent<K, V>(cache: map<K, Entry<V>>, ttl: int, fn: K -> V, key: K, now: int)
    requires Agrees(cache, fn)
    ensures MemoStep(cache, ttl, fn, key, now).0 == fn(key)
    ensures Agrees(MemoStep(cache, ttl, fn, key, now).1, fn)
  {
  }

  /** After a call that computed its value, later calls within the lifetime return that
      value without computing again; once the lifetime has passed they compute afresh. */
  lemma MemoReusesWithinTtl<K, V>(cache: map<K, Entry<V>>, ttl: int, fn: K -> V, key: K,
                                  now: int, later: int)
    requires !Fresh(cache, key, now, ttl)
    ensures var r := MemoStep(cache, ttl, fn, key, now);
      Fresh(r.1, key, later, ttl) <==> later - now < ttl
    ensures var r := MemoStep(cache, ttl, fn, key, now);
      later - now < ttl ==> MemoStep(r.1, ttl, fn, key, later) == r
  {
  }

  /** The wrapper `memoize` (and `cacheWrapper`, which awaits the function) returns: a cache
      owned by the wrapper, a lifetime of five minutes unless one is given, and a count of the
      calls of the wrapped function. */
  class Memo<K(==), V> {
    var cache: map<K, Entry<V>>
    const ttl: int
    ghost var calls: nat

    constructor (ttl: Option<int>)
      ensures cache == map[] && calls == 0
      ensures this.ttl == if ttl.Some? then ttl.value else DefaultMemoTtl
    {
      cache := map[];
      this.ttl := if ttl.Some? then ttl.value else DefaultMemoTtl;
      calls := 0;
    }

    method Call(fn: K -> V, key: K, now: int) returns (v: V)
      modifies this
      ensures (v, cache) == MemoStep(old(cache), ttl, fn, key, now)
      ensures calls == old(calls) + (if Fresh(old(cache), key, now, ttl) then 0 else 1)
    {
      if key in cache {
        var entry := cache[key];
        if now - entry.timestamp < ttl {
          return entry.value;
        }
        cache := cache - {key};
      }
      v := fn(key);
      calls := calls + 1;
      cache := cache[key := Entry(v, now)];
      assert cache == old(cache)[key := Entry(v, now)];
    }
  }
}
