/** The geocoding cache (`cacheService`): entries kept in browser storage
    under a `geocache_` prefix, each stamped with the time it was stored and
    dropped once it is more than a day old. The store is a map owned by a
    `Storage` object and the clock reading is a parameter. */
module GeoCache {
  import opened Strings

  const CachePrefix := "geocache_"

  /** A day in milliseconds. */
  const CacheTtl := 24 * 60 * 60 * 1000

  /** A stored entry: the data and the clock reading when it was stored. */
  datatype Entry<T> = Entry(data: T, timestamp: int)

  /** `T | null`. */
  datatype Cached<T> = Null | Found(data: T)

  /** An entry is returned while it is at most a day old. */
  predicate Expired<T>(e: Entry<T>, now: int)
  {
    now - e.timestamp > CacheTtl
  }

  /** What `getCache(key)` returns at clock `now`. */
  function Lookup<T>(store: map<string, Entry<T>>, key: string, now: int): (r: Cached<T>)
    ensures CachePrefix + key !in store ==> r == Null
    ensures CachePrefix + key in store ==>
      (r == Null <==> Expired(store[CachePrefix + key], now))
    ensures r.Found? ==> r.data == store[CachePrefix + key].data
  {
    var k := CachePrefix + key;
    if k !in store then Null
    else if Expired(store[k], now) then Null
    else Found(store[k].data)
  }

  /** The store after `getCache(key)` at clock `now`: an expired entry is
      removed, and nothing else changes. */
  function AfterLookup<T>(store: map<string, Entry<T>>, key: string, now: int): (r: map<string, Entry<T>>)
    ensures forall k :: k in r <==> k in store && !(k == CachePrefix + key && Expired(store[k], now))
    ensures forall k :: k in r ==> r[k] == store[k]
  {
    var k := CachePrefix + key;
    if k in store && Expired(store[k], now) then store - {k} else store
  }

  /** The store after `clearCache()`: exactly the prefixed keys are gone. */
  function Cleared<T>(store: map<string, Entry<T>>): (r: map<string, Entry<T>>)
    ensures forall k :: k in r <==> k in store && !StartsWith(k, CachePrefix)
    ensures forall k :: k in r ==> r[k] == store[k]
  {
    map k | k in store && !StartsWith(k, CachePrefix) :: store[k]
  }

  /** The store with the prefixed keys among `seen` removed. */
  function ClearedAmong<T>(store: map<string, Entry<T>>, seen: set<string>): map<string, Entry<T>>
  {
    map k | k in store && !(k in seen && StartsWith(k, CachePrefix)) :: store[k]
  }

  /** Visiting one more key removes it when it is prefixed. */
  lemma {:induction false} ClearedAmongStep<T>(store: map<string, Entry<T>>, seen: set<string>, key: string)
    ensures ClearedAmong(store, seen + {key})
      == if StartsWith(key, CachePrefix) then ClearedAmong(store, seen) - {key} else ClearedAmong(store, seen)
  {
  }

  /** The storage that lives across calls. */
  class Storage<T> {
    var store: map<string, Entry<T>>

    constructor(initial: map<string, Entry<T>>)
      ensures store == initial
    {
      store := initial;
    }

    /** `getCache(key)` at clock `now`. */
    method GetCache(key: string, now: int) returns (r: Cached<T>)
      modifies this
      ensures r == Lookup(old(store), key, now)
      ensures store == AfterLookup(old(store), key, now)
    {
      var k := CachePrefix + key;
      if k !in store {
        return Null;
      }
      var entry := store[k];
      if now - entry.timestamp > CacheTtl {
        store := store - {k};
        return Null;
      }
      return Found(entry.data);
    }

    /** `setCache(key, data)` at clock `now`. */
    method SetCache(key: string, data: T, now: int)
      modifies this
      ensures store == old(store)[CachePrefix + key := Entry(data, now)]
    {
      store := store[CachePrefix + key := Entry(data, now)];
    }

    /** `clearCache()`: visits every key and removes the prefixed ones. */
    method ClearCache()
      modifies this
      ensures store == Cleared(old(store))
    {
      var keys := store.Keys;
      ghost var visited: set<string> := {};
      while keys != {}
        invariant keys + visited == old(store).Keys && keys !! visited
        invariant store == ClearedAmong(old(store), visited)
        decreases |keys|
      {
        var key :| key in keys;
        ClearedAmongStep(old(store), visited, key);
        if StartsWith(key, CachePrefix) {
          store := store - {key};
        }
        keys := keys - {key};
        visited := visited + {key};
      }
      assert visited == old(store).Keys;
    }
  }

  /** Right after `setCache(key, d)`, `getCache(key)` at the same clock
      returns `d` and leaves the store as it is. */
  lemma {:induction false} SetThenGet<T>(store: map<string, Entry<T>>, key: string, d: T, now: int)
    ensures Lookup(store[CachePrefix + key := Entry(d, now)], key, now) == Found(d)
    ensures AfterLookup(store[CachePrefix + key := Entry(d, now)], key, now) == store[CachePrefix + key := Entry(d, now)]
  {
  }

  /** An entry exactly a day old is still returned; one a millisecond older
      is not, and is removed. */
  lemma {:induction false} TtlBoundary<T>(store: map<string, Entry<T>>, key: string, d: T, t: int)
    ensures Lookup(store[CachePrefix + key := Entry(d, t)], key, t + CacheTtl) == Found(d)
    ensures Lookup(store[CachePrefix + key := Entry(d, t)], key, t + CacheTtl + 1) == Null
    ensures CachePrefix + key !in AfterLookup(store[CachePrefix + key := Entry(d, t)], key, t + CacheTtl + 1)
  {
  }

  /** Storing under one key changes nothing that another key reads. */
  lemma {:induction false} SetKeepsOthers<T>(store: map<string, Entry<T>>, key: string, other: string, d: T, now: int, later: int)
    requires other != key
    ensures Lookup(store[CachePrefix + key := Entry(d, now)], other, later) == Lookup(store, other, later)
  {
    assert (CachePrefix + other)[|CachePrefix|..] == other;
    assert (CachePrefix + key)[|CachePrefix|..] == key;
  }

  /** A second `getCache` at the same clock returns what the first did. */
  lemma {:induction false} LookupTwice<T>(store: map<string, Entry<T>>, key: string, now: int)
    ensures Lookup(AfterLookup(store, key, now), key, now) == Lookup(store, key, now)
    ensures AfterLookup(AfterLookup(store, key, now), key, now) == AfterLookup(store, key, now)
  {
  }

  /** After `clearCache()` no key reads anything back, and a second clear
      changes nothing. */
  lemma {:induction false} ClearForgetsAll<T>(store: map<string, Entry<T>>, key: string, now: int)
    ensures Lookup(Cleared(store), key, now) == Null
    ensures Cleared(Cleared(store)) == Cleared(store)
  {
    assert StartsWith(CachePrefix + key, CachePrefix) by {
      assert (CachePrefix + key)[..|CachePrefix|] == CachePrefix;
    }
  }
}
