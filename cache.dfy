/** The result cache that keeps grid tool output for a while. The clock is
    an explicit `now` argument, and the key built from a call's arguments is
    an abstract type `K`. */
module ResultCache {
  import opened Wrappers

  /** `CacheEntry`: a value, the time it was stored and how long it stays valid. */
  datatype CacheEntry<V> = CacheEntry(value: V, creationTime: real, cacheTime: real) {
    /** `CacheEntry.is_valid`: strictly before creation time plus cache time. */
    predicate IsValid(now: real) {
      creationTime + cacheTime > now
    }
  }

  /** An entry valid at some time was valid at every earlier time. */
  lemma ValidBefore<V>(e: CacheEntry<V>, earlier: real, now: real)
    requires earlier <= now && e.IsValid(now)
    ensures e.IsValid(earlier)
  {
  }

  /** What `Cache.get_entry` finds under `key` at time `now`. */
  function Lookup<K, V>(m: map<K, CacheEntry<V>>, key: K, now: real): (r: Option<CacheEntry<V>>)
    ensures r.Some? <==> key in m && m[key].IsValid(now)
    ensures r.Some? ==> r.value == m[key]
  {
    if key in m && m[key].IsValid(now) then Some(m[key]) else None
  }

  /** The map after `Cache.add_entry` stores `value` under `key` at time `now`. */
  function Store<K(!new), V>(m: map<K, CacheEntry<V>>, key: K, value: V, now: real, cacheTime: real): (r: map<K, CacheEntry<V>>)
    ensures key in r && r[key] == CacheEntry(value, now, cacheTime)
    ensures forall k :: k != key ==> (k in r <==> k in m)
    ensures forall k :: k != key && k in m ==> r[k] == m[k]
  {
    m[key := CacheEntry(value, now, cacheTime)]
  }

  /** The map after `Cache.clean_cache` at time `now`: the valid entries. */
  function Sweep<K(!new), V>(m: map<K, CacheEntry<V>>, now: real): (r: map<K, CacheEntry<V>>)
    ensures forall k :: k in r <==> k in m && m[k].IsValid(now)
    ensures forall k :: k in r ==> r[k] == m[k]
  {
    map k | k in m && m[k].IsValid(now) :: m[k]
  }

  /** Read after write: a stored value is found until its cache time has
      run out. */
  lemma ReadAfterWrite<K(!new), V>(m: map<K, CacheEntry<V>>, key: K, value: V, t: real, cacheTime: real, now: real)
    requires now < t + cacheTime
    ensures Lookup(Store(m, key, value, t, cacheTime), key, now).Some?
    ensures Lookup(Store(m, key, value, t, cacheTime), key, now).value.value == value
  {
  }

  /** Expiry is strict: at exactly creation time plus cache time the entry
      is no longer found, nor at any later time. */
  lemma ExpiredNotFound<K(!new), V>(m: map<K, CacheEntry<V>>, key: K, value: V, t: real, cacheTime: real, now: real)
    requires now >= t + cacheTime
    ensures Lookup(Store(m, key, value, t, cacheTime), key, now) == None
  {
  }

  /** Storing under one key leaves what every other key finds unchanged. */
  lemma StoreKeepsOtherKeys<K(!new), V>(m: map<K, CacheEntry<V>>, key: K, other: K, value: V, t: real, cacheTime: real, now: real)
    requires other != key
    ensures Lookup(Store(m, key, value, t, cacheTime), other, now) == Lookup(m, other, now)
  {
  }

  /** Cleaning at time `now` changes nothing that a lookup at `now` or later
      finds: only entries that could no longer be found are removed. */
  lemma SweepKeepsLookups<K(!new), V>(m: map<K, CacheEntry<V>>, now: real, later: real, key: K)
    requires now <= later
    ensures Lookup(Sweep(m, now), key, later) == Lookup(m, key, later)
  {
  }

  /** One call of a function wrapped by `Cache.cached`: the result, whether the
      wrapped function ran, and the map afterwards. A valid entry answers
      without running the function; otherwise the function runs once, and its
      value is stored unless it failed. */
  function CachedCall<K(!new), V, E>(m: map<K, CacheEntry<V>>, key: K, now: real, cacheTime: real, fn: K -> Result<V, E>)
    : (r: (Result<V, E>, bool, map<K, CacheEntry<V>>))
    ensures Lookup(m, key, now).Some? ==> r == (Success(m[key].value), false, m)
    ensures Lookup(m, key, now).None? && fn(key).Success? ==> r == (fn(key), true, Store(m, key, fn(key).value, now, cacheTime))
    ensures Lookup(m, key, now).None? ==> r.0 == fn(key) && r.1
    ensures fn(key).Failure? ==> r.2 == m
  {
    match Lookup(m, key, now)
    case Some(entry) => (Success(entry.value), false, m)
    case None =>
      var out := fn(key);
      if out.Success? then (out, true, Store(m, key, out.value, now, cacheTime)) else (out, true, m)
  }

  /** Two calls with the same arguments within the cache time run the wrapped
      function once; a third call once the cache time is over runs it again. */
  lemma CachedCallsWithinCacheTime<K(!new), V, E>(m: map<K, CacheEntry<V>>, key: K, t1: real, t2: real, t3: real,
                                            cacheTime: real, fn: K -> Result<V, E>)
    requires Lookup(m, key, t1).None? && fn(key).Success?
    requires t2 < t1 + cacheTime <= t3
    ensures CachedCall(m, key, t1, cacheTime, fn).1
    ensures !CachedCall(CachedCall(m, key, t1, cacheTime, fn).2, key, t2, cacheTime, fn).1
    ensures CachedCall(CachedCall(m, key, t1, cacheTime, fn).2, key, t2, cacheTime, fn).0 == fn(key)
    ensures CachedCall(CachedCall(m, key, t1, cacheTime, fn).2, key, t3, cacheTime, fn).1
  {
  }

  /** `Cache`: a dictionary from call keys to entries, changed in place. */
  class Cache<K(==, !new), V> {
    const cacheTime: real
    var entries: map<K, CacheEntry<V>>

    constructor(cacheTime: real)
      ensures this.cacheTime == cacheTime && entries == map[]
    {
      this.cacheTime := cacheTime;
      entries := map[];
    }

    /** `get_entry`: the valid entry for `key`, or `None`. An expired entry
        is left in place (the method changes nothing). */
    method GetEntry(key: K, now: real) returns (r: Option<CacheEntry<V>>)
      ensures r == Lookup(entries, key, now)
      ensures r.Some? ==> key in entries && r.value == entries[key] && r.value.IsValid(now)
    {
      if key in entries {
        var entry := entries[key];
        if entry.IsValid(now) {
          r := Some(entry);
        } else {
          r := None;
        }
      } else {
        r := None;
      }
    }

    /** `add_entry`: overwrites the entry for `key`; every other key keeps its entry. */
    method AddEntry(value: V, key: K, now: real)
      modifies this
      ensures entries == Store(old(entries), key, value, now, cacheTime)
      ensures forall k :: k != key ==> (k in entries <==> k in old(entries))
      ensures forall k :: k != key && k in entries ==> entries[k] == old(entries)[k]
    {
      entries := entries[key := CacheEntry(value, now, cacheTime)];
    }

    /** `clean_cache`: deletes the expired entries one key at a time. */
    method CleanCache(now: real)
      modifies this
      ensures entries == Sweep(old(entries), now)
    {
      var keys := entries.Keys;
      while keys != {}
        invariant keys <= old(entries).Keys
        invariant forall k :: k in entries <==> k in old(entries) && (k in keys || old(entries)[k].IsValid(now))
        invariant forall k :: k in entries ==> entries[k] == old(entries)[k]
        decreases keys
      {
        var key :| key in keys;
        if !entries[key].IsValid(now) {
          entries := entries - {key};
        }
        keys := keys - {key};
      }
    }

    /** `cached`: the wrapped function `fn` called through the cache. */
    method Cached<E>(fn: K -> Result<V, E>, key: K, now: real) returns (r: Result<V, E>, called: bool)
      modifies this
      ensures (r, called, entries) == CachedCall(old(entries), key, now, cacheTime, fn)
    {
      var entry := GetEntry(key, now);
      if entry.Some? {
        r, called := Success(entry.value.value), false;
      } else {
        r, called := fn(key), true;
        if r.Success? {
          AddEntry(r.value, key, now);
        }
      }
    }
  }
}
