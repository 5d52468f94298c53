/** The feature-flag service: a read-through cache in front of the FeatureFlags
    table. A looked-up value is cached under "ff:<key>" for 30 seconds; an update of
    a flag invalidates its entry so that the next lookup reads the table again. */
module FeatureFlags {
  import opened Common
  import opened Data

  /** Seconds a looked-up value stays in the cache. */
  const CacheTtl: int := 30

  /** A cached value and the instant from which it no longer counts. */
  datatype CacheEntry = CacheEntry(enabled: bool, expiresAt: int)

  function CacheKey(key: string): (r: string)
    ensures |r| == |key| + 3 && r[..3] == "ff:" && r[3..] == key
  {
    "ff:" + key
  }

  /** The entry for `key` is present and not yet expired. */
  predicate Hit(cache: map<string, CacheEntry>, key: string, now: int): (r: bool)
    ensures CacheKey(key) !in cache ==> !r
    ensures CacheKey(key) in cache && cache[CacheKey(key)].expiresAt <= now ==> !r
  {
    CacheKey(key) in cache && now < cache[CacheKey(key)].expiresAt
  }

  /** The table's answer: the Enabled of the first row with the key, false without one. */
  function StoredValue(flags: seq<FeatureFlag>, key: string): (r: bool)
    ensures r ==> exists i :: 0 <= i < |flags| && flags[i].key == key && flags[i].enabled
    ensures (forall i :: 0 <= i < |flags| ==> flags[i].key != key) ==> !r
    ensures forall i ::
              0 <= i < |flags| && flags[i].key == key && (forall j :: 0 <= j < i ==> flags[j].key != key)
              ==> r == flags[i].enabled
  {
    match FirstWhere(flags, (f: FeatureFlag) => f.key == key)
    case None => false
    case Some(i) => flags[i].enabled
  }

  /** What IsEnabledAsync answers: the cached value on a hit, the table's otherwise. */
  function Lookup(cache: map<string, CacheEntry>, flags: seq<FeatureFlag>, key: string, now: int): (r: bool)
    ensures Hit(cache, key, now) ==> r == cache[CacheKey(key)].enabled
    ensures !Hit(cache, key, now) ==> r == StoredValue(flags, key)
    ensures CacheKey(key) !in cache ==> r == StoredValue(flags, key)
  {
    if Hit(cache, key, now) then cache[CacheKey(key)].enabled else StoredValue(flags, key)
  }

  /** Every entry of the cache was written at or before `t`. */
  ghost predicate WrittenBy(cache: map<string, CacheEntry>, t: int) {
    forall k :: k in cache ==> cache[k].expiresAt <= t + CacheTtl
  }

  class FeatureFlagsService {
    /** The process-wide memory cache, as far as flags use it. */
    var cache: map<string, CacheEntry>
    const db: AppDb

    constructor (db: AppDb)
      ensures this.db == db && cache == map[]
    {
      this.db := db;
      cache := map[];
    }

    /** IsEnabledAsync: a hit answers from the cache and leaves it alone; a miss reads
        the table and caches its answer until now + 30 s. Either way the answer is
        Lookup of the state before the call. */
    method IsEnabled(key: string, now: int) returns (enabled: bool)
      modifies this`cache
      ensures enabled == Lookup(old(cache), db.featureFlags, key, now)
      ensures Hit(old(cache), key, now) ==> cache == old(cache)
      ensures !Hit(old(cache), key, now) ==>
                enabled == StoredValue(db.featureFlags, key)
                && cache == old(cache)[CacheKey(key) := CacheEntry(enabled, now + CacheTtl)]
    {
      var ck := CacheKey(key);
      if ck in cache && now < cache[ck].expiresAt {
        return cache[ck].enabled;
      }
      var row := FirstWhere(db.featureFlags, (f: FeatureFlag) => f.key == key);
      enabled := if row.Some? then db.featureFlags[row.value].enabled else false;
      cache := cache[ck := CacheEntry(enabled, now + CacheTtl)];
    }

    /** InvalidateAsync: drops the key's entry and only that one; a missing or blank
        key leaves the cache to expire on its own. */
    method Invalidate(key: Option<string>)
      modifies this`cache
      ensures IsNullOrWhiteSpace(key) ==> cache == old(cache)
      ensures !IsNullOrWhiteSpace(key) ==> cache == old(cache) - {CacheKey(key.value)}
    {
      if IsNullOrWhiteSpace(key) {
        return;
      }
      cache := cache - {CacheKey(key.value)};
    }
  }

  /** Distinct keys use distinct cache entries. */
  lemma CacheKeyInjective(a: string, b: string)
    requires CacheKey(a) == CacheKey(b)
    ensures a == b
  {
    assert a == CacheKey(a)[3..];
  }

  /** After invalidating a key, its next lookup reads the table, whatever the time. */
  lemma InvalidateThenLookup(cache: map<string, CacheEntry>, flags: seq<FeatureFlag>, key: string, now: int)
    ensures Lookup(cache - {CacheKey(key)}, flags, key, now) == StoredValue(flags, key)
  {
  }

  /** Invalidating one key does not change what another key looks up. */
  lemma InvalidateIsLocal(cache: map<string, CacheEntry>, flags: seq<FeatureFlag>, key: string,
                          other: string, now: int)
    requires other != key
    ensures Lookup(cache - {CacheKey(key)}, flags, other, now) == Lookup(cache, flags, other, now)
  {
    if CacheKey(other) == CacheKey(key) {
      CacheKeyInjective(other, key);
    }
  }

  /** Bounded staleness: once 30 s have passed since the last cache write, every lookup
      answers what the table holds now, however it changed in between. */
  lemma StalenessBounded(cache: map<string, CacheEntry>, flags: seq<FeatureFlag>, key: string,
                         t: int, now: int)
    requires WrittenBy(cache, t) && now >= t + CacheTtl
    ensures Lookup(cache, flags, key, now) == StoredValue(flags, key)
  {
  }

  /** A lookup at time t keeps the cache written by t. */
  lemma LookupKeepsWrittenBy(cache: map<string, CacheEntry>, key: string, enabled: bool, t: int)
    requires WrittenBy(cache, t)
    ensures WrittenBy(cache[CacheKey(key) := CacheEntry(enabled, t + CacheTtl)], t)
  {
  }

  /** A cached answer is served unchanged until its entry expires. */
  lemma CachedAnswerStable(cache: map<string, CacheEntry>, flags: seq<FeatureFlag>, later: seq<FeatureFlag>,
                           key: string, t: int, now: int)
    requires t <= now < t + CacheTtl
    ensures var c := cache[CacheKey(key) := CacheEntry(StoredValue(flags, key), t + CacheTtl)];
            Lookup(c, later, key, now) == StoredValue(flags, key)
  {
  }
}
