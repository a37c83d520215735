/**
 * PstmtCache: the per-connection LRU cache of prepared statements, an
 * access-ordered LinkedHashMap with hit, miss, put and remove counters whose
 * eviction hook closes the evicted statement.
 */
module Pstmt {

  import opened Optional
  import opened PstmtEntries
  import opened PstmtStats

  /** One call of closeDestroy on an evicted statement, and whether it threw (the error is only logged). */
  datatype CloseAttempt = CloseAttempt(stmt: Stmt, failed: bool)

  class PstmtCache {
    const maxSize: nat
    /** The map's entries, least recently accessed first. */
    var entries: seq<Entry>
    var removeCounter: nat
    var hitCounter: nat
    var missCounter: nat
    var putCounter: nat

    /** Every closeDestroy the cache has issued, in order. */
    ghost var closed: seq<CloseAttempt>
    /** The time of each key's last access (insertion, hit, or access-ordered lookup). */
    ghost var lastAccess: map<string, nat>
    ghost var clock: nat

    ghost predicate Valid()
      reads this
    {
      AccessOrdered(entries, lastAccess) && StampsBelow(lastAccess, clock) &&
      Bounded(entries, maxSize)
    }

    constructor (maxCacheSize: nat)
      ensures Valid()
      ensures maxSize == maxCacheSize && entries == []
      ensures hitCounter == 0 && missCounter == 0 && putCounter == 0 && removeCounter == 0
      ensures closed == []
    {
      maxSize := maxCacheSize;
      entries := [];
      removeCounter, hitCounter, missCounter, putCounter := 0, 0, 0, 0;
      closed := [];
      lastAccess := map[];
      clock := 0;
    }

    /** size(): the number of cached statements. */
    function Size(): nat
      reads this
    {
      |entries|
    }

    function MaxSize(): nat
    {
      maxSize
    }

    /** getHitRatio: the truncated percentage of lookups that hit, 0 before the first hit. */
    function HitRatioNow(): (r: nat)
      reads this
      ensures r <= 100
      ensures hitCounter == 0 ==> r == 0
      ensures hitCounter > 0 ==>
        r * (hitCounter + missCounter) <= hitCounter * 100 < (r + 1) * (hitCounter + missCounter)
    {
      HitRatio(hitCounter, missCounter)
    }

    /** getDescription: reads back as size, max, hits, misses, hit ratio and removes, in that order. */
    function Description(): (d: string)
      reads this
      ensures Split(DescriptionLabels, d) ==
        Some([Size(), maxSize, hitCounter, missCounter,
              HitRatio(hitCounter, missCounter), removeCounter])
    {
      Describe(Size(), maxSize, hitCounter, missCounter,
               HitRatio(hitCounter, missCounter), removeCounter)
    }

    /**
     * LinkedHashMap.get in access order (the inherited super.get): no
     * counter moves; a present key becomes the most recently accessed.
     */
    method MapGet(key: string) returns (r: Option<Stmt>)
      requires Valid()
      modifies this`entries, this`lastAccess, this`clock
      ensures Valid()
      ensures r == Lookup(old(entries), key)
      ensures entries == Touch(old(entries), key)
      ensures lastAccess == if r.Some? then old(lastAccess)[key := old(clock)] else old(lastAccess)
      ensures clock == old(clock) + 1
    {
      r := Lookup(entries, key);
      if r.Some? {
        AssignOrdered(entries, key, r.value, lastAccess, clock);
        AccessOrderedDistinct(entries, lastAccess);
        AssignSize(entries, key, r.value);
        entries := Assign(entries, key, r.value);
        lastAccess := lastAccess[key := clock];
      }
      clock := clock + 1;
    }

    /**
     * removeEldestEntry, called by the map after a new key went in: evicts
     * once the size has reached maxSize, counting the removal and closing
     * the eldest statement; a failing close is swallowed.
     */
    method RemoveEldestEntry(eldest: Entry, closeFails: bool) returns (evict: bool)
      modifies this`removeCounter, this`closed
      ensures evict == (|entries| >= maxSize)
      ensures removeCounter == old(removeCounter) + (if evict then 1 else 0)
      ensures closed == old(closed) + (if evict then [CloseAttempt(eldest.stmt, closeFails)] else [])
    {
      if |entries| < maxSize {
        return false;
      }
      removeCounter := removeCounter + 1;
      closed := closed + [CloseAttempt(eldest.stmt, closeFails)];
      return true;
    }

    /**
     * LinkedHashMap.put in access order (the inherited super.put): `value`
     * goes under `key` as the most recent entry. Only a new key makes the
     * map offer its eldest entry to removeEldestEntry, and that eviction uses
     * the map's own removal, so no hit or miss is counted.
     */
    method MapPut(key: string, value: Stmt, closeFails: bool) returns (prev: Option<Stmt>)
      requires Valid()
      modifies this`entries, this`removeCounter, this`closed, this`lastAccess, this`clock
      ensures Valid()
      ensures prev == Lookup(old(entries), key)
      ensures entries == AfterPut(old(entries), key, value, maxSize)
      ensures var evicts := EvictsOnPut(old(entries), key, maxSize);
        && removeCounter == old(removeCounter) + (if evicts then 1 else 0)
        && closed == old(closed) +
             (if evicts then [CloseAttempt(Eldest(old(entries), Entry(key, value)).stmt, closeFails)] else [])
      ensures EvictsOnPut(old(entries), key, maxSize) && old(entries) != [] ==>
        forall i :: 0 <= i < |old(entries)| ==>
          old(lastAccess)[old(entries)[0].key] <= old(lastAccess)[old(entries)[i].key]
      ensures lastAccess == old(lastAccess)[key := old(clock)] && clock == old(clock) + 1
    {
      prev := Lookup(entries, key);
      PutOrdered(entries, key, value, maxSize, lastAccess, clock);
      AccessOrderedDistinct(entries, lastAccess);
      PutBounded(entries, key, value, maxSize);
      lastAccess := lastAccess[key := clock];
      clock := clock + 1;
      if prev.Some? {
        entries := Assign(entries, key, value);
      } else {
        // the new entry is linked in at the most recent end, then the eldest is offered for eviction
        var grown := entries + [Entry(key, value)];
        entries := grown;
        var evict := RemoveEldestEntry(grown[0], closeFails);
        if evict {
          entries := grown[1..];
        }
      }
    }

    /** put: counts the put, then stores through the map. */
    method Put(key: string, value: Stmt, closeFails: bool) returns (prev: Option<Stmt>)
      requires Valid()
      modifies this`putCounter, this`entries, this`removeCounter, this`closed, this`lastAccess, this`clock
      ensures Valid()
      ensures prev == Lookup(old(entries), key)
      ensures entries == AfterPut(old(entries), key, value, maxSize)
      ensures putCounter == old(putCounter) + 1
      ensures var evicts := EvictsOnPut(old(entries), key, maxSize);
        && removeCounter == old(removeCounter) + (if evicts then 1 else 0)
        && closed == old(closed) +
             (if evicts then [CloseAttempt(Eldest(old(entries), Entry(key, value)).stmt, closeFails)] else [])
      ensures lastAccess == old(lastAccess)[key := old(clock)] && clock == old(clock) + 1
    {
      putCounter := putCounter + 1;
      prev := MapPut(key, value, closeFails);
    }

    /**
     * returnStatement: a statement whose key is already cached is refused
     * (the lookup still refreshes the cached entry's recency); otherwise it
     * is put under its cache key.
     */
    method ReturnStatement(stmt: Stmt, closeFails: bool) returns (added: bool)
      requires Valid()
      modifies this
      ensures Valid()
      ensures added <==> stmt.cacheKey !in Keys(old(entries))
      ensures !added ==>
        && entries == Touch(old(entries), stmt.cacheKey)
        && putCounter == old(putCounter) && removeCounter == old(removeCounter)
        && closed == old(closed)
      ensures added ==>
        && entries == AfterPut(old(entries), stmt.cacheKey, stmt, maxSize)
        && putCounter == old(putCounter) + 1
        && var evicts := EvictsOnPut(old(entries), stmt.cacheKey, maxSize);
           && removeCounter == old(removeCounter) + (if evicts then 1 else 0)
           && closed == old(closed) +
                (if evicts then [CloseAttempt(Eldest(old(entries), Entry(stmt.cacheKey, stmt)).stmt, closeFails)]
                 else [])
      ensures hitCounter == old(hitCounter) && missCounter == old(missCounter)
    {
      var alreadyInCache := MapGet(stmt.cacheKey);
      if alreadyInCache.Some? {
        return false;
      }
      var _ := Put(stmt.cacheKey, stmt, closeFails);
      return true;
    }

    /** get: the access-ordered lookup, counting a hit or a miss. */
    method Get(key: string) returns (r: Option<Stmt>)
      requires Valid()
      modifies this
      ensures Valid()
      ensures r == Lookup(old(entries), key)
      ensures entries == Touch(old(entries), key)
      ensures r.None? ==> missCounter == old(missCounter) + 1 && hitCounter == old(hitCounter)
      ensures r.Some? ==> hitCounter == old(hitCounter) + 1 && missCounter == old(missCounter)
      ensures putCounter == old(putCounter) && removeCounter == old(removeCounter)
      ensures closed == old(closed)
    {
      r := MapGet(key);
      if r.None? {
        missCounter := missCounter + 1;
      } else {
        hitCounter := hitCounter + 1;
      }
    }

    /**
     * remove: takes the entry out without closing it (the caller now owns
     * the statement), counting a hit or a miss exactly like get.
     */
    method Remove(key: string) returns (r: Option<Stmt>)
      requires Valid()
      modifies this
      ensures Valid()
      ensures r == Lookup(old(entries), key)
      ensures entries == Without(old(entries), key)
      ensures key !in Keys(entries)
      ensures r.None? ==> missCounter == old(missCounter) + 1 && hitCounter == old(hitCounter)
      ensures r.Some? ==> hitCounter == old(hitCounter) + 1 && missCounter == old(missCounter)
      ensures putCounter == old(putCounter) && removeCounter == old(removeCounter)
      ensures closed == old(closed) && lastAccess == old(lastAccess) && clock == old(clock)
    {
      r := Lookup(entries, key);
      WithoutOrdered(entries, key, lastAccess);
      WithoutKeys(entries, key);
      entries := Without(entries, key);
      if r.None? {
        missCounter := missCounter + 1;
      } else {
        hitCounter := hitCounter + 1;
      }
    }
  }

  /** With maxSize 1 a returned statement is accepted, evicted and closed at once. */
  method CapacityOneScenario()
  {
    var a := Stmt("A", 1);
    var cache := new PstmtCache(1);
    var ok := cache.ReturnStatement(a, false);
    assert ok && cache.entries == [];
    assert cache.putCounter == 1 && cache.removeCounter == 1 && cache.closed == [CloseAttempt(a, false)];
  }
}
