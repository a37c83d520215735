# ebean-datasource: prepared-statement cache and free-connection buffer

This project models two in-memory structures of the ebean-datasource connection pool and proves what they promise.

- **`PstmtCache`** is the per-connection LRU cache of prepared statements. It extends an access-ordered `LinkedHashMap` from cache key to statement.
  - It counts hits, misses, puts and removes.
  - `returnStatement` refuses a statement whose key is already cached.
  - When a new key brings the map to `maxSize`, the map's `removeEldestEntry` hook evicts the least recently accessed entry and closes its statement.
- **`FreeConnectionBuffer`** is the LIFO list of idle pooled connections.
  - `add` pushes at the head and `remove` pops from it.
  - `closeAll` clears the list, then closes every connection it held.
  - `trim` is one iterator sweep. It unlinks and closes every connection that `shouldTrim` selects, and returns how many it took.

Files:

- `optional.dfy`: the `Option` type. A Java `null` result is `None`.
- `pstmt_entries.dfy` (module `PstmtEntries`): the access-ordered map as a value.
  - It is a sequence of `(key, statement)` entries, least recently accessed first.
  - It defines lookup, removal, access-order refresh and the put-with-eviction step.
  - Its lemmas cover the mapping after each step, the capacity bound and the choice of the evicted entry.
- `pstmt_stats.dfy` (module `PstmtStats`): the hit ratio and the description string. The description parses back to the six numbers it reports.
- `pstmt_cache.dfy` (module `Pstmt`): the class `PstmtCache`.
  - Its fields are the entry sequence and the four counters.
  - Ghost state records the `closeDestroy` calls and a last-access time per key.
  - Its invariant `Valid` keeps the entries in strictly increasing last-access order and within capacity.
- `free_connection_buffer.dfy` (module `FreeConnections`): the class `FreeConnectionBuffer`.
  - The list is a `seq<Conn>` with the head at index 0.
  - A ghost log records every `closeConnectionFully(logErrors)` call, together with the buffer's size when the call was issued. This size shows that `closeAll` empties the buffer before its first close, and that `trim` unlinks each connection before closing it.
  - The specification functions `Survivors` and `Trimmed` state the outcome of a sweep.

Capacity follows the code, which differs from a "holds `maxSize` statements" reading.
- `removeEldestEntry` runs after the new key is already in the map and evicts when `size() >= maxSize`. So after any put the cache holds at most `maxSize - 1` statements (`PstmtEntries.PutBounded`).
- With `maxSize` 1, the statement just returned is itself the eldest. It is evicted and closed at once, yet `returnStatement` still answers `true` (`PstmtEntries.PutCapacityOne`, `Pstmt.CapacityOneScenario`).
- Because of this, the LRU walk-through (insert A, insert B, hit A, insert C evicts B) needs `maxSize` 3, not 2 (`PstmtEntries.LruScenario`).

The counters never decrease. Each mutating method's contract gives every counter as its old value plus 0 or 1.

A sequence of `add` and `remove` calls is LIFO. Each call changes the size by exactly one (`FreeConnections.LifoScenario` walks through an interleaving).

## Model

| member | source | states |
|---|---|---|
| PstmtEntries.Lookup | ebean-datasource/src/main/java/io/ebean/datasource/pool/PstmtCache.java:99-100 | a lookup finds a statement exactly when the key is in the map, and the statement found is the one stored under that key |
| PstmtEntries.Without | ebean-datasource/src/main/java/io/ebean/datasource/pool/PstmtCache.java:113-114 | removing a key keeps only entries of the old map with other keys, and never grows the map |
| PstmtEntries.WithoutLookup | ebean-datasource/src/main/java/io/ebean/datasource/pool/PstmtCache.java:113-114 | after removing a key, that key maps to nothing and every other key maps to what it mapped to before |
| PstmtEntries.LookupAt | ebean-datasource/src/main/java/io/ebean/datasource/pool/PstmtCache.java:99-100 | in a map with distinct keys, looking up the key of any entry yields that entry's statement |
| PstmtEntries.AssignLookup | ebean-datasource/src/main/java/io/ebean/datasource/pool/PstmtCache.java:127-129 | storing a statement under a key makes that key map to it and leaves every other key's mapping unchanged |
| PstmtEntries.TouchLookup | ebean-datasource/src/main/java/io/ebean/datasource/pool/PstmtCache.java:26-27 | an access-ordered lookup changes no mapping, and a present key becomes the most recent entry |
| PstmtEntries.AssignSize | ebean-datasource/src/main/java/io/ebean/datasource/pool/PstmtCache.java:127-129 | storing under a present key keeps the size; a new key grows it by one |
| PstmtEntries.PutLookup | ebean-datasource/src/main/java/io/ebean/datasource/pool/PstmtCache.java:127-149 | after a put, the key maps to the new statement unless the put evicted it, the evicted eldest key maps to nothing, and every other key is unchanged |
| PstmtEntries.PutEvictsLeastRecent | ebean-datasource/src/main/java/io/ebean/datasource/pool/PstmtCache.java:138-149 | a put that reaches `maxSize` removes exactly one entry, the first in access order, which has the smallest last-access time, and keeps the size |
| PstmtEntries.PutBounded | ebean-datasource/src/main/java/io/ebean/datasource/pool/PstmtCache.java:139-141 | starting below capacity, a put leaves fewer than `maxSize` entries, or none |
| PstmtEntries.PutOrdered | ebean-datasource/src/main/java/io/ebean/datasource/pool/PstmtCache.java:25-28 | a put keeps the entries in strictly increasing last-access order, with the put key stamped most recent |
| PstmtEntries.PutNewKeyMostRecent | ebean-datasource/src/main/java/io/ebean/datasource/pool/PstmtCache.java:88-92 | with `maxSize` at least 2, a new key ends up as the last, most recent, entry holding the new statement |
| PstmtEntries.PutCapacityOne | ebean-datasource/src/main/java/io/ebean/datasource/pool/PstmtCache.java:139-149 | with `maxSize` 1, the inserted entry is itself the eldest, is evicted, and the map stays empty |
| PstmtEntries.LruScenario | ebean-datasource/src/main/java/io/ebean/datasource/pool/PstmtCache.java:83-149 | with room for three: A and B go in without eviction, a hit on A makes B the eldest, and C then evicts B, leaving A then C |
| PstmtStats.HitRatio | ebean-datasource/src/main/java/io/ebean/datasource/pool/PstmtCache.java:49-55 | 0 without hits; otherwise the truncated quotient of hits*100 by hits+misses, so within 0..100, and 100 when nothing missed |
| PstmtStats.Describe | ebean-datasource/src/main/java/io/ebean/datasource/pool/PstmtCache.java:34-36 | the description parses back to size, max, hits, miss, hitRatio and removes, in that order |
| PstmtStats.SplitJoin | ebean-datasource/src/main/java/io/ebean/datasource/pool/PstmtCache.java:35 | any sequence of `name[number]` fields joined by spaces parses back to its numbers |
| PstmtStats.DigitsOf | ebean-datasource/src/main/java/io/ebean/datasource/pool/PstmtCache.java:35 | a counter is written as decimal digits with no leading zero, and 0 as "0", as Java writes a non-negative int |
| PstmtStats.ValueOfDigits | ebean-datasource/src/main/java/io/ebean/datasource/pool/PstmtCache.java:35 | a rendered decimal number reads back as itself |
| Pstmt.PstmtCache.constructor | ebean-datasource/src/main/java/io/ebean/datasource/pool/PstmtCache.java:25-29 | a new cache is empty, has all counters at 0 and the given maximum, and satisfies the invariant |
| Pstmt.PstmtCache.HitRatioNow | ebean-datasource/src/main/java/io/ebean/datasource/pool/PstmtCache.java:49-55 | the current hit ratio is 0 before any hit and otherwise the truncated percentage of hits among lookups, at most 100 |
| Pstmt.PstmtCache.Description | ebean-datasource/src/main/java/io/ebean/datasource/pool/PstmtCache.java:34-36 | the description reads back as the current size, maximum, hits, misses, hit ratio and removes |
| Pstmt.PstmtCache.MapGet | ebean-datasource/src/main/java/io/ebean/datasource/pool/PstmtCache.java:84 | the inherited lookup returns the stored statement or nothing, moves a found entry to most recent, and moves no counter |
| Pstmt.PstmtCache.RemoveEldestEntry | ebean-datasource/src/main/java/io/ebean/datasource/pool/PstmtCache.java:138-150 | evicts exactly when the size has reached `maxSize`, then counts one removal and closes the eldest statement once, whether or not the close fails |
| Pstmt.PstmtCache.MapPut | ebean-datasource/src/main/java/io/ebean/datasource/pool/PstmtCache.java:127-150 | the inherited put stores the statement as most recent; only a new key may evict, and the one evicted and closed is the least recently accessed; no hit or miss is counted |
| Pstmt.PstmtCache.Put | ebean-datasource/src/main/java/io/ebean/datasource/pool/PstmtCache.java:127-130 | counts exactly one put, then stores as the inherited put does, keeping the invariant |
| Pstmt.PstmtCache.ReturnStatement | ebean-datasource/src/main/java/io/ebean/datasource/pool/PstmtCache.java:83-93 | answers true exactly when the key was absent; a duplicate only refreshes the cached entry's recency and moves no counter; a new statement is put, counting one put and any eviction; hits and misses never move |
| Pstmt.PstmtCache.Get | ebean-datasource/src/main/java/io/ebean/datasource/pool/PstmtCache.java:99-107 | returns the stored statement and counts one hit, moving it to most recent, or returns nothing and counts one miss; nothing else changes |
| Pstmt.PstmtCache.Remove | ebean-datasource/src/main/java/io/ebean/datasource/pool/PstmtCache.java:113-121 | returns the stored statement or nothing, deletes the key without closing anything, counts a hit or a miss as `get` does, and leaves the remove counter alone |
| FreeConnections.FreeConnectionBuffer.constructor | ebean-datasource/src/main/java/io/ebean/datasource/pool/FreeConnectionBuffer.java:24-27 | a new buffer is empty and has closed nothing |
| FreeConnections.FreeConnectionBuffer.Size | ebean-datasource/src/main/java/io/ebean/datasource/pool/FreeConnectionBuffer.java:32-34 | the size is the number of buffered connections |
| FreeConnections.FreeConnectionBuffer.IsEmpty | ebean-datasource/src/main/java/io/ebean/datasource/pool/FreeConnectionBuffer.java:39-41 | the buffer is empty exactly when its size is 0 |
| FreeConnections.FreeConnectionBuffer.Add | ebean-datasource/src/main/java/io/ebean/datasource/pool/FreeConnectionBuffer.java:46-48 | the connection goes to the head, the rest of the list is unchanged, and the size grows by one |
| FreeConnections.FreeConnectionBuffer.Remove | ebean-datasource/src/main/java/io/ebean/datasource/pool/FreeConnectionBuffer.java:53-55 | on a non-empty buffer, returns the head, the most recently added connection still buffered, and shrinks the size by one |
| FreeConnections.FreeConnectionBuffer.CloseConnectionFully | ebean-datasource/src/main/java/io/ebean/datasource/pool/FreeConnectionBuffer.java:65 | a close is logged once, with its flag and the buffer's size at that moment, and changes nothing else |
| FreeConnections.FreeConnectionBuffer.CloseAll | ebean-datasource/src/main/java/io/ebean/datasource/pool/FreeConnectionBuffer.java:60-67 | leaves the buffer empty and logs `DrainCloses` of the old buffer: each connection held at entry is closed exactly once with the given flag, head to tail, each close issued while the buffer is empty |
| FreeConnections.DrainClosesAt | ebean-datasource/src/main/java/io/ebean/datasource/pool/FreeConnectionBuffer.java:61-66 | the i-th close of `closeAll` is of the i-th connection held at entry, with the given flag, against a buffer of size 0, and there are exactly as many closes as connections |
| FreeConnections.FreeConnectionBuffer.Trim | ebean-datasource/src/main/java/io/ebean/datasource/pool/FreeConnectionBuffer.java:72-84 | keeps exactly the connections the rule spares, in order; logs `TrimCloses` of the selected ones against the old size; returns their number, the old size minus the new |
| FreeConnections.TrimClosesAt | ebean-datasource/src/main/java/io/ebean/datasource/pool/FreeConnectionBuffer.java:77-80 | the i-th close of a sweep is of the i-th selected connection, with errors logged, issued once i + 1 connections have left the buffer, so each one is unlinked before it is closed |
| FreeConnections.TrimCount | ebean-datasource/src/main/java/io/ebean/datasource/pool/FreeConnectionBuffer.java:73-83 | kept and trimmed connections together number the old size, so the trim count is at most the old size |
| FreeConnections.TrimPartition | ebean-datasource/src/main/java/io/ebean/datasource/pool/FreeConnectionBuffer.java:75-82 | kept and trimmed connections together are exactly the old buffer's connections, none lost and none duplicated |
| FreeConnections.SurvivorsMembership | ebean-datasource/src/main/java/io/ebean/datasource/pool/FreeConnectionBuffer.java:77-81 | a connection is kept exactly when it was buffered and the rule does not select it |
| FreeConnections.TrimmedMembership | ebean-datasource/src/main/java/io/ebean/datasource/pool/FreeConnectionBuffer.java:77-81 | a connection is trimmed exactly when it was buffered and the rule selects it |
| FreeConnections.SurvivorsKeepNoTrimmable | ebean-datasource/src/main/java/io/ebean/datasource/pool/FreeConnectionBuffer.java:75-82 | no connection left after a sweep is one the rule selects |
| FreeConnections.TrimIdempotent | ebean-datasource/src/main/java/io/ebean/datasource/pool/FreeConnectionBuffer.java:72-84 | a second sweep with the same arguments keeps everything and trims nothing, so it returns 0 |
| FreeConnections.StaleTrimScenario | ebean-datasource/src/main/java/io/ebean/datasource/pool/FreeConnectionBuffer.java:72-84 | under an idle-or-old rule, of three connections only the one unused since the cut-off is trimmed and the other two stay in order |

## Left out

- Logging through SLF4J, including the error logged when `closeDestroy` throws. It is a side channel with no effect on state.
- The hashing side of `LinkedHashMap`: the initial capacity `maxCacheSize * 3`, the load factor 0.75 and `serialVersionUID`. Only the access-ordered map behaviour is modelled.
- Pstmt.PstmtCache.constructor: takes a natural number. A negative `maxCacheSize` makes `LinkedHashMap` throw, which is not modelled.
- Java `int` overflow of the four counters and of `hitCounter * 100` in the hit ratio. Counters are unbounded naturals, so the ratio is the mathematical one.
- `ExtendedPreparedStatement` is not part of this model. A statement is its cache key plus an opaque handle. `closeDestroy` is recorded in a ghost log, and whether it throws is a parameter (`closeFails`).
- `PooledConnection` is not part of this model. A connection is an id plus its creation and last-use times. `shouldTrim` is a function parameter. `closeConnectionFully` is recorded in a ghost log.
- `getMaxSize`, `getHitCounter`, `getMissCounter` and `getPutCounter` only read a field. The model reads the fields directly, and `getMaxSize` is `MaxSize`.
- `LinkedHashMap` methods that `PstmtCache` inherits without override, such as `putAll` or `clear`. Closing every cached statement when a connection shuts down happens outside these two classes.
- Null keys and null statements. The cache never stores a null statement, so a null result always means "absent".
- Thread safety. Both classes rely on the caller to serialise access.
- FreeConnections.FreeConnectionBuffer.Remove: requires a non-empty buffer. On an empty list `removeFirst` throws `NoSuchElementException`, and that exception is not modelled.
