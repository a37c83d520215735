/**
 * The value-level view of the access-ordered LinkedHashMap inside the
 * prepared statement cache: a sequence of (key, statement) entries, least
 * recently accessed first, most recently accessed last.
 */
module PstmtEntries {

  import opened Optional

  /** A prepared statement as the cache sees it: its cache key and the physical handle it owns. */
  datatype Stmt = Stmt(cacheKey: string, handle: nat)

  datatype Entry = Entry(key: string, stmt: Stmt)

  function Keys(es: seq<Entry>): set<string>
  {
    set e | e in es :: e.key
  }

  predicate DistinctKeys(es: seq<Entry>)
  {
    forall i, j :: 0 <= i < j < |es| ==> es[i].key != es[j].key
  }

  /** The statement mapped to `k`, found by a scan from the least recent end. */
  function Lookup(es: seq<Entry>, k: string): (r: Option<Stmt>)
    ensures r.Some? <==> k in Keys(es)
    ensures r.Some? ==> Entry(k, r.value) in es
  {
    if es == [] then None
    else if es[0].key == k then Some(es[0].stmt)
    else
      assert Keys(es) == {es[0].key} + Keys(es[1..]) by {
        assert es == [es[0]] + es[1..];
      }
      Lookup(es[1..], k)
  }

  /** The list with every entry under `k` dropped, the others in their order. */
  function Without(es: seq<Entry>, k: string): (r: seq<Entry>)
    ensures forall e :: e in r ==> e in es && e.key != k
    ensures |r| <= |es|
  {
    if es == [] then []
    else if es[0].key == k then Without(es[1..], k)
    else [es[0]] + Without(es[1..], k)
  }

  /** LinkedHashMap.put in access order: the key ends up mapped to `v` at the most recent end. */
  function Assign(es: seq<Entry>, k: string, v: Stmt): seq<Entry>
  {
    Without(es, k) + [Entry(k, v)]
  }

  /** LinkedHashMap.get in access order: a present key moves to the most recent end. */
  function Touch(es: seq<Entry>, k: string): seq<Entry>
  {
    match Lookup(es, k)
    case None => es
    case Some(s) => Assign(es, k, s)
  }

  /** Whether putting `k` makes removeEldestEntry evict: the key is new and the size after insertion reaches `maxSize`. */
  predicate EvictsOnPut(es: seq<Entry>, k: string, maxSize: nat)
  {
    k !in Keys(es) && |es| + 1 >= maxSize
  }

  /** The entry handed to removeEldestEntry when `incoming` is inserted: the head of the list after insertion. */
  function Eldest(es: seq<Entry>, incoming: Entry): Entry
  {
    (es + [incoming])[0]
  }

  /** The entry list after PstmtCache.put(k, v), eviction included. */
  function AfterPut(es: seq<Entry>, k: string, v: Stmt, maxSize: nat): seq<Entry>
  {
    if k in Keys(es) then Assign(es, k, v)
    else if EvictsOnPut(es, k, maxSize) then (es + [Entry(k, v)])[1..]
    else es + [Entry(k, v)]
  }

  /** The size bound that every cache state keeps: below `maxSize`, or empty. */
  predicate Bounded(es: seq<Entry>, maxSize: nat)
  {
    |es| < maxSize || es == []
  }

  /** Entries strictly increasing in last-access stamp: the head is the least recently accessed. */
  predicate AccessOrdered(es: seq<Entry>, stamp: map<string, nat>)
  {
    (forall i :: 0 <= i < |es| ==> es[i].key in stamp) &&
    (forall i, j :: 0 <= i < j < |es| ==> stamp[es[i].key] < stamp[es[j].key])
  }

  predicate StampsBelow(stamp: map<string, nat>, clock: nat)
  {
    forall k :: k in stamp ==> stamp[k] < clock
  }

  // ---------------------------------------------------------------------------
  // Lemmas

  lemma AccessOrderedDistinct(es: seq<Entry>, stamp: map<string, nat>)
    requires AccessOrdered(es, stamp)
    ensures DistinctKeys(es)
  {
  }

  lemma {:induction false} LookupAt(es: seq<Entry>, i: nat)
    requires DistinctKeys(es) && i < |es|
    ensures Lookup(es, es[i].key) == Some(es[i].stmt)
  {
    if i > 0 {
      assert es[0].key != es[i].key;
      assert es[1..][i - 1] == es[i];
      LookupAt(es[1..], i - 1);
    }
  }

  lemma {:induction false} WithoutAbsent(es: seq<Entry>, k: string)
    requires k !in Keys(es)
    ensures Without(es, k) == es
  {
    if es != [] {
      assert es[0] in es;
      assert Keys(es[1..]) <= Keys(es) by {
        forall e | e in es[1..] ensures e in es { }
      }
      WithoutAbsent(es[1..], k);
    }
  }

  lemma KeysConcat(a: seq<Entry>, b: seq<Entry>)
    ensures Keys(a + b) == Keys(a) + Keys(b)
  {
    forall x | x in Keys(a + b) ensures x in Keys(a) + Keys(b) {
      var e :| e in a + b && e.key == x;
      assert e in a || e in b;
    }
  }

  lemma {:induction false} WithoutKeys(es: seq<Entry>, k: string)
    ensures Keys(Without(es, k)) == Keys(es) - {k}
  {
    if es != [] {
      assert es == [es[0]] + es[1..];
      KeysConcat([es[0]], es[1..]);
      KeysConcat([es[0]], Without(es[1..], k));
      assert Keys([es[0]]) == {es[0].key};
      WithoutKeys(es[1..], k);
    }
  }

  lemma {:induction false} WithoutSize(es: seq<Entry>, k: string)
    requires DistinctKeys(es) && k in Keys(es)
    ensures |Without(es, k)| == |es| - 1
  {
    assert es != [];
    if es[0].key == k {
      assert k !in Keys(es[1..]) by {
        forall e | e in es[1..] ensures e.key != k {
          var j :| 0 <= j < |es[1..]| && es[1..][j] == e;
          assert es[j + 1] == e;
        }
      }
      WithoutAbsent(es[1..], k);
    } else {
      assert k in Keys(es[1..]) by {
        var e :| e in es && e.key == k;
        var j :| 0 <= j < |es| && es[j] == e;
        assert j > 0;
        assert es[1..][j - 1] == e;
      }
      WithoutSize(es[1..], k);
    }
  }

  lemma {:induction false} WithoutLookup(es: seq<Entry>, k: string, j: string)
    ensures Lookup(Without(es, k), j) == if j == k then None else Lookup(es, j)
  {
    WithoutKeys(es, k);
    if es != [] && j != k {
      WithoutLookup(es[1..], k, j);
    }
  }

  lemma TailOrdered(es: seq<Entry>, stamp: map<string, nat>)
    requires es != [] && AccessOrdered(es, stamp)
    ensures AccessOrdered(es[1..], stamp)
    ensures forall e :: e in es[1..] ==> e.key in stamp && stamp[es[0].key] < stamp[e.key]
  {
    var tail := es[1..];
    forall i, j | 0 <= i < j < |tail| ensures stamp[tail[i].key] < stamp[tail[j].key] {
      assert tail[i] == es[i + 1] && tail[j] == es[j + 1];
    }
    forall e | e in tail ensures e.key in stamp && stamp[es[0].key] < stamp[e.key] {
      var m :| 0 <= m < |tail| && tail[m] == e;
      assert tail[m] == es[m + 1];
    }
  }

  lemma ConsOrdered(x: Entry, w: seq<Entry>, stamp: map<string, nat>)
    requires AccessOrdered(w, stamp) && x.key in stamp
    requires forall e :: e in w ==> e.key in stamp && stamp[x.key] < stamp[e.key]
    ensures AccessOrdered([x] + w, stamp)
  {
    var r := [x] + w;
    forall i, j | 0 <= i < j < |r| ensures stamp[r[i].key] < stamp[r[j].key] {
      assert r[j] == w[j - 1] && w[j - 1] in w;
      if i > 0 {
        assert r[i] == w[i - 1];
      }
    }
  }

  lemma {:induction false} WithoutOrdered(es: seq<Entry>, k: string, stamp: map<string, nat>)
    requires AccessOrdered(es, stamp)
    ensures AccessOrdered(Without(es, k), stamp)
  {
    if es != [] {
      TailOrdered(es, stamp);
      WithoutOrdered(es[1..], k, stamp);
      if es[0].key != k {
        ConsOrdered(es[0], Without(es[1..], k), stamp);
      }
    }
  }

  lemma {:induction false} LookupAppend(es: seq<Entry>, e: Entry, j: string)
    ensures Lookup(es + [e], j) ==
      if j in Keys(es) then Lookup(es, j) else if e.key == j then Some(e.stmt) else None
  {
    if es == [] {
      assert [] + [e] == [e];
    } else {
      assert (es + [e])[1..] == es[1..] + [e];
      assert Keys(es) == {es[0].key} + Keys(es[1..]) by {
        assert es == [es[0]] + es[1..];
      }
      LookupAppend(es[1..], e, j);
    }
  }

  /** After an access-ordered put, `k` maps to `v` and every other key keeps its statement. */
  lemma AssignLookup(es: seq<Entry>, k: string, v: Stmt, j: string)
    ensures Lookup(Assign(es, k, v), j) == if j == k then Some(v) else Lookup(es, j)
  {
    WithoutKeys(es, k);
    LookupAppend(Without(es, k), Entry(k, v), j);
    WithoutLookup(es, k, j);
  }

  /** A touch changes no mapping; a present key ends up at the most recent end. */
  lemma TouchLookup(es: seq<Entry>, k: string, j: string)
    ensures Lookup(Touch(es, k), j) == Lookup(es, j)
    ensures k in Keys(es) ==> Touch(es, k)[|Touch(es, k)| - 1] == Entry(k, Lookup(es, k).value)
  {
    if k in Keys(es) {
      AssignLookup(es, k, Lookup(es, k).value, j);
    }
  }

  /** Assigning a key keeps the size when the key is present and grows it by one when it is new. */
  lemma AssignSize(es: seq<Entry>, k: string, v: Stmt)
    requires DistinctKeys(es)
    ensures |Assign(es, k, v)| == if k in Keys(es) then |es| else |es| + 1
  {
    if k in Keys(es) {
      WithoutSize(es, k);
    } else {
      WithoutAbsent(es, k);
    }
  }

  /** Stamping `k` with a fresh clock value and moving it to the end keeps the list in access order. */
  lemma AssignOrdered(es: seq<Entry>, k: string, v: Stmt, stamp: map<string, nat>, clock: nat)
    requires AccessOrdered(es, stamp) && StampsBelow(stamp, clock)
    ensures AccessOrdered(Assign(es, k, v), stamp[k := clock])
    ensures StampsBelow(stamp[k := clock], clock + 1)
  {
    var w := Without(es, k);
    WithoutOrdered(es, k, stamp);
    var st := stamp[k := clock];
    var r := w + [Entry(k, v)];
    forall i | 0 <= i < |r| ensures r[i].key in st { }
    forall i, j | 0 <= i < j < |r| ensures st[r[i].key] < st[r[j].key] {
      assert r[i] == w[i] && w[i] in w;
      if j < |w| {
        assert r[j] == w[j] && w[j] in w;
      }
    }
  }

  lemma KeysTail(es: seq<Entry>)
    requires es != []
    ensures Keys(es) == {es[0].key} + Keys(es[1..])
    ensures DistinctKeys(es) ==> es[0].key !in Keys(es[1..]) && DistinctKeys(es[1..])
  {
    assert es == [es[0]] + es[1..];
    KeysConcat([es[0]], es[1..]);
    assert Keys([es[0]]) == {es[0].key};
    if DistinctKeys(es) {
      forall e | e in es[1..] ensures e.key != es[0].key {
        var j :| 0 <= j < |es[1..]| && es[1..][j] == e;
        assert es[j + 1] == e;
      }
    }
  }

  /**
   * The whole mapping after a put: the evicted eldest key is gone, `k` maps
   * to `v` unless it was itself evicted, every other key is unchanged.
   */
  lemma PutLookup(es: seq<Entry>, k: string, v: Stmt, maxSize: nat, j: string)
    requires DistinctKeys(es)
    ensures Lookup(AfterPut(es, k, v, maxSize), j) ==
      if EvictsOnPut(es, k, maxSize) && j == Eldest(es, Entry(k, v)).key then None
      else if j == k then Some(v)
      else Lookup(es, j)
  {
    if k in Keys(es) {
      AssignLookup(es, k, v, j);
    } else if EvictsOnPut(es, k, maxSize) {
      if es != [] {
        assert (es + [Entry(k, v)])[1..] == es[1..] + [Entry(k, v)];
        KeysTail(es);
        LookupAppend(es[1..], Entry(k, v), j);
      }
    } else {
      LookupAppend(es, Entry(k, v), j);
    }
  }

  /** A put that evicts removes exactly one entry, and it is the least recently accessed one. */
  lemma PutEvictsLeastRecent(es: seq<Entry>, k: string, v: Stmt, maxSize: nat,
                             stamp: map<string, nat>, clock: nat)
    requires AccessOrdered(es, stamp) && StampsBelow(stamp, clock)
    requires EvictsOnPut(es, k, maxSize)
    ensures |AfterPut(es, k, v, maxSize)| == |es|
    ensures AfterPut(es, k, v, maxSize) == (es + [Entry(k, v)])[1..]
    ensures forall e :: e in es + [Entry(k, v)] ==>
      stamp[k := clock][Eldest(es, Entry(k, v)).key] <= stamp[k := clock][e.key]
  {
    WithoutAbsent(es, k);
    AssignOrdered(es, k, v, stamp, clock);
    var grown := es + [Entry(k, v)];
    assert Assign(es, k, v) == grown;
    var st := stamp[k := clock];
    forall e | e in grown ensures st[grown[0].key] <= st[e.key] {
      var i :| 0 <= i < |grown| && grown[i] == e;
      if i > 0 {
        assert st[grown[0].key] < st[grown[i].key];
      }
    }
  }

  /** Every put keeps the cache below `maxSize` (or empty), so its size never reaches `maxSize`. */
  lemma PutBounded(es: seq<Entry>, k: string, v: Stmt, maxSize: nat)
    requires DistinctKeys(es) && Bounded(es, maxSize)
    ensures Bounded(AfterPut(es, k, v, maxSize), maxSize)
  {
    AssignSize(es, k, v);
  }

  /** A put keeps the entries in access order once `k` carries the newest stamp. */
  lemma PutOrdered(es: seq<Entry>, k: string, v: Stmt, maxSize: nat,
                   stamp: map<string, nat>, clock: nat)
    requires AccessOrdered(es, stamp) && StampsBelow(stamp, clock)
    ensures AccessOrdered(AfterPut(es, k, v, maxSize), stamp[k := clock])
    ensures StampsBelow(stamp[k := clock], clock + 1)
  {
    AssignOrdered(es, k, v, stamp, clock);
    if k !in Keys(es) {
      WithoutAbsent(es, k);
      var grown := es + [Entry(k, v)];
      assert Assign(es, k, v) == grown;
      if EvictsOnPut(es, k, maxSize) {
        var st := stamp[k := clock];
        var r := grown[1..];
        forall i, j | 0 <= i < j < |r| ensures st[r[i].key] < st[r[j].key] {
          assert r[i] == grown[i + 1] && r[j] == grown[j + 1];
        }
      }
    }
  }

  /**
   * With room for at least two entries, a put of a new key leaves it as the
   * most recent entry, mapped to its statement.
   */
  lemma PutNewKeyMostRecent(es: seq<Entry>, k: string, v: Stmt, maxSize: nat)
    requires Bounded(es, maxSize) && maxSize >= 2 && k !in Keys(es)
    ensures var r := AfterPut(es, k, v, maxSize); r != [] && r[|r| - 1] == Entry(k, v)
  {
  }

  /** With `maxSize` 1 the statement just inserted is itself the eldest: it is evicted and the cache stays empty. */
  lemma PutCapacityOne(k: string, v: Stmt)
    ensures EvictsOnPut([], k, 1) && Eldest([], Entry(k, v)) == Entry(k, v)
    ensures AfterPut([], k, v, 1) == []
  {
  }

  /**
   * The least-recently-used scenario with room for three statements: A and
   * B go in, a hit on A makes B the eldest, and putting C evicts B, leaving A
   * then C.
   */
  lemma LruScenario(a: Stmt, b: Stmt, c: Stmt)
    ensures var s1 := AfterPut([], "A", a, 3);
      var s2 := AfterPut(s1, "B", b, 3);
      var s3 := Touch(s2, "A");
      && !EvictsOnPut([], "A", 3) && !EvictsOnPut(s1, "B", 3)
      && s3 == [Entry("B", b), Entry("A", a)]
      && EvictsOnPut(s3, "C", 3) && Eldest(s3, Entry("C", c)) == Entry("B", b)
      && AfterPut(s3, "C", c, 3) == [Entry("A", a), Entry("C", c)]
  {
    var s1 := AfterPut([], "A", a, 3);
    assert s1 == [Entry("A", a)] && Keys(s1) == {"A"};
    var s2 := AfterPut(s1, "B", b, 3);
    assert s2 == [Entry("A", a), Entry("B", b)];
    assert Lookup(s2, "A") == Some(a);
    assert Without(s2, "A") == [Entry("B", b)];
    var s3 := Touch(s2, "A");
    assert s3 == [Entry("B", b), Entry("A", a)];
    assert Keys(s3) == {"A", "B"};
  }
}
