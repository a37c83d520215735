/**
 * FreeConnectionBuffer: the LIFO list of idle pooled connections, head at
 * index 0, with bulk close and the trim sweep. Callers serialise access.
 */
module FreeConnections {

  /** An idle pooled connection: its identity and its two clocks. */
  datatype Conn = Conn(id: nat, createdAt: int, lastUsedAt: int)

  /**
   * One call of closeConnectionFully(logErrors) on a connection, with the
   * number of connections the buffer held when the call was issued.
   */
  datatype CloseCall = CloseCall(conn: Conn, logErrors: bool, buffered: int)

  /** PooledConnection.shouldTrim(usedSince, createdSince), whose body is not part of this model. */
  type TrimRule = (Conn, int, int) -> bool

  /** The connections a sweep keeps, in their order. */
  function Survivors(s: seq<Conn>, shouldTrim: TrimRule, usedSince: int, createdSince: int): seq<Conn>
  {
    if s == [] then []
    else if shouldTrim(s[0], usedSince, createdSince) then Survivors(s[1..], shouldTrim, usedSince, createdSince)
    else [s[0]] + Survivors(s[1..], shouldTrim, usedSince, createdSince)
  }

  /** The connections a sweep removes and closes, in their order. */
  function Trimmed(s: seq<Conn>, shouldTrim: TrimRule, usedSince: int, createdSince: int): seq<Conn>
  {
    if s == [] then []
    else if shouldTrim(s[0], usedSince, createdSince) then [s[0]] + Trimmed(s[1..], shouldTrim, usedSince, createdSince)
    else Trimmed(s[1..], shouldTrim, usedSince, createdSince)
  }

  /** One closeConnectionFully(logErrors) per connection, in order, each issued while the buffer is empty. */
  function DrainCloses(cs: seq<Conn>, logErrors: bool): seq<CloseCall>
  {
    if cs == [] then [] else DrainCloses(cs[..|cs| - 1], logErrors) + [CloseCall(cs[|cs| - 1], logErrors, 0)]
  }

  /**
   * One closeConnectionFully(true) per connection, in order, each issued
   * once that connection and all before it have left a buffer of `n`.
   */
  function TrimCloses(cs: seq<Conn>, n: int): seq<CloseCall>
  {
    if cs == [] then [] else TrimCloses(cs[..|cs| - 1], n) + [CloseCall(cs[|cs| - 1], true, n - |cs|)]
  }

  /** An example trim rule, used by `StaleTrimScenario`: unused since `usedSince`, or created before `createdSince`. */
  predicate Stale(c: Conn, usedSince: int, createdSince: int)
  {
    c.lastUsedAt < usedSince || c.createdAt < createdSince
  }

  // ---------------------------------------------------------------------------
  // Lemmas about the sweep

  lemma DrainClosesSnoc(cs: seq<Conn>, c: Conn, logErrors: bool)
    ensures DrainCloses(cs + [c], logErrors) == DrainCloses(cs, logErrors) + [CloseCall(c, logErrors, 0)]
  {
    assert (cs + [c])[..|cs|] == cs;
  }

  lemma TrimClosesSnoc(cs: seq<Conn>, c: Conn, n: int)
    ensures TrimCloses(cs + [c], n) == TrimCloses(cs, n) + [CloseCall(c, true, n - |cs| - 1)]
  {
    assert (cs + [c])[..|cs|] == cs;
  }

  /** The drain closes each connection once, in order, with the given flag, and every close sees an empty buffer. */
  lemma {:induction false} DrainClosesAt(cs: seq<Conn>, logErrors: bool)
    ensures |DrainCloses(cs, logErrors)| == |cs|
    ensures forall i :: 0 <= i < |cs| ==> DrainCloses(cs, logErrors)[i] == CloseCall(cs[i], logErrors, 0)
  {
    if cs != [] {
      DrainClosesAt(cs[..|cs| - 1], logErrors);
    }
  }

  /**
   * The sweep closes each trimmed connection once, in order, logging errors,
   * and the i-th close sees a buffer that has already lost i + 1 connections:
   * each one is unlinked before it is closed.
   */
  lemma {:induction false} TrimClosesAt(cs: seq<Conn>, n: int)
    ensures |TrimCloses(cs, n)| == |cs|
    ensures forall i :: 0 <= i < |cs| ==> TrimCloses(cs, n)[i] == CloseCall(cs[i], true, n - (i + 1))
  {
    if cs != [] {
      TrimClosesAt(cs[..|cs| - 1], n);
    }
  }

  /**
   * iterator.remove() on the connection at the cursor `i`: what is before
   * the cursor stays, what the sweep will keep is unchanged, and the
   * connection joins the trimmed ones.
   */
  lemma SweepUnlink(b: seq<Conn>, i: nat, gone: seq<Conn>, shouldTrim: TrimRule, usedSince: int, createdSince: int)
    requires i < |b| && shouldTrim(b[i], usedSince, createdSince)
    ensures var b' := b[..i] + b[i + 1..];
      && |b'| == |b| - 1
      && b'[..i] + Survivors(b'[i..], shouldTrim, usedSince, createdSince)
         == b[..i] + Survivors(b[i..], shouldTrim, usedSince, createdSince)
      && (gone + [b[i]]) + Trimmed(b'[i..], shouldTrim, usedSince, createdSince)
         == gone + Trimmed(b[i..], shouldTrim, usedSince, createdSince)
  {
    var b' := b[..i] + b[i + 1..];
    assert b'[..i] == b[..i];
    assert b'[i..] == b[i..][1..];
    assert b[i..][0] == b[i];
  }

  /** iterator.next() without removal: the connection at the cursor moves to the kept part before it. */
  lemma SweepKeep(b: seq<Conn>, i: nat, shouldTrim: TrimRule, usedSince: int, createdSince: int)
    requires i < |b| && !shouldTrim(b[i], usedSince, createdSince)
    ensures b[..i + 1] + Survivors(b[i + 1..], shouldTrim, usedSince, createdSince)
         == b[..i] + Survivors(b[i..], shouldTrim, usedSince, createdSince)
    ensures Trimmed(b[i + 1..], shouldTrim, usedSince, createdSince)
         == Trimmed(b[i..], shouldTrim, usedSince, createdSince)
  {
    assert b[..i + 1] == b[..i] + [b[i]];
    assert b[i + 1..] == b[i..][1..];
    assert b[i..][0] == b[i];
  }

  /** The sweep keeps some connections and trims the rest: the two counts add up to the buffer's size. */
  lemma {:induction false} TrimCount(s: seq<Conn>, shouldTrim: TrimRule, usedSince: int, createdSince: int)
    ensures |Survivors(s, shouldTrim, usedSince, createdSince)| +
            |Trimmed(s, shouldTrim, usedSince, createdSince)| == |s|
  {
    if s != [] {
      TrimCount(s[1..], shouldTrim, usedSince, createdSince);
    }
  }

  /** Kept and trimmed connections together are exactly the buffer's connections: none lost, none duplicated. */
  lemma {:induction false} TrimPartition(s: seq<Conn>, shouldTrim: TrimRule, usedSince: int, createdSince: int)
    ensures multiset(Survivors(s, shouldTrim, usedSince, createdSince)) +
            multiset(Trimmed(s, shouldTrim, usedSince, createdSince)) == multiset(s)
  {
    if s != [] {
      TrimPartition(s[1..], shouldTrim, usedSince, createdSince);
      assert s == [s[0]] + s[1..];
      assert multiset(s) == multiset{s[0]} + multiset(s[1..]);
    }
  }

  /** A connection survives exactly when it was in the buffer and the rule does not trim it. */
  lemma {:induction false} SurvivorsMembership(s: seq<Conn>, shouldTrim: TrimRule, usedSince: int, createdSince: int, c: Conn)
    ensures c in Survivors(s, shouldTrim, usedSince, createdSince) <==>
            c in s && !shouldTrim(c, usedSince, createdSince)
  {
    if s != [] {
      SurvivorsMembership(s[1..], shouldTrim, usedSince, createdSince, c);
      assert s == [s[0]] + s[1..];
    }
  }

  /** No connection the sweep keeps is one the rule would trim. */
  lemma SurvivorsKeepNoTrimmable(s: seq<Conn>, shouldTrim: TrimRule, usedSince: int, createdSince: int)
    ensures forall c :: c in Survivors(s, shouldTrim, usedSince, createdSince) ==> !shouldTrim(c, usedSince, createdSince)
  {
    forall c | c in Survivors(s, shouldTrim, usedSince, createdSince) ensures !shouldTrim(c, usedSince, createdSince) {
      SurvivorsMembership(s, shouldTrim, usedSince, createdSince, c);
    }
  }

  /** A connection is trimmed exactly when it was in the buffer and the rule trims it. */
  lemma {:induction false} TrimmedMembership(s: seq<Conn>, shouldTrim: TrimRule, usedSince: int, createdSince: int, c: Conn)
    ensures c in Trimmed(s, shouldTrim, usedSince, createdSince) <==>
            c in s && shouldTrim(c, usedSince, createdSince)
  {
    if s != [] {
      TrimmedMembership(s[1..], shouldTrim, usedSince, createdSince, c);
      assert s == [s[0]] + s[1..];
    }
  }

  /** After a sweep no connection left is trimmable, so the same sweep again keeps everything and trims nothing. */
  lemma {:induction false} TrimIdempotent(s: seq<Conn>, shouldTrim: TrimRule, usedSince: int, createdSince: int)
    ensures var kept := Survivors(s, shouldTrim, usedSince, createdSince);
      && Survivors(kept, shouldTrim, usedSince, createdSince) == kept
      && Trimmed(kept, shouldTrim, usedSince, createdSince) == []
  {
    if s != [] {
      var kept0 := Survivors(s[1..], shouldTrim, usedSince, createdSince);
      TrimIdempotent(s[1..], shouldTrim, usedSince, createdSince);
      if !shouldTrim(s[0], usedSince, createdSince) {
        var kept := [s[0]] + kept0;
        assert kept[0] == s[0] && kept[1..] == kept0;
      }
    }
  }

  class FreeConnectionBuffer {
    /** The free list, most recently added first. */
    var freeBuffer: seq<Conn>
    /** Every closeConnectionFully the buffer has issued, in order. */
    ghost var closeLog: seq<CloseCall>

    constructor ()
      ensures freeBuffer == [] && closeLog == []
    {
      freeBuffer := [];
      closeLog := [];
    }

    function Size(): (n: nat)
      reads this
      ensures n == |freeBuffer|
    {
      |freeBuffer|
    }

    function IsEmpty(): (e: bool)
      reads this
      ensures e <==> Size() == 0
    {
      freeBuffer == []
    }

    /** add: the connection goes to the head, the rest is untouched. */
    method Add(pc: Conn)
      modifies this`freeBuffer
      ensures freeBuffer == [pc] + old(freeBuffer)
      ensures Size() == old(Size()) + 1
    {
      freeBuffer := [pc] + freeBuffer;
    }

    /** remove: takes the head, the most recently added connection still here. */
    method Remove() returns (pc: Conn)
      requires freeBuffer != []
      modifies this`freeBuffer
      ensures pc == old(freeBuffer)[0] && freeBuffer == old(freeBuffer)[1..]
      ensures Size() == old(Size()) - 1
    {
      pc := freeBuffer[0];
      freeBuffer := freeBuffer[1..];
    }

    /**
     * PooledConnection.closeConnectionFully, whose own behaviour is not part
     * of this model: the call is recorded with the buffer's size at that moment.
     */
    method CloseConnectionFully(pc: Conn, logErrors: bool)
      modifies this`closeLog
      ensures closeLog == old(closeLog) + [CloseCall(pc, logErrors, |freeBuffer|)]
    {
      closeLog := closeLog + [CloseCall(pc, logErrors, |freeBuffer|)];
    }

    /**
     * closeAll: the buffer is emptied first, and stays empty while every
     * connection that was in it is closed once, head to tail.
     */
    method CloseAll(logErrors: bool)
      modifies this
      ensures freeBuffer == []
      ensures closeLog == old(closeLog) + DrainCloses(old(freeBuffer), logErrors)
    {
      var tempList := freeBuffer;
      freeBuffer := [];
      for i := 0 to |tempList|
        invariant freeBuffer == []
        invariant closeLog == old(closeLog) + DrainCloses(tempList[..i], logErrors)
      {
        assert tempList[..i + 1] == tempList[..i] + [tempList[i]];
        DrainClosesSnoc(tempList[..i], tempList[i], logErrors);
        CloseConnectionFully(tempList[i], logErrors);
      }
      assert tempList[..|tempList|] == tempList;
    }

    /**
     * trim: one iterator sweep that unlinks and closes (logging errors)
     * every connection the rule selects, keeping the others in order, and
     * returns how many went.
     */
    method Trim(shouldTrim: TrimRule, usedSince: int, createdSince: int) returns (trimCount: nat)
      modifies this
      ensures freeBuffer == Survivors(old(freeBuffer), shouldTrim, usedSince, createdSince)
      ensures closeLog == old(closeLog) +
        TrimCloses(Trimmed(old(freeBuffer), shouldTrim, usedSince, createdSince), |old(freeBuffer)|)
      ensures trimCount == |Trimmed(old(freeBuffer), shouldTrim, usedSince, createdSince)|
      ensures trimCount == old(Size()) - Size()
      ensures forall c :: c in freeBuffer ==> !shouldTrim(c, usedSince, createdSince)
    {
      trimCount := 0;
      ghost var s := freeBuffer;
      ghost var gone := [];
      var cursor := 0;
      while cursor < |freeBuffer|
        invariant cursor <= |freeBuffer|
        invariant Survivors(s, shouldTrim, usedSince, createdSince) ==
          freeBuffer[..cursor] + Survivors(freeBuffer[cursor..], shouldTrim, usedSince, createdSince)
        invariant Trimmed(s, shouldTrim, usedSince, createdSince) ==
          gone + Trimmed(freeBuffer[cursor..], shouldTrim, usedSince, createdSince)
        invariant trimCount == |gone| && |freeBuffer| + |gone| == |s|
        invariant closeLog == old(closeLog) + TrimCloses(gone, |s|)
        decreases |freeBuffer| - cursor
      {
        var pooledConnection := freeBuffer[cursor];
        if shouldTrim(pooledConnection, usedSince, createdSince) {
          SweepUnlink(freeBuffer, cursor, gone, shouldTrim, usedSince, createdSince);
          TrimClosesSnoc(gone, pooledConnection, |s|);
          freeBuffer := freeBuffer[..cursor] + freeBuffer[cursor + 1..];
          CloseConnectionFully(pooledConnection, true);
          trimCount := trimCount + 1;
          gone := gone + [pooledConnection];
        } else {
          SweepKeep(freeBuffer, cursor, shouldTrim, usedSince, createdSince);
          cursor := cursor + 1;
        }
      }
      assert freeBuffer[..cursor] == freeBuffer && freeBuffer[cursor..] == [];
      assert Trimmed(freeBuffer[cursor..], shouldTrim, usedSince, createdSince) == [];
      assert gone == Trimmed(s, shouldTrim, usedSince, createdSince);
      TrimCount(s, shouldTrim, usedSince, createdSince);
      SurvivorsKeepNoTrimmable(s, shouldTrim, usedSince, createdSince);
    }
  }

  /** Adds and removes in any interleaving hand connections back last-in, first-out. */
  method LifoScenario(a: Conn, b: Conn, c: Conn)
  {
    var buffer := new FreeConnectionBuffer();
    buffer.Add(a);
    buffer.Add(b);
    var taken := buffer.Remove();
    assert taken == b && buffer.Size() == 1;
    buffer.Add(c);
    taken := buffer.Remove();
    assert taken == c;
    taken := buffer.Remove();
    assert taken == a && buffer.IsEmpty();
  }

  /**
   * Three idle connections created at 100, 200 and 300 and last used at
   * 100, 50 and 300: under the `Stale` rule, trimming with
   * usedSince 80 and createdSince 0 takes only the second.
   */
  lemma StaleTrimScenario()
    ensures var s := [Conn(1, 100, 100), Conn(2, 200, 50), Conn(3, 300, 300)];
      && Survivors(s, Stale, 80, 0) == [Conn(1, 100, 100), Conn(3, 300, 300)]
      && Trimmed(s, Stale, 80, 0) == [Conn(2, 200, 50)]
  {
    var c1, c2, c3 := Conn(1, 100, 100), Conn(2, 200, 50), Conn(3, 300, 300);
    assert [c1, c2, c3][1..] == [c2, c3] && [c2, c3][1..] == [c3] && [c3][1..] == [];
  }
}
