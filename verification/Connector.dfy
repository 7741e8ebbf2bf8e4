/** CachingConnector as written: the two maps, the cachedConn records they
    share, and the methods that run while the lock is held.  Each method is
    proved against the function of ConnCache that gives its section's effect.

    The gRPC library is outside the model: `shut` holds the connections in
    state Shutdown, and what grpc.DialContext returns is a parameter. */
module Connector {
  import opened Options
  import opened ConnCache

  class CachedConn {
    const target: Target
    const conn: Handle
    var open: nat
    var lastClose: int

    constructor (target: Target, conn: Handle)
      ensures this.target == target && this.conn == conn && open == 1 && lastClose == 0
    {
      this.target, this.conn, open, lastClose := target, conn, 1, 0;
    }
  }

  class CachingConnector {
    const idleTime: int
    var conns: map<Target, CachedConn>
    var index: map<Handle, CachedConn>
    var janitorClosed: nat   // number of values in the channel
    var janitors: nat        // janitors started that have not given their token back
    var janitorDone: bool    // whether the channel is still there
    var shut: set<Handle>
    ghost var created: set<CachedConn>

    ghost function View(): Cache<CachedConn>
      reads this, created
    {
      Cache(conns, index, map c | c in created :: Cell(c.target, c.conn, c.open, c.lastClose),
            shut, janitorClosed, janitors, !janitorDone)
    }

    ghost predicate Valid()
      reads this, created
    {
      CacheInv(View())
    }

    constructor (idleTime: int)
      ensures Valid() && View() == Cache(map[], map[], map[], {}, 1, 0, false)
      ensures this.idleTime == idleTime && fresh(created)
    {
      this.idleTime := idleTime;
      conns, index, created, shut := map[], map[], {}, {};
      janitorClosed, janitors, janitorDone := 1, 0, true;
    }

    method EnsureJanitorStarted()
      modifies this`janitorClosed, this`janitors
      ensures View() == EnsureJanitor(old(View()))
    {
      if !janitorDone {
        janitors := janitors + 1;
      } else if janitorClosed > 0 {
        janitorClosed := janitorClosed - 1;
        janitors := janitors + 1;
      }
    }

    method SetClosed(c: CachedConn, now: int)
      requires c in created
      modifies c
      ensures View() == ConnCache.SetClosed(old(View()), c, now)
    {
      if c.open > 0 {
        c.lastClose := now;
        c.open := c.open - 1;
      }
    }

    method RemoveConn(c: CachedConn)
      requires c in created
      modifies this`conns, this`index, this`shut
      ensures View() == ConnCache.RemoveConn(old(View()), c)
    {
      index := index - {c.conn};
      conns := conns - {c.target};
      shut := shut + {c.conn};
    }

    method ShutdownConn(c: CachedConn)
      requires c in created
      modifies this`conns, this`index, this`janitorClosed, this`janitors
      ensures View() == ConnCache.ShutdownConn(old(View()), c)
    {
      if !janitorDone {
        return;
      }
      conns := conns - {c.target};
      index := index - {c.conn};
      EnsureJanitorStarted();
    }

    method LoadConn(target: Target) returns (c: Option<CachedConn>)
      requires Valid()
      modifies this`conns, this`index, this`janitorClosed, this`janitors, created
      ensures Hit(old(View()), target) ==>
                c == Some(old(conns)[target]) && View() == Use(old(View()), target)
      ensures !Hit(old(View()), target) ==> c.None? && View() == Evict(old(View()), target)
    {
      if target in conns {
        var e := conns[target];
        if e.conn !in shut {
          e.open := e.open + 1;
          return Some(e);
        }
        ShutdownConn(e);
      }
      return None;
    }

    /** The end of createConn: a new entry enters both maps. */
    method Store(target: Target, conn: Handle) returns (c: CachedConn)
      modifies this`conns, this`index, this`created
      ensures fresh(c) && created == old(created) + {c}
      ensures View() == ConnCache.Store(old(View()), target, c, conn)
    {
      c := new CachedConn(target, conn);
      created := created + {c};
      conns := conns[target := c];
      index := index[conn := c];
      assert View().heap == old(View()).heap[c := Cell(target, conn, 1, 0)];
    }

    /** createConn; `dialed` is the handle grpc.DialContext returns if it is called. */
    method CreateConn(target: Target, dialed: Option<Handle>)
      returns (c: Option<CachedConn>, ghost cell: Option<(CachedConn, Handle)>)
      requires Valid()
      requires dialed.Some? ==>
                 dialed.value !in index && dialed.value !in shut && forall q :: q in created ==> q.conn != dialed.value
      modifies this, created
      ensures cell.Some? <==> dialed.Some? && janitorDone && !Hit(old(View()), target)
      ensures cell.Some? ==> fresh(cell.value.0) && cell.value.1 == dialed.value
      ensures (View(), c) == ConnCache.CreateConn(old(View()), target, cell)
      ensures fresh(created - old(created)) && Valid()
    {
      ghost var before := View();
      c, cell := None, None;
      hide CacheInv, Hit, Use, Evict, ConnCache.Store;
      if !janitorDone {
        return;
      }
      c := LoadConn(target);
      if c.Some? {
        HitKeepsInv(before, target);
        return;
      }
      EvictKeepsInv(before, target);
      if dialed.None? {
        return;
      }
      var e := Store(target, dialed.value);
      c, cell := Some(e), Some((e, dialed.value));
      CreateKeepsInv(before, target, cell);
    }

    /** What DialContext does under the lock once openConn failed. */
    method FailConn(c: CachedConn, now: int)
      requires Valid() && c in created
      modifies this`conns, this`index, this`shut, c
      ensures View() == ConnCache.FailConn(old(View()), c, now) && Valid()
    {
      FailKeepsInv(View(), c, now);
      SetClosed(c, now);
      RemoveConn(c);
    }

    method ReleaseConn(conn: Handle, now: int)
      requires Valid()
      modifies this`shut, this`janitorClosed, this`janitors, created
      ensures View() == ConnCache.ReleaseConn(old(View()), conn, now) && Valid()
    {
      ReleaseKeepsInv(View(), conn, now);
      if !janitorDone {
        if conn !in shut {
          shut := shut + {conn};
        }
        return;
      }
      if conn !in index {
        return;
      }
      SetClosed(index[conn], now);
      EnsureJanitorStarted();
    }

    /** One turn of the sweep loop. */
    method SweepEntry(conn: Handle, now: int)
      requires conn in index && index[conn] in created
      modifies this`conns, this`index, this`shut
      ensures View() == if ShouldSweep(old(View()), conn, now, idleTime)
                        then ConnCache.RemoveConn(old(View()), old(index)[conn]) else old(View())
    {
      var c := index[conn];
      if c.open == 0 && now > c.lastClose + idleTime {
        RemoveConn(c);
      } else if conn in shut {
        RemoveConn(c);
      }
    }

    /** The range loop over `index`, deleting from it as it goes, in any order. */
    method SweepAndRemove(now: int)
      requires Valid()
      modifies this`conns, this`index, this`shut
      ensures View() == Sweep(old(View()), now, idleTime) && Valid()
    {
      hide CacheInv, SweptBut, Sweep, ShouldSweep;
      ghost var before := View();
      SweepEnds(before, now, idleTime);
      var todo := index.Keys;
      while todo != {}
        invariant todo <= before.index.Keys
        invariant View() == SweptBut(before, todo, now, idleTime)
        decreases todo
      {
        var h :| h in todo;
        SweepTurn(before, todo, h, now, idleTime);
        SweepEntry(h, now);
        todo := todo - {h};
      }
    }

    /** The tail of Close that runs under the lock; flush is its loop. */
    method CloseAndFlush()
      requires Valid()
      modifies this`shut, this`janitorDone
      ensures View() == CloseLocked(old(View())) && Valid()
      ensures forall c :: c in created ==> c.conn in shut
    {
      hide CacheInv;
      ghost var before := View();
      var todo := index.Keys;
      while todo != {}
        invariant todo <= index.Keys && created == old(created)
        invariant shut == before.shut + (index.Keys - todo)
        decreases |todo|
      {
        var h :| h in todo;
        IndexEntry(before, h);
        shut := shut + {index[h].conn};
        todo := todo - {h};
      }
      janitorDone := false;
      assert shut == before.shut + before.index.Keys;
      CloseKeepsInv(before);
      forall c | c in created ensures c.conn in shut {
        assert before.heap[c].conn == c.conn && c in CloseLocked(before).heap;
      }
    }
  }

  /** A dialed connection handed to a client: it releases its handle at most once. */
  class GRPCConnection {
    const conn: Handle
    const manager: CachingConnector
    var done: bool

    constructor (manager: CachingConnector, conn: Handle)
      ensures this.manager == manager && this.conn == conn && !done
    {
      this.manager, this.conn, done := manager, conn, false;
    }

    method Close(now: int)
      requires manager.Valid()
      modifies this, manager`shut, manager`janitorClosed, manager`janitors, manager.created
      ensures done && manager.Valid()
      ensures manager.View() == if old(done) then old(manager.View())
                                else ConnCache.ReleaseConn(old(manager.View()), conn, now)
    {
      if done {
        return;
      }
      done := true;
      manager.ReleaseConn(conn, now);
    }
  }
}
