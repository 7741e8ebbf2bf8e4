/** The state guarded by the lock of the caching gRPC connector, and the effect
    on it of every section of code that runs while the lock is held.

    `Ref` stands for the address of a cachedConn, `Handle` for the address of a
    grpc.ClientConn.  The class in Connector.dfy is proved to compute exactly
    these functions; ConnProtocol.dfy lets them interleave. */
module ConnCache {
  import opened Options

  type Target = string
  type Handle = nat

  datatype Cell = Cell(target: Target, conn: Handle, open: nat, lastClose: int)

  /** `heap` holds every cachedConn ever made, reachable from the maps or not;
      `shut` the connections in state Shutdown; `tokens` the contents of the
      janitorClosed channel; `janitors` the janitors that took a token and
      still owe it; `closed` says that janitorDone is nil. */
  datatype Cache<Ref> = Cache(
    conns: map<Target, Ref>,
    index: map<Handle, Ref>,
    heap: map<Ref, Cell>,
    shut: set<Handle>,
    tokens: nat,
    janitors: nat,
    closed: bool)

  /** An address is fresh when no cell lives there and no cell holds it as its connection. */
  ghost predicate Fresh<Ref>(c: Cache<Ref>, r: Ref, h: Handle) {
    && r !in c.heap
    && h !in c.index
    && h !in c.shut
    && (forall q :: q in c.heap ==> c.heap[q].conn != h)
  }

  ghost predicate Indexed<Ref>(c: Cache<Ref>, r: Ref)
    requires r in c.heap
  {
    c.heap[r].conn in c.index && c.index[c.heap[r].conn] == r
  }

  /** What holds whenever the lock is free.  The third conjunct is the agreement
      of the two maps, the fifth says that no connection is ever lost. */
  ghost predicate CacheInv<Ref>(c: Cache<Ref>) {
    && (forall h :: h in c.index ==> c.index[h] in c.heap && c.heap[c.index[h]].conn == h)
    && (forall t :: t in c.conns ==> c.conns[t] in c.heap)
    && (forall t :: t in c.conns ==> c.heap[c.conns[t]].target == t && Indexed(c, c.conns[t]))
    && (forall r, q :: r in c.heap && q in c.heap && c.heap[r].conn == c.heap[q].conn ==> r == q)
    && (forall r :: r in c.heap ==> Indexed(c, r) || c.heap[r].conn in c.shut)
    && (c.closed ==> forall r :: r in c.heap ==> c.heap[r].conn in c.shut)
  }

  /** Both maps name the same entries. */
  ghost predicate FullInverse<Ref>(c: Cache<Ref>)
    requires CacheInv(c)
  {
    forall h :: h in c.index ==>
                  var t := c.heap[c.index[h]].target; t in c.conns && c.conns[t] == c.index[h]
  }

  // ---- the sections ----

  /** Once the channel is closed a receive always succeeds. */
  ghost function EnsureJanitor<Ref>(c: Cache<Ref>): Cache<Ref> {
    if c.closed then c.(janitors := c.janitors + 1)
    else if c.tokens > 0 then c.(tokens := c.tokens - 1, janitors := c.janitors + 1)
    else c
  }

  ghost function SetClosed<Ref>(c: Cache<Ref>, r: Ref, now: int): Cache<Ref>
    requires r in c.heap
  {
    var cell := c.heap[r];
    if cell.open > 0 then c.(heap := c.heap[r := cell.(open := cell.open - 1, lastClose := now)]) else c
  }

  ghost function RemoveConn<Ref>(c: Cache<Ref>, r: Ref): Cache<Ref>
    requires r in c.heap
  {
    var cell := c.heap[r];
    c.(index := c.index - {cell.conn}, conns := c.conns - {cell.target}, shut := c.shut + {cell.conn})
  }

  ghost function FailConn<Ref>(c: Cache<Ref>, r: Ref, now: int): Cache<Ref>
    requires r in c.heap
  {
    RemoveConn(SetClosed(c, r, now), r)
  }

  /** Forgetting an entry whose connection is shut down. */
  ghost function Forget<Ref>(c: Cache<Ref>, r: Ref): Cache<Ref>
    requires r in c.heap
  {
    c.(conns := c.conns - {c.heap[r].target}, index := c.index - {c.heap[r].conn})
  }

  ghost function ShutdownConn<Ref>(c: Cache<Ref>, r: Ref): Cache<Ref>
    requires r in c.heap
  {
    if c.closed then c
    else EnsureJanitor(Forget(c, r))
  }

  ghost predicate Hit<Ref>(c: Cache<Ref>, t: Target)
    requires CacheInv(c)
  {
    t in c.conns && c.heap[c.conns[t]].conn !in c.shut
  }

  /** The cache after loadConn handed out the entry of `t`. */
  ghost function Use<Ref>(c: Cache<Ref>, t: Target): Cache<Ref>
    requires CacheInv(c) && Hit(c, t)
  {
    var r := c.conns[t];
    c.(heap := c.heap[r := c.heap[r].(open := c.heap[r].open + 1)])
  }

  /** The cache after loadConn found no usable entry. */
  ghost function Evict<Ref>(c: Cache<Ref>, t: Target): Cache<Ref>
    requires CacheInv(c)
  {
    if t in c.conns then ShutdownConn(c, c.conns[t]) else c
  }

  /** The new entry enters both maps. */
  ghost function Store<Ref>(c: Cache<Ref>, t: Target, r: Ref, h: Handle): Cache<Ref> {
    c.(conns := c.conns[t := r], index := c.index[h := r], heap := c.heap[r := Cell(t, h, 1, 0)])
  }

  /** `dial` is what grpc.DialContext returned, with the address of the new cell. */
  ghost function CreateConn<Ref>(c: Cache<Ref>, t: Target, dial: Option<(Ref, Handle)>): (Cache<Ref>, Option<Ref>)
    requires CacheInv(c)
  {
    if c.closed then (c, None)
    else if Hit(c, t) then
      (Use(c, t), Some(c.conns[t]))
    else
      var e := Evict(c, t);
      match dial
      case None => (e, None)
      case Some((r, h)) =>
        (Store(e, t, r, h), Some(r))
  }

  ghost function ReleaseConn<Ref>(c: Cache<Ref>, h: Handle, now: int): Cache<Ref>
    requires CacheInv(c)
  {
    if c.closed then c.(shut := c.shut + {h})
    else if h !in c.index then c
    else EnsureJanitor(SetClosed(c, c.index[h], now))
  }

  ghost predicate ShouldSweep<Ref>(c: Cache<Ref>, h: Handle, now: int, idle: int)
    requires h in c.index && c.index[h] in c.heap
  {
    var cell := c.heap[c.index[h]];
    (cell.open == 0 && now > cell.lastClose + idle) || h in c.shut
  }

  ghost function Victims<Ref>(c: Cache<Ref>, now: int, idle: int): (hs: set<Handle>)
    requires CacheInv(c)
    ensures hs <= c.index.Keys
  {
    set h | h in c.index && ShouldSweep(c, h, now, idle)
  }

  ghost function Targets<Ref>(c: Cache<Ref>, hs: set<Handle>): set<Target>
    requires CacheInv(c) && hs <= c.index.Keys
  {
    set h | h in hs :: c.heap[c.index[h]].target
  }

  /** Removing the entries of `hs`, in whatever order. */
  ghost function RemoveAll<Ref>(c: Cache<Ref>, hs: set<Handle>): Cache<Ref>
    requires CacheInv(c) && hs <= c.index.Keys
  {
    c.(index := c.index - hs,
       conns := c.conns - Targets(c, hs),
       shut := c.shut + hs)
  }

  ghost function Sweep<Ref>(c: Cache<Ref>, now: int, idle: int): Cache<Ref>
    requires CacheInv(c)
  {
    RemoveAll(c, Victims(c, now, idle))
  }

  /** The locked tail of Close: flush, then drop the channels. */
  ghost function CloseLocked<Ref>(c: Cache<Ref>): Cache<Ref> {
    c.(shut := c.shut + c.index.Keys, closed := true)
  }

  // ---- every section keeps the invariant ----

  lemma SetClosedKeepsInv<Ref>(c: Cache<Ref>, r: Ref, now: int)
    requires CacheInv(c) && r in c.heap
    ensures CacheInv(SetClosed(c, r, now))
  {
  }

  lemma RemoveKeepsInv<Ref>(c: Cache<Ref>, r: Ref)
    requires CacheInv(c) && r in c.heap
    ensures CacheInv(RemoveConn(c, r))
  {
  }

  lemma FailKeepsInv<Ref>(c: Cache<Ref>, r: Ref, now: int)
    requires CacheInv(c) && r in c.heap
    ensures CacheInv(FailConn(c, r, now))
  {
    SetClosedKeepsInv(c, r, now);
    RemoveKeepsInv(SetClosed(c, r, now), r);
    hide CacheInv;
  }

  lemma ForgetKeepsInv<Ref>(c: Cache<Ref>, r: Ref)
    requires CacheInv(c) && r in c.heap && c.heap[r].conn in c.shut
    ensures CacheInv(Forget(c, r))
  {
  }

  lemma EvictKeepsInv<Ref>(c: Cache<Ref>, t: Target)
    requires CacheInv(c) && !c.closed && !Hit(c, t)
    ensures CacheInv(Evict(c, t)) && t !in Evict(c, t).conns
    ensures Evict(c, t).heap == c.heap && Evict(c, t).shut == c.shut && !Evict(c, t).closed
    ensures Evict(c, t).index.Keys <= c.index.Keys
  {
    if t in c.conns { ForgetKeepsInv(c, c.conns[t]); }
  }

  lemma StoreKeepsInv<Ref>(c: Cache<Ref>, t: Target, r: Ref, h: Handle)
    requires CacheInv(c) && !c.closed && Fresh(c, r, h)
    ensures CacheInv(Store(c, t, r, h))
  {
  }

  lemma HitKeepsInv<Ref>(c: Cache<Ref>, t: Target)
    requires CacheInv(c) && Hit(c, t)
    ensures CacheInv(Use(c, t))
  {
  }

  lemma CreateKeepsInv<Ref>(c: Cache<Ref>, t: Target, dial: Option<(Ref, Handle)>)
    requires CacheInv(c)
    requires dial.Some? ==> Fresh(c, dial.value.0, dial.value.1)
    ensures CacheInv(CreateConn(c, t, dial).0)
    ensures var (d, got) := CreateConn(c, t, dial);
            got.Some? ==> got.value in d.heap && Indexed(d, got.value) && d.heap[got.value].target == t
                          && d.heap[got.value].open > 0 && d.heap[got.value].conn !in d.shut
  {
    if c.closed {
    } else if Hit(c, t) {
      HitKeepsInv(c, t);
    } else {
      EvictKeepsInv(c, t);
      if dial.Some? {
        StoreKeepsInv(Evict(c, t), t, dial.value.0, dial.value.1);
      }
    }
  }

  /** createConn counts one more use of the entry it hands out and touches no other. */
  lemma CreateEffect<Ref>(c: Cache<Ref>, t: Target, dial: Option<(Ref, Handle)>)
    requires CacheInv(c)
    requires dial.Some? ==> Fresh(c, dial.value.0, dial.value.1)
    ensures var (d, got) := CreateConn(c, t, dial);
            && d.closed == c.closed && d.tokens + d.janitors == c.tokens + c.janitors && d.janitors >= c.janitors
            && (c.closed ==> got.None?)
            && (got.None? ==> d.heap == c.heap)
            && (got.Some? ==> got.value in d.heap && d.heap.Keys == c.heap.Keys + {got.value}
                              && d.heap[got.value].open
                                 == (if got.value in c.heap then c.heap[got.value].open else 0) + 1
                              && (got.value in c.heap ==>
                                    && Indexed(c, got.value)
                                    && d.heap[got.value].lastClose == c.heap[got.value].lastClose))
            && (forall q :: q in c.heap ==> q in d.heap)
            && (forall q :: q in c.heap && got != Some(q) ==> d.heap[q] == c.heap[q])
            && (forall q :: q in c.heap && Indexed(d, q) ==> Indexed(c, q))
  {
    if !c.closed && !Hit(c, t) {
      EvictKeepsInv(c, t);
    }
  }

  /** Giving an entry back changes no other entry. */
  lemma ReleaseEffect<Ref>(c: Cache<Ref>, r: Ref, now: int)
    requires CacheInv(c) && r in c.heap
    ensures var d := ReleaseConn(c, c.heap[r].conn, now);
            && d.closed == c.closed && (!c.closed ==> d.tokens + d.janitors == c.tokens + c.janitors)
            && d.janitors >= c.janitors
            && d.heap.Keys == c.heap.Keys && d.index == c.index
            && (forall q :: q in c.heap ==> d.heap[q].conn == c.heap[q].conn)
            && (forall q :: q in c.heap && q != r ==> d.heap[q] == c.heap[q])
            && (c.closed || !Indexed(c, r) || c.heap[r].open == 0 ==> d.heap == c.heap)
            && (!c.closed && Indexed(c, r) && c.heap[r].open > 0 ==>
                  d.heap[r].open == c.heap[r].open - 1 && d.heap[r].lastClose == now)
  {
    var h := c.heap[r].conn;
    assert h in c.index ==> c.index[h] == r;
  }

  lemma ReleaseKeepsInv<Ref>(c: Cache<Ref>, h: Handle, now: int)
    requires CacheInv(c)
    ensures CacheInv(ReleaseConn(c, h, now))
  {
    if !c.closed && h in c.index { SetClosedKeepsInv(c, c.index[h], now); }
  }

  lemma RemoveAllKeepsInv<Ref>(c: Cache<Ref>, hs: set<Handle>)
    requires CacheInv(c) && hs <= c.index.Keys
    ensures CacheInv(RemoveAll(c, hs))
  {
    var d := RemoveAll(c, hs);
    forall t | t in d.conns
      ensures Indexed(d, d.conns[t])
    {
      var h := c.heap[c.conns[t]].conn;
      assert c.index[h] == c.conns[t];
    }
  }

  lemma CloseKeepsInv<Ref>(c: Cache<Ref>)
    requires CacheInv(c)
    ensures CacheInv(CloseLocked(c))
    ensures forall r :: r in c.heap ==> c.heap[r].conn in CloseLocked(c).shut
  {
  }

  /** The cache when a sweep has yet to look at `todo`. */
  ghost function SweptBut<Ref>(c: Cache<Ref>, todo: set<Handle>, now: int, idle: int): Cache<Ref>
    requires CacheInv(c)
  {
    RemoveAll(c, Victims(c, now, idle) - todo)
  }

  lemma TargetsOneMore<Ref>(c: Cache<Ref>, hs: set<Handle>, h: Handle)
    requires CacheInv(c) && hs <= c.index.Keys && h in c.index
    ensures Targets(c, hs + {h}) == Targets(c, hs) + {c.heap[c.index[h]].target}
  {
    hide CacheInv;
  }

  lemma RemoveOneMore<Ref>(c: Cache<Ref>, hs: set<Handle>, h: Handle)
    requires CacheInv(c) && hs <= c.index.Keys && h in c.index && h !in hs
    ensures var d := RemoveAll(c, hs);
            && h in d.index && d.index[h] == c.index[h] && d.heap == c.heap && d.index[h] in d.heap
            && (h in d.shut <==> h in c.shut)
            && RemoveConn(d, c.index[h]) == RemoveAll(c, hs + {h})
  {
    IndexEntry(c, h);
    TargetsOneMore(c, hs, h);
    hide CacheInv, Targets;
    var t := c.heap[c.index[h]].target;
    assert c.index - hs - {h} == c.index - (hs + {h});
    assert c.conns - Targets(c, hs) - {t} == c.conns - (Targets(c, hs) + {t});
    assert c.shut + hs + {h} == c.shut + (hs + {h});
  }

  /** Sweeping is independent of order: removing other entries neither changes
      whether `h` should go nor what its removal does. */
  lemma SweepTurn<Ref>(c: Cache<Ref>, todo: set<Handle>, h: Handle, now: int, idle: int)
    requires CacheInv(c) && todo <= c.index.Keys && h in todo
    ensures var d := SweptBut(c, todo, now, idle);
            && h in d.index && d.index[h] in d.heap
            && SweptBut(c, todo - {h}, now, idle)
               == if ShouldSweep(d, h, now, idle) then RemoveConn(d, d.index[h]) else d
  {
    hide CacheInv, RemoveAll, RemoveConn;
    var gone := Victims(c, now, idle) - todo;
    RemoveOneMore(c, gone, h);
    assert Victims(c, now, idle) - (todo - {h}) == if h in Victims(c, now, idle) then gone + {h} else gone;
  }

  lemma SweepEnds<Ref>(c: Cache<Ref>, now: int, idle: int)
    requires CacheInv(c)
    ensures SweptBut(c, c.index.Keys, now, idle) == c
    ensures SweptBut(c, {}, now, idle) == Sweep(c, now, idle) && CacheInv(Sweep(c, now, idle))
  {
    assert Victims(c, now, idle) - {} == Victims(c, now, idle);
    RemoveAllKeepsInv(c, Victims(c, now, idle));
  }

  lemma IndexEntry<Ref>(c: Cache<Ref>, h: Handle)
    requires CacheInv(c) && h in c.index
    ensures c.index[h] in c.heap && c.heap[c.index[h]].conn == h
  {
  }

  /** A sweep is safe and complete. */
  lemma SweepSafeAndComplete<Ref>(c: Cache<Ref>, now: int, idle: int)
    requires CacheInv(c)
    ensures var d := Sweep(c, now, idle);
            && (forall h :: h in d.shut && h !in c.shut ==>
                    h in c.index && c.heap[c.index[h]].open == 0 && c.heap[c.index[h]].lastClose + idle < now)
            && (forall h :: h in d.index ==>
                    h !in d.shut && d.index[h] == c.index[h]
                    && (c.heap[d.index[h]].open > 0 || now <= c.heap[d.index[h]].lastClose + idle))
            && (forall h :: h in c.index && h !in d.index ==> h in d.shut)
            && d.heap == c.heap
  {
  }

  // ---- when the maps are full inverses ----

  /** The entry a failing dial is about to remove has been replaced for its target. */
  ghost predicate Replaced<Ref>(c: Cache<Ref>, r: Ref)
    requires r in c.heap
  {
    c.heap[r].target in c.conns && c.conns[c.heap[r].target] != r
  }

  lemma FailInverse<Ref>(c: Cache<Ref>, r: Ref, now: int)
    requires CacheInv(c) && r in c.heap && FullInverse(c)
    ensures CacheInv(FailConn(c, r, now))
    ensures FullInverse(FailConn(c, r, now)) <==> !Replaced(c, r)
  {
    FailKeepsInv(c, r, now);
    var d := FailConn(c, r, now);
    if Replaced(c, r) {
      var other := c.conns[c.heap[r].target];
      assert c.heap[other].conn in d.index;
    }
  }

  lemma EvictInverse<Ref>(c: Cache<Ref>, t: Target)
    requires CacheInv(c) && FullInverse(c) && !c.closed && !Hit(c, t)
    ensures CacheInv(Evict(c, t)) && FullInverse(Evict(c, t))
  {
    EvictKeepsInv(c, t);
  }

  lemma StoreInverse<Ref>(c: Cache<Ref>, t: Target, r: Ref, h: Handle)
    requires CacheInv(c) && FullInverse(c) && !c.closed && Fresh(c, r, h) && t !in c.conns
    ensures CacheInv(Store(c, t, r, h)) && FullInverse(Store(c, t, r, h))
  {
    StoreKeepsInv(c, t, r, h);
  }

  lemma CreateInverse<Ref>(c: Cache<Ref>, t: Target, dial: Option<(Ref, Handle)>)
    requires CacheInv(c) && FullInverse(c)
    requires dial.Some? ==> Fresh(c, dial.value.0, dial.value.1)
    ensures CacheInv(CreateConn(c, t, dial).0) && FullInverse(CreateConn(c, t, dial).0)
  {
    if c.closed {
    } else if Hit(c, t) {
      HitKeepsInv(c, t);
    } else {
      EvictKeepsInv(c, t);
      EvictInverse(c, t);
      if dial.Some? { StoreInverse(Evict(c, t), t, dial.value.0, dial.value.1); }
    }
  }

  lemma SweepInverse<Ref>(c: Cache<Ref>, now: int, idle: int)
    requires CacheInv(c) && FullInverse(c)
    ensures CacheInv(Sweep(c, now, idle)) && FullInverse(Sweep(c, now, idle))
  {
    RemoveAllKeepsInv(c, Victims(c, now, idle));
  }
}
