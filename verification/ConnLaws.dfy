/** What each locked section of the connector does, told without the functions
    that compute it: when a dial is handed a connection and which one, and what a
    failure, a release, a sweep and Close change and leave alone. */
module ConnLaws {
  import opened Options
  import opened ConnCache
  import opened ConnProtocol

  /** `d` has the entries of `c` but for target `t`, and `h` in the index. */
  ghost predicate SameBut<Ref>(c: Cache<Ref>, d: Cache<Ref>, t: Target, h: Option<Handle>) {
    && (forall u :: u != t ==> (u in d.conns <==> u in c.conns))
    && (forall u :: u != t && u in c.conns ==> d.conns[u] == c.conns[u])
    && (forall k :: h != Some(k) ==> (k in d.index <==> k in c.index))
    && (forall k :: h != Some(k) && k in c.index ==> d.index[k] == c.index[k])
  }

  /** A dial gets a connection exactly when the connector is open and has a live
      one for the target, or dialling succeeds. */
  lemma CreateExactly<Ref>(c: Cache<Ref>, t: Target, dial: Option<(Ref, Handle)>)
    requires CacheInv(c) && (dial.Some? ==> Fresh(c, dial.value.0, dial.value.1))
    ensures var got := CreateConn(c, t, dial).1;
            var live := t in c.conns && c.heap[c.conns[t]].conn !in c.shut;
            && (got.Some? <==> !c.closed && (live || dial.Some?))
            && (!c.closed && live ==> got == Some(c.conns[t]))
            && (!c.closed && !live && dial.Some? ==> got == Some(dial.value.0))
  {
  }

  /** A live entry of the target is used again: nothing changes but its count. */
  lemma CreateFinds<Ref>(c: Cache<Ref>, t: Target, dial: Option<(Ref, Handle)>)
    requires CacheInv(c) && !c.closed && t in c.conns && c.heap[c.conns[t]].conn !in c.shut
    ensures var (d, r) := (CreateConn(c, t, dial).0, c.conns[t]);
            && d.conns == c.conns && d.index == c.index && d.shut == c.shut
            && d.tokens == c.tokens && d.janitors == c.janitors
            && d.heap == c.heap[r := Cell(c.heap[r].target, c.heap[r].conn, c.heap[r].open + 1, c.heap[r].lastClose)]
  {
  }

  /** Otherwise a new entry with one use is stored for the target and its
      connection; a dead entry of the target is forgotten, which wakes a janitor. */
  lemma CreateStores<Ref>(c: Cache<Ref>, t: Target, r: Ref, h: Handle)
    requires CacheInv(c) && !c.closed && Fresh(c, r, h)
    requires t in c.conns ==> c.heap[c.conns[t]].conn in c.shut
    ensures var d := CreateConn(c, t, Some((r, h))).0;
            && d.conns == c.conns[t := r] && h in d.index && d.index[h] == r
            && r in d.heap && d.heap[r] == Cell(t, h, 1, 0) && d.shut == c.shut
            && (t !in c.conns ==> SameBut(c, d, t, Some(h)) && d.tokens == c.tokens && d.janitors == c.janitors)
            && (t in c.conns ==>
                  var dead := c.heap[c.conns[t]].conn;
                  && dead !in d.index && dead != h
                  && (forall k :: k != h && k != dead ==> (k in d.index <==> k in c.index))
                  && (c.tokens > 0 ==> d.janitors == c.janitors + 1))
  {
  }

  /** When dialling fails nothing is stored; only a dead entry is forgotten. */
  lemma CreateFails<Ref>(c: Cache<Ref>, t: Target)
    requires CacheInv(c) && !c.closed && (t in c.conns ==> c.heap[c.conns[t]].conn in c.shut)
    ensures var (d, got) := CreateConn(c, t, None);
            && got.None? && t !in d.conns && d.heap == c.heap && d.shut == c.shut
            && (t !in c.conns ==> d == c)
            && (t in c.conns ==> c.heap[c.conns[t]].conn !in d.index && SameBut(c, d, t, Some(c.heap[c.conns[t]].conn)))
  {
  }

  /** A failed dial shuts its connection down, takes connection and target out of
      the maps, and counts one use less of its own entry. */
  lemma FailExactly<Ref>(c: Cache<Ref>, r: Ref, now: int)
    requires CacheInv(c) && r in c.heap
    ensures var (d, cell) := (FailConn(c, r, now), c.heap[r]);
            && cell.conn in d.shut && cell.conn !in d.index && cell.target !in d.conns
            && (forall h :: h != cell.conn ==> (h in d.shut <==> h in c.shut))
            && SameBut(c, d, cell.target, Some(cell.conn))
            && d.tokens == c.tokens && d.janitors == c.janitors && d.closed == c.closed
            && d.heap.Keys == c.heap.Keys
            && (forall q :: q in c.heap && q != r ==> d.heap[q] == c.heap[q])
            && (cell.open > 0 ==> d.heap[r] == Cell(cell.target, cell.conn, cell.open - 1, now))
            && (cell.open == 0 ==> d.heap[r] == cell)
  {
  }

  /** A release of an indexed connection lowers its count, stamps it and wakes a
      janitor if none is running; it takes nothing out of the cache. */
  lemma ReleaseExactly<Ref>(c: Cache<Ref>, h: Handle, now: int)
    requires CacheInv(c)
    ensures var d := ReleaseConn(c, h, now);
            && d.conns == c.conns && d.index == c.index && d.closed == c.closed
            && (c.closed ==> d.heap == c.heap && h in d.shut && forall k :: k != h ==> (k in d.shut <==> k in c.shut))
            && (!c.closed ==> d.shut == c.shut)
            && (!c.closed && h !in c.index ==> d == c)
            && (!c.closed && h in c.index ==>
                  && (c.tokens > 0 ==> d.tokens == c.tokens - 1 && d.janitors == c.janitors + 1)
                  && (c.tokens == 0 ==> d.tokens == 0 && d.janitors == c.janitors)
                  && var (r, cell) := (c.index[h], c.heap[c.index[h]]);
                     cell.open > 0 ==> d.heap == c.heap[r := Cell(cell.target, cell.conn, cell.open - 1, now)])
  {
  }

  /** A sweep only takes out the entries of the connections it shuts down, each
      with its target, and touches neither counts nor janitors. */
  lemma SweepLeaves<Ref>(c: Cache<Ref>, now: int, idle: int)
    requires CacheInv(c)
    ensures var d := Sweep(c, now, idle);
            && d.tokens == c.tokens && d.janitors == c.janitors && d.closed == c.closed
            && (forall h :: h in c.shut ==> h in d.shut)
            && (forall t :: t in d.conns <==>
                  t in c.conns && forall h :: h in c.index && h !in d.index ==> c.heap[c.index[h]].target != t)
            && (forall t :: t in d.conns ==> d.conns[t] == c.conns[t])
  {
    var d := Sweep(c, now, idle);
    var gone := Victims(c, now, idle);
    forall t | t in c.conns && t !in d.conns
      ensures exists h :: h in c.index && h !in d.index && c.heap[c.index[h]].target == t
    {
      var h :| h in gone && c.heap[c.index[h]].target == t;
    }
    forall h | h in c.index && h !in d.index ensures c.heap[c.index[h]].target !in d.conns {
      assert h in gone;
    }
  }

  /** Close shuts down exactly what is cached, besides what is shut down already. */
  lemma CloseExactly<Ref>(c: Cache<Ref>)
    requires CacheInv(c)
    ensures var d := CloseLocked(c);
            && d.closed && d.heap == c.heap
            && (forall h :: h in d.shut <==> h in c.shut || h in c.index)
  {
  }

  /** A closed connector hands out nothing and changes nothing when asked to dial. */
  lemma ClosedRefuses<Ref>(c: Cache<Ref>, t: Target, dial: Option<(Ref, Handle)>)
    requires CacheInv(c) && c.closed
    ensures CreateConn(c, t, dial) == (c, None)
  {
  }

  /** After a sweep in any run every cached connection is open, and in use or given
      back no longer than the idle time ago. */
  lemma SweepTakesAllIdle<Ref>(states: seq<State<Ref>>, acts: seq<Action<Ref>>, i: nat, r: Ref)
    requires IsRun(states, acts) && i < |acts| && acts[i].Tick? && !states[i].cache.closed
    requires r in states[i + 1].cache.heap && Indexed(states[i + 1].cache, r)
    ensures states[i + 1].cache.heap[r].conn !in states[i + 1].cache.shut
    ensures Holders(states[i + 1].dials, r) != {}
            || (r in states[i].lastRelease && acts[i].now <= states[i].lastRelease[r] + acts[i].idle)
  {
    RunInv(states, acts, i);
    RunInv(states, acts, i + 1);
    SweepSafeAndComplete(states[i].cache, acts[i].now, acts[i].idle);
    assert states[i + 1] == Next(states[i], acts[i]);
    assert Indexed(states[i].cache, r);
    if Holders(states[i + 1].dials, r) == {} {
      assert states[i + 1].cache.heap[r].open == 0;
    }
  }

  /** From every state of every run Close can be carried through, and then every
      connection ever made is shut down. */
  lemma CloseCompletes<Ref>(states: seq<State<Ref>>, acts: seq<Action<Ref>>, i: nat)
    requires IsRun(states, acts) && i < |states| && !states[i].cache.closed
    ensures WellFormed(states[i]) && Enabled(states[i], CloseBegin)
    ensures var s := Next(states[i], CloseBegin);
            && WellFormed(s) && Enabled(s, CloseFlush) && s.closing && !s.cache.closed
            && AllShut(Next(s, CloseFlush))
            && Next(s, CloseFlush).cache.heap == states[i].cache.heap
  {
    RunInv(states, acts, i);
  }
}
