/** Three concrete runs of the caching connector, each ending in a state that a
    reader of the code might believe impossible. */
module ConnExamples {
  import opened Options
  import opened ConnCache
  import opened ConnProtocol

  type S = State<nat>

  /** Step `a` leads from `s` to `t`. */
  ghost predicate Leads(s: S, a: Action<nat>, t: S) {
    WellFormed(s) ==> Enabled(s, a) && Next(s, a) == t
  }

  lemma Extend(states: seq<S>, acts: seq<Action<nat>>, a: Action<nat>, s: S)
    requires IsRun(states, acts) && Leads(states[|acts|], a, s)
    ensures IsRun(states + [s], acts + [a])
  {
    hide Next, Enabled, WellFormed;
    RunIsWellFormed(states, acts, |acts|);
  }

  lemma RunIsWellFormed(states: seq<S>, acts: seq<Action<nat>>, i: nat)
    requires IsRun(states, acts) && i < |states|
    ensures WellFormed(states[i])
  {
    RunInv(states, acts, i);
  }

  lemma {:induction false} ScriptIsRun(states: seq<S>, acts: seq<Action<nat>>, n: nat)
    requires n <= |acts| && |states| == |acts| + 1 && states[0] == Init()
    requires forall i :: 0 <= i < |acts| ==> Leads(states[i], acts[i], states[i + 1])
    ensures IsRun(states[..n + 1], acts[..n])
  {
    if n > 0 {
      ScriptIsRun(states, acts, n - 1);
      Extend(states[..n], acts[..n - 1], acts[n - 1], states[n]);
      assert states[..n + 1] == states[..n] + [states[n]] && acts[..n] == acts[..n - 1] + [acts[n - 1]];
    }
  }

  // ---- a failing dial whose entry was replaced ----

  ghost function StaleActs(): seq<Action<nat>> {
    [Create(0, "a", Some((0, 100))), OutsideShutdown(0), Create(1, "a", Some((1, 101))), Fail(0, 5)]
  }

  ghost function StaleState(i: nat): S
    requires i <= 4
  {
    var c0, c1 := Cell("a", 100, 1, 0), Cell("a", 101, 1, 0);
    var d0, d1 := Dial(0, Opening), Dial(1, Opening);
    if i == 0 then Init()
    else if i == 1 then
      State(Cache(map["a" := 0], map[100 := 0], map[0 := c0], {}, 1, 0, false), map[0 := d0], 0, false, map[])
    else if i == 2 then
      State(Cache(map["a" := 0], map[100 := 0], map[0 := c0], {100}, 1, 0, false), map[0 := d0], 0, false, map[])
    else if i == 3 then
      State(Cache(map["a" := 1], map[101 := 1], map[0 := c0, 1 := c1], {100}, 0, 1, false),
            map[0 := d0, 1 := d1], 0, false, map[])
    else
      State(Cache(map[], map[101 := 1], map[0 := Cell("a", 100, 0, 5), 1 := c1], {100}, 0, 1, false),
            map[1 := d1], 0, false, map[0 := 5])
  }

  lemma StaleStep0() ensures Leads(StaleState(0), StaleActs()[0], StaleState(1)) { hide CacheInv; }
  lemma StaleStep1() ensures Leads(StaleState(1), StaleActs()[1], StaleState(2)) { hide CacheInv; }
  lemma StaleStep2() ensures Leads(StaleState(2), StaleActs()[2], StaleState(3)) { hide CacheInv; }
  lemma StaleFail()
    ensures FailConn(StaleState(3).cache, 0, 5) == StaleState(4).cache
  {
    var c, d := StaleState(3).cache, StaleState(4).cache;
    assert SetClosed(c, 0, 5) == c.(heap := d.heap);
  }

  lemma StaleStep3() ensures Leads(StaleState(3), StaleActs()[3], StaleState(4))
  {
    StaleFail();
    hide CacheInv, FailConn;
    assert StaleState(3).dials - {0} == StaleState(4).dials;
  }

  lemma StaleStep(i: nat)
    requires i < 4
    ensures Leads(StaleState(i), StaleActs()[i], StaleState(i + 1))
  {
    hide *;
    match i
    case 0 => StaleStep0();
    case 1 => StaleStep1();
    case 2 => StaleStep2();
    case _ => StaleStep3();
  }

  lemma StaleIsRun()
    ensures IsRun(seq(5, i requires 0 <= i < 5 => StaleState(i)), StaleActs())
  {
    hide Leads, IsRun;
    var acts := StaleActs();
    var states := seq(5, i requires 0 <= i < 5 => StaleState(i));
    forall i | 0 <= i < 4 ensures Leads(states[i], acts[i], states[i + 1]) { StaleStep(i); }
    ScriptIsRun(states, acts, 4);
    assert states[..5] == states && acts[..4] == acts;
  }

  /** A dial that fails late takes the entry of a second dial out of `conns`
      while it stays in `index`. */
  lemma StaleFailureSplitsMaps() returns (states: seq<S>, acts: seq<Action<nat>>)
    ensures IsRun(states, acts) && |acts| == 4 && ReplacedAt(states[3], acts[3])
    ensures states[4].cache.conns == map[] && states[4].cache.index == map[101 := 1]
    ensures !InverseAt(states[4])
  {
    acts := StaleActs();
    states := seq(5, i requires 0 <= i < 5 => StaleState(i));
    StaleIsRun();
    RunIsWellFormed(states, acts, 3);
    StaleFacts();
  }

  lemma StaleFacts()
    requires WellFormed(StaleState(3))
    ensures ReplacedAt(StaleState(3), StaleActs()[3]) && !InverseAt(StaleState(4))
  {
    assert 101 in StaleState(4).cache.index;
  }

  // ---- a dial that completes while the janitor exits ----

  ghost function MissActs(): seq<Action<nat>> {
    [Create(0, "a", Some((0, 100))), ObserveReady(0), FinishOpen(0), Release(0, 1), Tick(9, 5),
     Create(1, "a", Some((1, 101))), ObserveReady(1), FinishOpen(1), Release(1, 10), JanitorExit]
  }

  ghost function MissState(i: nat): S
    requires i <= 10
  {
    var c0, c1 := Cell("a", 100, 1, 0), Cell("a", 101, 1, 0);
    var old0 := Cell("a", 100, 0, 1);
    if i == 0 then Init()
    else if i < 4 then
      State(Cache(map["a" := 0], map[100 := 0], map[0 := c0], {},
                  if i < 3 then 1 else 0, if i < 3 then 0 else 1, false),
            map[0 := Dial(0, if i == 1 then Opening else if i == 2 then Ready else Held)], 0, false, map[])
    else if i == 4 then
      State(Cache(map["a" := 0], map[100 := 0], map[0 := old0], {}, 0, 1, false), map[], 0, false, map[0 := 1])
    else if i == 5 then
      State(Cache(map[], map[], map[0 := old0], {100}, 0, 1, false), map[], 1, false, map[0 := 1])
    else if i < 9 then
      State(Cache(map["a" := 1], map[101 := 1], map[0 := old0, 1 := c1], {100}, 0, 1, false),
            map[1 := Dial(1, if i == 6 then Opening else if i == 7 then Ready else Held)], 1, false, map[0 := 1])
    else
      State(Cache(map["a" := 1], map[101 := 1], map[0 := old0, 1 := Cell("a", 101, 0, 10)], {100},
                  i - 9, 10 - i, false),
            map[], 10 - i, false, map[0 := 1, 1 := 10])
  }

  lemma MissStep0() ensures Leads(MissState(0), MissActs()[0], MissState(1)) { hide CacheInv; }
  lemma MissStep1() ensures Leads(MissState(1), MissActs()[1], MissState(2)) { hide CacheInv; }
  lemma MissStep2() ensures Leads(MissState(2), MissActs()[2], MissState(3)) { hide CacheInv; }
  lemma MissStep3() ensures Leads(MissState(3), MissActs()[3], MissState(4)) { hide CacheInv; }
  lemma MissStep4() ensures Leads(MissState(4), MissActs()[4], MissState(5))
  {
    hide CacheInv;
    if WellFormed(MissState(4)) { assert Victims(MissState(4).cache, 9, 5) == {100}; }
  }
  lemma MissStep5() ensures Leads(MissState(5), MissActs()[5], MissState(6)) { hide CacheInv; }
  lemma MissStep6() ensures Leads(MissState(6), MissActs()[6], MissState(7)) { hide CacheInv; }
  lemma MissStep7() ensures Leads(MissState(7), MissActs()[7], MissState(8)) { hide CacheInv; }
  lemma MissStep8() ensures Leads(MissState(8), MissActs()[8], MissState(9)) { hide CacheInv; }
  lemma MissStep9() ensures Leads(MissState(9), MissActs()[9], MissState(10)) { hide CacheInv; }

  lemma MissStep(i: nat)
    requires i < 10
    ensures Leads(MissState(i), MissActs()[i], MissState(i + 1))
  {
    hide *;
    match i
    case 0 => MissStep0();
    case 1 => MissStep1();
    case 2 => MissStep2();
    case 3 => MissStep3();
    case 4 => MissStep4();
    case 5 => MissStep5();
    case 6 => MissStep6();
    case 7 => MissStep7();
    case 8 => MissStep8();
    case _ => MissStep9();
  }

  lemma MissIsRun()
    ensures IsRun(seq(11, i requires 0 <= i < 11 => MissState(i)), MissActs())
  {
    hide Leads, IsRun;
    var acts := MissActs();
    var states := seq(11, i requires 0 <= i < 11 => MissState(i));
    forall i | 0 <= i < 10 ensures Leads(states[i], acts[i], states[i + 1]) { MissStep(i); }
    ScriptIsRun(states, acts, 10);
    assert states[..11] == states && acts[..10] == acts;
  }

  /** A run that ends with one idle cached connection, no dial in flight and no
      janitor: nothing will sweep it until the next dial or release. */
  lemma IdleConnectionWithoutJanitor() returns (states: seq<S>, acts: seq<Action<nat>>)
    ensures IsRun(states, acts) && |acts| == 10
    ensures var s := states[10];
            && !s.closing && s.dials == map[] && s.cache.janitors == 0 && s.cache.index == map[101 := 1]
            && 1 in s.cache.heap && s.cache.heap[1].open == 0
            && !IdleWatched(s) && !Watched(s) && ReleasedUnseen(states[8], acts[8]) && Missed(states[7], acts[7])
  {
    acts := MissActs();
    states := seq(11, i requires 0 <= i < 11 => MissState(i));
    MissIsRun();
    MissFacts();
  }

  lemma MissFacts()
    ensures !Watched(MissState(10)) && !IdleWatched(MissState(10))
    ensures ReleasedUnseen(MissState(8), MissActs()[8]) && Missed(MissState(7), MissActs()[7])
  {
    assert Indexed(MissState(10).cache, 1);
  }

  // ---- a failing dial that is not alone ----

  ghost function SharedActs(): seq<Action<nat>> {
    [Create(0, "a", Some((0, 100))), Create(1, "a", None), Fail(0, 5)]
  }

  ghost function SharedState(i: nat): S
    requires i <= 3
  {
    var d0, d1 := Dial(0, Opening), Dial(0, Opening);
    if i == 0 then Init()
    else if i == 1 then
      State(Cache(map["a" := 0], map[100 := 0], map[0 := Cell("a", 100, 1, 0)], {}, 1, 0, false),
            map[0 := d0], 0, false, map[])
    else if i == 2 then
      State(Cache(map["a" := 0], map[100 := 0], map[0 := Cell("a", 100, 2, 0)], {}, 1, 0, false),
            map[0 := d0, 1 := d1], 0, false, map[])
    else
      State(Cache(map[], map[], map[0 := Cell("a", 100, 1, 5)], {100}, 1, 0, false),
            map[1 := d1], 0, false, map[0 := 5])
  }

  lemma SharedStep0() ensures Leads(SharedState(0), SharedActs()[0], SharedState(1)) { hide CacheInv; }
  lemma SharedStep1() ensures Leads(SharedState(1), SharedActs()[1], SharedState(2)) { hide CacheInv; }
  lemma SharedStep2() ensures Leads(SharedState(2), SharedActs()[2], SharedState(3)) { hide CacheInv; }

  lemma SharedStep(i: nat)
    requires i < 3
    ensures Leads(SharedState(i), SharedActs()[i], SharedState(i + 1))
  {
    hide *;
    match i
    case 0 => SharedStep0();
    case 1 => SharedStep1();
    case _ => SharedStep2();
  }

  /** Two dials share a connection; the first one fails and shuts it down, while
      the second still holds the entry, which is in neither map. */
  lemma FailureCutsOtherDial() returns (states: seq<S>, acts: seq<Action<nat>>)
    ensures IsRun(states, acts) && |acts| == 3 && acts[2] == Fail(0, 5)
    ensures InUse(states[2], 1, 0) && states[2].cache.heap[0].open == 2
    ensures 1 in states[3].dials && states[3].dials[1].ref == 0 && states[3].cache.shut == {100}
    ensures !InUse(states[3], 1, 0)
  {
    hide Leads, IsRun;
    acts := SharedActs();
    states := seq(4, i requires 0 <= i < 4 => SharedState(i));
    forall i | 0 <= i < 3 ensures Leads(states[i], acts[i], states[i + 1]) { SharedStep(i); }
    ScriptIsRun(states, acts, 3);
    assert states[..4] == states && acts[..3] == acts;
  }
}
