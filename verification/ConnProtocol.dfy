/** Every interleaving of dials, releases, sweeps, janitors, outside shutdowns
    and Close over one caching connector.

    A step is one section run under the lock, or one unlocked action on shared
    state; a run is any sequence of enabled steps. */
module ConnProtocol {
  import opened Options
  import opened ConnCache

  /** A dial between obtaining its entry and giving it back: waiting for the
      connection, found it ready, or returned to its caller. */
  datatype Phase = Opening | Ready | Held
  datatype Dial<Ref> = Dial(ref: Ref, phase: Phase)

  /** `exiting` counts janitors that left their loop and are about to send on
      janitorClosed; `closing` says that some Close call passed its first
      check.  `lastRelease` is history: when a dial last gave the entry back. */
  datatype State<Ref> = State(
    cache: Cache<Ref>,
    dials: map<nat, Dial<Ref>>,
    exiting: nat,
    closing: bool,
    lastRelease: map<Ref, int>)

  datatype Action<Ref> =
    | Create(d: nat, target: Target, dialed: Option<(Ref, Handle)>)
    | ObserveReady(d: nat)
    | FinishOpen(d: nat)
    | Fail(d: nat, now: int)
    | Release(d: nat, now: int)
    | Tick(now: int, idle: int)
    | JanitorExit
    | OutsideShutdown(ref: Ref)
    | CloseBegin
    | CloseFlush
    // From CloseBegin on, nothing is assumed about the janitor bookkeeping.
    | JanitorsWhileClosing(tokens: nat, janitors: nat, exiting: nat)

  ghost function Init<Ref>(): State<Ref> {
    State(Cache(map[], map[], map[], {}, 1, 0, false), map[], 0, false, map[])
  }

  ghost predicate InPhase<Ref>(s: State<Ref>, d: nat, p: Phase) {
    d in s.dials && s.dials[d].phase == p
  }

  /** Every dial in flight has a cell, and the locked part keeps its invariant. */
  ghost predicate WellFormed<Ref>(s: State<Ref>) {
    CacheInv(s.cache) && forall d :: d in s.dials ==> s.dials[d].ref in s.cache.heap
  }

  /** A release is enabled only in phase Held, which it ends: GRPCConnection's
      compare-and-swap lets one Close through. */
  ghost predicate Enabled<Ref>(s: State<Ref>, a: Action<Ref>)
    requires WellFormed(s)
  {
    match a
    case Create(d, t, dialed) =>
      d !in s.dials && (dialed.Some? ==> Fresh(s.cache, dialed.value.0, dialed.value.1))
    case ObserveReady(d) => InPhase(s, d, Opening) && s.cache.heap[s.dials[d].ref].conn !in s.cache.shut
    case FinishOpen(d) => InPhase(s, d, Ready)
    case Fail(d, _) => InPhase(s, d, Opening)
    case Release(d, _) => InPhase(s, d, Held)
    case Tick(_, _) => s.cache.janitors > s.exiting
    case JanitorExit => s.cache.janitors >= s.exiting > 0 && (s.closing || s.cache.tokens < 1)
    case OutsideShutdown(r) => r in s.cache.heap
    case CloseBegin => !s.cache.closed
    case CloseFlush => s.closing && !s.cache.closed
    case JanitorsWhileClosing(_, _, _) => s.closing
  }

  ghost function Next<Ref>(s: State<Ref>, a: Action<Ref>): State<Ref>
    requires WellFormed(s) && Enabled(s, a)
  {
    match a
    case Create(d, t, dialed) =>
      var (c, got) := CreateConn(s.cache, t, dialed);
      if got.None? then s.(cache := c) else s.(cache := c, dials := s.dials[d := Dial(got.value, Opening)])
    case ObserveReady(d) => s.(dials := s.dials[d := Dial(s.dials[d].ref, Ready)])
    case FinishOpen(d) =>
      s.(cache := EnsureJanitor(s.cache), dials := s.dials[d := Dial(s.dials[d].ref, Held)])
    case Fail(d, now) =>
      var r := s.dials[d].ref;
      s.(cache := FailConn(s.cache, r, now), dials := s.dials - {d}, lastRelease := s.lastRelease[r := now])
    case Release(d, now) =>
      var r := s.dials[d].ref;
      s.(cache := ReleaseConn(s.cache, s.cache.heap[r].conn, now), dials := s.dials - {d},
         lastRelease := s.lastRelease[r := now])
    case Tick(now, idle) =>
      var c := Sweep(s.cache, now, idle);
      s.(cache := c, exiting := if c.index == map[] then s.exiting + 1 else s.exiting)
    case JanitorExit =>
      s.(cache := s.cache.(tokens := s.cache.tokens + 1, janitors := s.cache.janitors - 1), exiting := s.exiting - 1)
    case OutsideShutdown(r) => s.(cache := s.cache.(shut := s.cache.shut + {s.cache.heap[r].conn}))
    case CloseBegin => s.(closing := true)
    case CloseFlush => s.(cache := CloseLocked(s.cache))
    case JanitorsWhileClosing(t, j, e) => s.(cache := s.cache.(tokens := t, janitors := j), exiting := e)
  }

  // ---- the invariant ----

  ghost function Holders<Ref>(dials: map<nat, Dial<Ref>>, r: Ref): set<nat> {
    set d | d in dials && dials[d].ref == r
  }

  /** The reference count of an entry still in the index is the number of dials
      that obtained it and have neither failed nor been released. */
  ghost predicate CountsExact<Ref>(s: State<Ref>)
    requires WellFormed(s)
  {
    forall r :: r in s.cache.heap ==>
                  && s.cache.heap[r].open >= |Holders(s.dials, r)|
                  && (!s.cache.closed && Indexed(s.cache, r) ==> s.cache.heap[r].open == |Holders(s.dials, r)|)
  }

  ghost predicate OneToken<Ref>(s: State<Ref>) {
    s.cache.tokens + s.cache.janitors == 1 && s.exiting <= s.cache.janitors
  }

  /** lastClose is the time of the last release, and an unused entry had one. */
  ghost predicate TimesExact<Ref>(s: State<Ref>)
    requires WellFormed(s)
  {
    forall r :: r in s.cache.heap && !s.cache.closed && Indexed(s.cache, r) ==>
                  && (s.cache.heap[r].open == 0 ==> r in s.lastRelease)
                  && (r in s.lastRelease ==> s.cache.heap[r].lastClose == s.lastRelease[r])
  }

  ghost predicate Bookkeeping<Ref>(s: State<Ref>) {
    && (forall r :: r in s.lastRelease ==> r in s.cache.heap)
    && (!s.closing ==> OneToken(s))
    && (s.cache.closed ==> s.closing)
  }

  ghost predicate Inv<Ref>(s: State<Ref>) {
    WellFormed(s) && CountsExact(s) && TimesExact(s) && Bookkeeping(s)
  }

  lemma HoldersAdd<Ref>(dials: map<nat, Dial<Ref>>, d: nat, x: Dial<Ref>, r: Ref)
    ensures d !in dials ==>
              |Holders(dials[d := x], r)| == |Holders(dials, r)| + (if x.ref == r then 1 else 0)
    ensures d in dials && dials[d].ref == x.ref ==> Holders(dials[d := x], r) == Holders(dials, r)
  {
    if d !in dials {
      assert Holders(dials[d := x], r) == Holders(dials, r) + (if x.ref == r then {d} else {});
    }
  }

  lemma HoldersRemove<Ref>(dials: map<nat, Dial<Ref>>, d: nat, r: Ref)
    requires d in dials
    ensures |Holders(dials - {d}, r)| == |Holders(dials, r)| - (if dials[d].ref == r then 1 else 0)
  {
    assert Holders(dials - {d}, r) == Holders(dials, r) - (if dials[d].ref == r then {d} else {});
    assert dials[d].ref == r ==> d in Holders(dials, r);
  }

  lemma InitInv<Ref>()
    ensures Inv(Init<Ref>())
  {
  }

  lemma CreateHolders<Ref>(s: State<Ref>, a: Action<Ref>, r: Ref)
    requires Inv(s) && a.Create? && Enabled(s, a)
    ensures var got := CreateConn(s.cache, a.target, a.dialed).1;
            |Holders(Next(s, a).dials, r)| == |Holders(s.dials, r)| + (if got == Some(r) then 1 else 0)
    ensures r !in s.cache.heap ==> Holders(s.dials, r) == {}
  {
    var got := CreateConn(s.cache, a.target, a.dialed).1;
    if got.Some? { HoldersAdd(s.dials, a.d, Dial(got.value, Opening), r); }
  }

  lemma CreateWellFormed<Ref>(s: State<Ref>, a: Action<Ref>)
    requires Inv(s) && a.Create? && Enabled(s, a)
    ensures WellFormed(Next(s, a))
  {
    CreateKeepsInv(s.cache, a.target, a.dialed);
    CreateEffect(s.cache, a.target, a.dialed);
  }

  lemma CreateCounts<Ref>(s: State<Ref>, a: Action<Ref>)
    requires Inv(s) && a.Create? && Enabled(s, a)
    requires WellFormed(Next(s, a))
    ensures CountsExact(Next(s, a))
  {
    var s' := Next(s, a);
    CreateEffect(s.cache, a.target, a.dialed);
    forall r | r in s'.cache.heap
      ensures s'.cache.heap[r].open >= |Holders(s'.dials, r)|
      ensures !s'.cache.closed && Indexed(s'.cache, r) ==> s'.cache.heap[r].open == |Holders(s'.dials, r)|
    {
      CreateHolders(s, a, r);
    }
  }

  lemma CreateTimes<Ref>(s: State<Ref>, a: Action<Ref>)
    requires Inv(s) && a.Create? && Enabled(s, a)
    requires WellFormed(Next(s, a))
    ensures TimesExact(Next(s, a))
  {
    var (c, got) := CreateConn(s.cache, a.target, a.dialed);
    CreateEffect(s.cache, a.target, a.dialed);
    forall r | r in c.heap && !c.closed && Indexed(c, r)
      ensures c.heap[r].open == 0 ==> r in s.lastRelease
      ensures r in s.lastRelease ==> c.heap[r].lastClose == s.lastRelease[r]
    {
      assert r in s.lastRelease ==> r in s.cache.heap;
      if r in s.cache.heap { assert Indexed(s.cache, r); }
    }
  }

  lemma CreateBookkeeping<Ref>(s: State<Ref>, a: Action<Ref>)
    requires Inv(s) && a.Create? && Enabled(s, a)
    ensures Bookkeeping(Next(s, a))
  {
    CreateEffect(s.cache, a.target, a.dialed);
  }

  lemma CreateStep<Ref>(s: State<Ref>, a: Action<Ref>)
    requires Inv(s) && a.Create? && Enabled(s, a)
    ensures Inv(Next(s, a))
  {
    CreateWellFormed(s, a);
    CreateCounts(s, a);
    CreateTimes(s, a);
    CreateBookkeeping(s, a);
  }

  lemma PhaseHolders<Ref>(s: State<Ref>, a: Action<Ref>)
    requires Inv(s) && (a.ObserveReady? || a.FinishOpen?) && Enabled(s, a)
    ensures Next(s, a).dials.Keys == s.dials.Keys
    ensures forall d :: d in s.dials ==> Next(s, a).dials[d].ref == s.dials[d].ref
    ensures forall r :: Holders(Next(s, a).dials, r) == Holders(s.dials, r)
  {
  }

  lemma PhaseStep<Ref>(s: State<Ref>, a: Action<Ref>)
    requires Inv(s) && (a.ObserveReady? || a.FinishOpen?) && Enabled(s, a)
    ensures Inv(Next(s, a))
  {
    PhaseHolders(s, a);
    SameEntries(s, s.(cache := Next(s, a).cache));
  }

  lemma FailStep<Ref>(s: State<Ref>, a: Action<Ref>)
    requires Inv(s) && a.Fail? && Enabled(s, a)
    ensures Inv(Next(s, a))
  {
    var s' := Next(s, a);
    FailKeepsInv(s.cache, s.dials[a.d].ref, a.now);
    forall r | r in s.cache.heap
      ensures |Holders(s'.dials, r)| == |Holders(s.dials, r)| - (if s.dials[a.d].ref == r then 1 else 0)
    {
      HoldersRemove(s.dials, a.d, r);
    }
  }

  lemma ReleaseCounts<Ref>(s: State<Ref>, a: Action<Ref>)
    requires Inv(s) && a.Release? && Enabled(s, a)
    requires WellFormed(Next(s, a))
    ensures CountsExact(Next(s, a)) && TimesExact(Next(s, a))
  {
    var s' := Next(s, a);
    var mine := s.dials[a.d].ref;
    ReleaseEffect(s.cache, mine, a.now);
    GuardNeverSaturates(s, a);
    forall r | r in s.cache.heap
      ensures |Holders(s'.dials, r)| == |Holders(s.dials, r)| - (if mine == r then 1 else 0)
    {
      HoldersRemove(s.dials, a.d, r);
    }
  }

  lemma ReleaseStep<Ref>(s: State<Ref>, a: Action<Ref>)
    requires Inv(s) && a.Release? && Enabled(s, a)
    ensures Inv(Next(s, a))
  {
    var mine := s.dials[a.d].ref;
    ReleaseKeepsInv(s.cache, s.cache.heap[mine].conn, a.now);
    ReleaseEffect(s.cache, mine, a.now);
    ReleaseCounts(s, a);
  }

  lemma TickStep<Ref>(s: State<Ref>, a: Action<Ref>)
    requires Inv(s) && a.Tick? && Enabled(s, a)
    ensures Inv(Next(s, a))
  {
    RemoveAllKeepsInv(s.cache, Victims(s.cache, a.now, a.idle));
  }

  /** What a step leaves alone when it touches neither entries nor dials. */
  lemma SameEntries<Ref>(s: State<Ref>, s': State<Ref>)
    requires Inv(s) && s'.dials == s.dials && s'.lastRelease == s.lastRelease
    requires s'.cache.(tokens := s.cache.tokens, janitors := s.cache.janitors) == s.cache
    ensures WellFormed(s') && CountsExact(s') && TimesExact(s')
  {
  }

  lemma JanitorStep<Ref>(s: State<Ref>, a: Action<Ref>)
    requires Inv(s) && Enabled(s, a)
    requires a.JanitorExit? || a.CloseBegin? || a.JanitorsWhileClosing?
    ensures Inv(Next(s, a))
  {
    SameEntries(s, Next(s, a));
  }

  lemma OutsideStep<Ref>(s: State<Ref>, a: Action<Ref>)
    requires Inv(s) && Enabled(s, a) && a.OutsideShutdown?
    ensures Inv(Next(s, a))
  {
  }

  lemma FlushStep<Ref>(s: State<Ref>, a: Action<Ref>)
    requires Inv(s) && Enabled(s, a) && a.CloseFlush?
    ensures Inv(Next(s, a))
  {
    CloseKeepsInv(s.cache);
  }

  lemma StepInv<Ref>(s: State<Ref>, a: Action<Ref>)
    requires Inv(s) && Enabled(s, a)
    ensures Inv(Next(s, a))
  {
    if a.Create? { CreateStep(s, a); }
    else if a.ObserveReady? || a.FinishOpen? { PhaseStep(s, a); }
    else if a.Fail? { FailStep(s, a); }
    else if a.Release? { ReleaseStep(s, a); }
    else if a.Tick? { TickStep(s, a); }
    else if a.OutsideShutdown? { OutsideStep(s, a); }
    else if a.CloseFlush? { FlushStep(s, a); }
    else { JanitorStep(s, a); }
  }

  /** Where setClosed runs on a cached entry, its count is positive: the guard
      there never hides a miscount. */
  lemma GuardNeverSaturates<Ref>(s: State<Ref>, a: Action<Ref>)
    requires Inv(s) && Enabled(s, a) && (a.Fail? || a.Release?)
    ensures s.cache.heap[s.dials[a.d].ref].open > 0
  {
    assert a.d in Holders(s.dials, s.dials[a.d].ref);
  }

  // ---- whole runs ----

  ghost predicate IsRun<Ref>(states: seq<State<Ref>>, acts: seq<Action<Ref>>) {
    && |states| == |acts| + 1
    && states[0] == Init()
    && forall i :: 0 <= i < |acts| ==>
                     WellFormed(states[i]) && Enabled(states[i], acts[i]) && states[i + 1] == Next(states[i], acts[i])
  }

  lemma {:induction false} RunInv<Ref>(states: seq<State<Ref>>, acts: seq<Action<Ref>>, i: nat)
    requires IsRun(states, acts) && i < |states|
    ensures Inv(states[i])
  {
    if i == 0 {
      InitInv<Ref>();
    } else {
      RunInv(states, acts, i - 1);
      StepInv(states[i - 1], acts[i - 1]);
    }
  }

  /** Reference counts, in every interleaving before the flush of Close. */
  lemma CountsInEveryRun<Ref>(states: seq<State<Ref>>, acts: seq<Action<Ref>>, i: nat, r: Ref)
    requires IsRun(states, acts) && i < |states|
    requires r in states[i].cache.heap && !states[i].cache.closed && Indexed(states[i].cache, r)
    ensures states[i].cache.heap[r].open == |Holders(states[i].dials, r)|
  {
    RunInv(states, acts, i);
  }

  /** No connection leak, and the two maps agree. */
  lemma NoLeakInEveryRun<Ref>(states: seq<State<Ref>>, acts: seq<Action<Ref>>, i: nat)
    requires IsRun(states, acts) && i < |states|
    ensures forall r :: r in states[i].cache.heap ==>
                          Indexed(states[i].cache, r) || states[i].cache.heap[r].conn in states[i].cache.shut
    ensures forall t :: t in states[i].cache.conns ==>
                          var r := states[i].cache.conns[t];
                          && r in states[i].cache.heap && states[i].cache.heap[r].target == t
                          && Indexed(states[i].cache, r)
  {
    RunInv(states, acts, i);
  }

  /** The connector is closed and so is every connection it ever made. */
  ghost predicate AllShut<Ref>(s: State<Ref>) {
    s.cache.closed && forall r :: r in s.cache.heap ==> s.cache.heap[r].conn in s.cache.shut
  }

  lemma ClosedStep<Ref>(s: State<Ref>, a: Action<Ref>)
    requires Inv(s) && Enabled(s, a) && s.cache.closed
    ensures Next(s, a).cache.closed && Next(s, a).cache.heap.Keys == s.cache.heap.Keys
  {
    if a.Fail? { assert s.dials[a.d].ref in s.cache.heap; }
  }

  lemma ClosedRunStep<Ref>(states: seq<State<Ref>>, acts: seq<Action<Ref>>, i: nat)
    requires IsRun(states, acts) && i < |acts| && states[i].cache.closed
    ensures states[i + 1].cache.closed && states[i + 1].cache.heap.Keys == states[i].cache.heap.Keys
  {
    RunInv(states, acts, i);
    ClosedStep(states[i], acts[i]);
  }

  lemma ClosedMeansShut<Ref>(states: seq<State<Ref>>, acts: seq<Action<Ref>>, i: nat)
    requires IsRun(states, acts) && i < |states| && states[i].cache.closed
    ensures AllShut(states[i])
  {
    RunInv(states, acts, i);
  }

  /** Once Close returned no dial makes a connection, and every one ever made is shut down. */
  lemma {:induction false} ClosedIsFinal<Ref>(states: seq<State<Ref>>, acts: seq<Action<Ref>>, i: nat, j: nat)
    requires IsRun(states, acts) && i <= j < |states| && states[i].cache.closed
    ensures AllShut(states[j]) && states[j].cache.heap.Keys == states[i].cache.heap.Keys
    decreases j - i
  {
    hide Next, Enabled, WellFormed;
    if i < j {
      ClosedIsFinal(states, acts, i, j - 1);
      ClosedRunStep(states, acts, j - 1);
    }
    ClosedMeansShut(states, acts, j);
  }

  /** Up to Close: one token or one janitor, and the exiting janitor's send finds room. */
  lemma TokenConserved<Ref>(states: seq<State<Ref>>, acts: seq<Action<Ref>>, i: nat)
    requires IsRun(states, acts) && i < |states| && !states[i].closing
    ensures states[i].cache.tokens + states[i].cache.janitors == 1
    ensures states[i].exiting > 0 ==> WellFormed(states[i]) && Enabled(states[i], JanitorExit)
  {
    RunInv(states, acts, i);
  }

  /** A sweep shuts down nothing that a dial still holds, and only what was last
      released more than idleTime ago. */
  lemma SweepSparesUsedConnections<Ref>(states: seq<State<Ref>>, acts: seq<Action<Ref>>, i: nat, r: Ref)
    requires IsRun(states, acts) && i < |acts| && acts[i].Tick? && !states[i].cache.closed
    requires r in states[i].cache.heap
    requires states[i].cache.heap[r].conn !in states[i].cache.shut
    requires states[i + 1].cache.heap[r].conn in states[i + 1].cache.shut
    ensures Holders(states[i].dials, r) == {}
    ensures r in states[i].lastRelease && states[i].lastRelease[r] + acts[i].idle < acts[i].now
  {
    RunInv(states, acts, i);
    var s, a := states[i], acts[i];
    assert states[i + 1] == Next(s, a);
    SweepSafeAndComplete(s.cache, a.now, a.idle);
    assert Indexed(s.cache, r);
  }

  /** A property that holds at first, and that a step breaks exactly when it is
      `bad`, holds up to `n` exactly when no step before `n` is bad. */
  lemma {:induction false} HoldsUntilBad(holds: seq<bool>, bad: seq<bool>, n: nat)
    requires n <= |bad| && n < |holds| && holds[0]
    requires forall i :: 0 <= i < n && holds[i] ==> (holds[i + 1] <==> !bad[i])
    ensures (forall i :: 0 <= i <= n ==> holds[i]) <==> (forall i :: 0 <= i < n ==> !bad[i])
  {
    if n > 0 {
      HoldsUntilBad(holds, bad, n - 1);
      if forall i :: 0 <= i < n ==> !bad[i] {
        assert holds[n - 1] && !bad[n - 1];
      }
      if forall i :: 0 <= i <= n ==> holds[i] {
        assert holds[n - 1] && holds[n];
      }
    }
  }

  // ---- full inverses ----

  ghost predicate ReplacedFail<Ref>(s: State<Ref>, a: Action<Ref>)
    requires WellFormed(s) && Enabled(s, a)
  {
    a.Fail? && Replaced(s.cache, s.dials[a.d].ref)
  }

  lemma OtherInverse<Ref>(s: State<Ref>, a: Action<Ref>)
    requires Inv(s) && Enabled(s, a) && FullInverse(s.cache)
    requires !a.Create? && !a.Fail? && !a.Tick?
    requires CacheInv(Next(s, a).cache)
    ensures FullInverse(Next(s, a).cache)
  {
    if a.Release? { ReleaseEffect(s.cache, s.dials[a.d].ref, a.now); }
  }

  lemma StepInverse<Ref>(s: State<Ref>, a: Action<Ref>)
    requires Inv(s) && Enabled(s, a) && FullInverse(s.cache)
    ensures CacheInv(Next(s, a).cache)
    ensures FullInverse(Next(s, a).cache) <==> !ReplacedFail(s, a)
  {
    StepInv(s, a);
    if a.Create? { CreateInverse(s.cache, a.target, a.dialed); }
    else if a.Fail? { FailInverse(s.cache, s.dials[a.d].ref, a.now); }
    else if a.Tick? { SweepInverse(s.cache, a.now, a.idle); }
    else { OtherInverse(s, a); }
  }

  /** A run's state, known to satisfy the locked invariant. */
  ghost predicate InverseAt<Ref>(s: State<Ref>) {
    CacheInv(s.cache) && FullInverse(s.cache)
  }

  /** A run's step is a failing dial that finds its entry replaced. */
  ghost predicate ReplacedAt<Ref>(s: State<Ref>, a: Action<Ref>) {
    WellFormed(s) && Enabled(s, a) && ReplacedFail(s, a)
  }

  lemma InverseStep<Ref>(states: seq<State<Ref>>, acts: seq<Action<Ref>>, i: nat)
    requires IsRun(states, acts) && i < |acts| && InverseAt(states[i])
    ensures InverseAt(states[i + 1]) <==> !ReplacedAt(states[i], acts[i])
  {
    RunInv(states, acts, i);
    StepInverse(states[i], acts[i]);
  }

  /** The maps are full inverses throughout a run exactly when no failing dial
      finds its entry replaced. */
  lemma InverseExactly<Ref>(states: seq<State<Ref>>, acts: seq<Action<Ref>>, n: nat)
    requires IsRun(states, acts) && n < |states|
    ensures (forall i :: 0 <= i <= n ==> InverseAt(states[i]))
            <==> (forall i :: 0 <= i < n ==> !ReplacedAt(states[i], acts[i]))
  {
    var holds := seq(n + 1, i requires 0 <= i <= n => InverseAt(states[i]));
    var bad := seq(n, i requires 0 <= i < n => ReplacedAt(states[i], acts[i]));
    forall i | 0 <= i < n && holds[i]
      ensures holds[i + 1] <==> !bad[i]
    {
      InverseStep(states, acts, i);
    }
    InitInverse<Ref>();
    HoldsUntilBad(holds, bad, n);
    assert forall i :: 0 <= i <= n ==> holds[i] == InverseAt(states[i]);
    assert forall i :: 0 <= i < n ==> bad[i] == ReplacedAt(states[i], acts[i]);
  }

  lemma InitInverse<Ref>()
    ensures InverseAt(Init<Ref>())
  {
  }

  /** A failing dial shuts down a connection that another dial obtained exactly
      when the count of its entry was above one. */
  lemma FailHitsOthersExactly<Ref>(s: State<Ref>, a: Action<Ref>)
    requires Inv(s) && a.Fail? && Enabled(s, a) && !s.cache.closed
    requires Indexed(s.cache, s.dials[a.d].ref)
    ensures var r := s.dials[a.d].ref;
            && s.cache.heap[r].conn in Next(s, a).cache.shut
            && ((exists e :: e in Next(s, a).dials && s.dials[e].ref == r) <==> s.cache.heap[r].open > 1)
  {
    var r := s.dials[a.d].ref;
    HoldersRemove(s.dials, a.d, r);
    var others := Holders(s.dials - {a.d}, r);
    assert others == {} <==> |others| == 0;
    if others != {} {
      var e :| e in others;
      assert e in Next(s, a).dials;
    }
    if e :| e in Next(s, a).dials && s.dials[e].ref == r {
      assert e in others;
    }
  }

  // ---- who can shut down a connection in use? ----

  /** Dial `d` is in flight and its connection is still open. */
  ghost predicate InUse<Ref>(s: State<Ref>, d: nat, r: Ref) {
    d in s.dials && s.dials[d].ref == r && r in s.cache.heap && s.cache.heap[r].conn !in s.cache.shut
  }

  /** An outside shutdown of that connection, the failure of another dial that
      shares it, or the flush of Close. */
  ghost predicate Cuts<Ref>(s: State<Ref>, a: Action<Ref>, r: Ref)
    requires r in s.cache.heap && WellFormed(s)
  {
    || (a.OutsideShutdown? && a.ref == r)
    || (a.Fail? && a.d in s.dials && s.dials[a.d].ref == r)
    || a.CloseFlush?
  }

  lemma CreateCuts<Ref>(s: State<Ref>, a: Action<Ref>, r: Ref)
    requires Inv(s) && a.Create? && Enabled(s, a) && r in s.cache.heap
    ensures Next(s, a).cache.shut == s.cache.shut && r in Next(s, a).cache.heap
    ensures Next(s, a).cache.heap[r].conn == s.cache.heap[r].conn
  {
    if !s.cache.closed && !Hit(s.cache, a.target) { EvictKeepsInv(s.cache, a.target); }
  }

  lemma TickCuts<Ref>(s: State<Ref>, a: Action<Ref>, d: nat, r: Ref)
    requires Inv(s) && a.Tick? && Enabled(s, a) && InUse(s, d, r)
    ensures InUse(Next(s, a), d, r)
  {
    SweepSafeAndComplete(s.cache, a.now, a.idle);
    assert d in Holders(s.dials, r);
  }

  lemma ShutdownCuts<Ref>(s: State<Ref>, a: Action<Ref>, d: nat, r: Ref)
    requires Inv(s) && (a.OutsideShutdown? || a.CloseFlush?) && Enabled(s, a) && InUse(s, d, r)
    requires d in Next(s, a).dials
    ensures InUse(Next(s, a), d, r) <==> !Cuts(s, a, r)
  {
  }

  lemma FailCuts<Ref>(s: State<Ref>, a: Action<Ref>, d: nat, r: Ref)
    requires Inv(s) && a.Fail? && Enabled(s, a) && InUse(s, d, r)
    requires d in Next(s, a).dials
    ensures InUse(Next(s, a), d, r) <==> !Cuts(s, a, r)
  {
  }

  /** While a dial is in flight, one of these three and nothing else takes its
      connection away: no sweep, no release and no other dial's creation does. */
  lemma CutStep<Ref>(s: State<Ref>, a: Action<Ref>, d: nat, r: Ref)
    requires Inv(s) && Enabled(s, a) && InUse(s, d, r)
    requires d in Next(s, a).dials && Next(s, a).dials[d].ref == r
    ensures InUse(Next(s, a), d, r) <==> !Cuts(s, a, r)
  {
    if a.OutsideShutdown? || a.CloseFlush? { ShutdownCuts(s, a, d, r); }
    else if a.Fail? { FailCuts(s, a, d, r); }
    else if a.Create? { CreateCuts(s, a, r); }
    else if a.Tick? { TickCuts(s, a, d, r); }
    else if a.Release? { ReleaseEffect(s.cache, s.dials[a.d].ref, a.now); }
  }

  ghost predicate CutAt<Ref>(s: State<Ref>, a: Action<Ref>, r: Ref) {
    WellFormed(s) && r in s.cache.heap && Cuts(s, a, r)
  }

  lemma CutRunStep<Ref>(states: seq<State<Ref>>, acts: seq<Action<Ref>>, k: nat, d: nat, r: Ref)
    requires IsRun(states, acts) && k < |acts| && InUse(states[k], d, r)
    requires d in states[k + 1].dials && states[k + 1].dials[d].ref == r
    ensures InUse(states[k + 1], d, r) <==> !CutAt(states[k], acts[k], r)
  {
    RunInv(states, acts, k);
    CutStep(states[k], acts[k], d, r);
  }

  ghost predicate InFlight<Ref>(states: seq<State<Ref>>, i: nat, j: nat, d: nat, r: Ref) {
    forall k :: i <= k <= j && k < |states| ==> d in states[k].dials && states[k].dials[d].ref == r
  }

  ghost predicate OpenThroughout<Ref>(states: seq<State<Ref>>, i: nat, j: nat, d: nat, r: Ref) {
    forall k :: i <= k <= j && k < |states| ==> InUse(states[k], d, r)
  }

  ghost predicate NeverCut<Ref>(states: seq<State<Ref>>, acts: seq<Action<Ref>>, i: nat, j: nat, r: Ref) {
    forall k :: i <= k < j && k < |acts| && k < |states| ==> !CutAt(states[k], acts[k], r)
  }

  lemma OneStepMore<Ref>(states: seq<State<Ref>>, acts: seq<Action<Ref>>, i: nat, j: nat, d: nat, r: Ref)
    requires i < j < |states| && |states| == |acts| + 1
    ensures InFlight(states, i, j, d, r) ==>
              InFlight(states, i, j - 1, d, r) && d in states[j].dials && states[j].dials[d].ref == r
    ensures OpenThroughout(states, i, j, d, r) <==> OpenThroughout(states, i, j - 1, d, r) && InUse(states[j], d, r)
    ensures OpenThroughout(states, i, j - 1, d, r) ==> InUse(states[j - 1], d, r)
    ensures NeverCut(states, acts, i, j, r)
            <==> NeverCut(states, acts, i, j - 1, r) && !CutAt(states[j - 1], acts[j - 1], r)
  {
    hide InUse, CutAt;
  }

  lemma NoStepYet<Ref>(states: seq<State<Ref>>, acts: seq<Action<Ref>>, i: nat, d: nat, r: Ref)
    requires i < |states| && InUse(states[i], d, r)
    ensures OpenThroughout(states, i, i, d, r) && NeverCut(states, acts, i, i, r)
  {
    hide InUse, CutAt;
  }

  lemma RunLength<Ref>(states: seq<State<Ref>>, acts: seq<Action<Ref>>)
    requires IsRun(states, acts)
    ensures |states| == |acts| + 1
  {
    hide Next, Enabled, WellFormed;
  }

  /** A connection stays open from when a dial obtained it to when it gives it
      back, exactly in the runs in which nothing cuts it. */
  lemma {:induction false} StaysOpenExactly<Ref>(states: seq<State<Ref>>, acts: seq<Action<Ref>>,
                                                 i: nat, j: nat, d: nat, r: Ref)
    requires IsRun(states, acts) && i <= j < |states| && InUse(states[i], d, r) && InFlight(states, i, j, d, r)
    ensures OpenThroughout(states, i, j, d, r) <==> NeverCut(states, acts, i, j, r)
    decreases j - i
  {
    hide *;
    if i == j {
      NoStepYet(states, acts, i, d, r);
    } else {
      RunLength(states, acts);
      OneStepMore(states, acts, i, j, d, r);
      StaysOpenExactly(states, acts, i, j - 1, d, r);
      if InUse(states[j - 1], d, r) {
        CutRunStep(states, acts, j - 1, d, r);
      }
    }
  }

  // ---- is every cached connection watched by a janitor? ----

  /** A dial other than `d` is still opening entry `r`, and will start a janitor when done. */
  ghost predicate OpeningBy<Ref>(s: State<Ref>, r: Ref, d: nat) {
    d in s.dials && s.dials[d].ref == r && s.dials[d].phase != Held
  }

  ghost predicate Watched<Ref>(s: State<Ref>) {
    forall r :: r in s.cache.heap && Indexed(s.cache, r) ==>
                  s.cache.janitors > s.exiting || exists d :: OpeningBy(s, r, d)
  }

  /** A dial completes after the only janitor decided to exit and before its
      token is back, with no other dial opening the same entry. */
  ghost predicate Missed<Ref>(s: State<Ref>, a: Action<Ref>) {
    && a.FinishOpen? && a.d in s.dials && s.dials[a.d].ref in s.cache.heap
    && s.exiting > 0 && Indexed(s.cache, s.dials[a.d].ref)
    && !exists e :: e != a.d && OpeningBy(s, s.dials[a.d].ref, e)
  }

  lemma FinishWatched<Ref>(s: State<Ref>, a: Action<Ref>)
    requires Inv(s) && Enabled(s, a) && a.FinishOpen? && !s.closing && Watched(s)
    ensures Watched(Next(s, a)) <==> !Missed(s, a)
  {
    var s', r := Next(s, a), s.dials[a.d].ref;
    if s.exiting > 0 {
      forall q, e | OpeningBy(s, q, e) && e != a.d ensures OpeningBy(s', q, e) {}
      forall q, e | OpeningBy(s', q, e) ensures OpeningBy(s, q, e) && e != a.d {}
    }
  }

  lemma CreateWatched<Ref>(s: State<Ref>, a: Action<Ref>)
    requires Inv(s) && Enabled(s, a) && a.Create? && !s.closing && Watched(s)
    ensures Watched(Next(s, a))
  {
    var s' := Next(s, a);
    CreateEffect(s.cache, a.target, a.dialed);
    var got := CreateConn(s.cache, a.target, a.dialed).1;
    if got.Some? { assert OpeningBy(s', got.value, a.d); }
    forall r, e | OpeningBy(s, r, e) ensures OpeningBy(s', r, e) {}
  }

  lemma ReleaseWatched<Ref>(s: State<Ref>, a: Action<Ref>)
    requires Inv(s) && Enabled(s, a) && a.Release? && !s.closing && Watched(s)
    ensures Watched(Next(s, a))
  {
    var s' := Next(s, a);
    ReleaseEffect(s.cache, s.dials[a.d].ref, a.now);
    forall r, e | OpeningBy(s, r, e) ensures OpeningBy(s', r, e) {}
  }

  lemma OtherWatched<Ref>(s: State<Ref>, a: Action<Ref>)
    requires Inv(s) && Enabled(s, a) && !a.Create? && !a.FinishOpen? && !a.Release? && !s.closing && Watched(s)
    ensures Watched(Next(s, a))
  {
    var s' := Next(s, a);
    forall r, e | OpeningBy(s, r, e) && (a.Fail? ==> r != s.dials[a.d].ref) ensures OpeningBy(s', r, e) {}
  }

  lemma WatchedStep<Ref>(states: seq<State<Ref>>, acts: seq<Action<Ref>>, i: nat)
    requires IsRun(states, acts) && i < |acts| && !states[i].closing && Watched(states[i])
    ensures Watched(states[i + 1]) <==> !Missed(states[i], acts[i])
  {
    RunInv(states, acts, i);
    var s, a := states[i], acts[i];
    if a.FinishOpen? { FinishWatched(s, a); }
    else if a.Create? { CreateWatched(s, a); }
    else if a.Release? { ReleaseWatched(s, a); }
    else { OtherWatched(s, a); }
  }

  lemma {:induction false} ClosingLasts<Ref>(states: seq<State<Ref>>, acts: seq<Action<Ref>>, i: nat, j: nat)
    requires IsRun(states, acts) && i <= j < |states| && states[i].closing
    ensures states[j].closing
    decreases j - i
  {
    hide Enabled, WellFormed;
    if i < j {
      ClosingLasts(states, acts, i, j - 1);
      assert states[j] == Next(states[j - 1], acts[j - 1]);
    }
  }

  lemma InitWatched<Ref>()
    ensures Watched(Init<Ref>())
  {
  }

  /** Before Close, every cached entry stays under a janitor, or under a dial
      about to start one, exactly when no dial completes in that window. */
  lemma WatchedExactly<Ref>(states: seq<State<Ref>>, acts: seq<Action<Ref>>, n: nat)
    requires IsRun(states, acts) && n < |states| && !states[n].closing
    ensures (forall i :: 0 <= i <= n ==> Watched(states[i]))
            <==> (forall i :: 0 <= i < n ==> !Missed(states[i], acts[i]))
  {
    var holds := seq(n + 1, i requires 0 <= i <= n => Watched(states[i]));
    var bad := seq(n, i requires 0 <= i < n => Missed(states[i], acts[i]));
    forall i | 0 <= i < n && holds[i]
      ensures holds[i + 1] <==> !bad[i]
    {
      if states[i].closing { ClosingLasts(states, acts, i, n); }
      WatchedStep(states, acts, i);
    }
    InitWatched<Ref>();
    HoldsUntilBad(holds, bad, n);
    assert forall i :: 0 <= i <= n ==> holds[i] == Watched(states[i]);
    assert forall i :: 0 <= i < n ==> bad[i] == Missed(states[i], acts[i]);
  }

  // ---- is every idle connection watched by a janitor? ----

  /** While an entry is unused some janitor is in its loop and will sweep it. */
  ghost predicate IdleWatched<Ref>(s: State<Ref>) {
    forall r :: r in s.cache.heap && Indexed(s.cache, r) && s.cache.heap[r].open == 0 ==> s.cache.janitors > s.exiting
  }

  /** The last use of a cached entry is given back after the only janitor decided
      to exit and before its token is back, so the release starts none. */
  ghost predicate ReleasedUnseen<Ref>(s: State<Ref>, a: Action<Ref>) {
    && a.Release? && a.d in s.dials && s.dials[a.d].ref in s.cache.heap
    && s.exiting > 0 && Indexed(s.cache, s.dials[a.d].ref) && s.cache.heap[s.dials[a.d].ref].open == 1
  }

  lemma ReleaseIdleWatched<Ref>(s: State<Ref>, a: Action<Ref>)
    requires Inv(s) && Enabled(s, a) && a.Release? && !s.closing && IdleWatched(s)
    ensures IdleWatched(Next(s, a)) <==> !ReleasedUnseen(s, a)
  {
    var r := s.dials[a.d].ref;
    ReleaseEffect(s.cache, r, a.now);
    GuardNeverSaturates(s, a);
    if ReleasedUnseen(s, a) {
      assert Indexed(Next(s, a).cache, r);
    }
  }

  lemma CreateIdleWatched<Ref>(s: State<Ref>, a: Action<Ref>)
    requires Inv(s) && Enabled(s, a) && a.Create? && !s.closing && IdleWatched(s)
    ensures IdleWatched(Next(s, a))
  {
    CreateEffect(s.cache, a.target, a.dialed);
  }

  lemma OtherIdleWatched<Ref>(s: State<Ref>, a: Action<Ref>)
    requires Inv(s) && Enabled(s, a) && !a.Create? && !a.Release? && !s.closing && IdleWatched(s)
    ensures IdleWatched(Next(s, a))
  {
  }

  lemma IdleWatchedStep<Ref>(states: seq<State<Ref>>, acts: seq<Action<Ref>>, i: nat)
    requires IsRun(states, acts) && i < |acts| && !states[i].closing && IdleWatched(states[i])
    ensures IdleWatched(states[i + 1]) <==> !ReleasedUnseen(states[i], acts[i])
  {
    RunInv(states, acts, i);
    var s, a := states[i], acts[i];
    if a.Release? { ReleaseIdleWatched(s, a); }
    else if a.Create? { CreateIdleWatched(s, a); }
    else { OtherIdleWatched(s, a); }
  }

  lemma InitIdleWatched<Ref>()
    ensures IdleWatched(Init<Ref>())
  {
  }

  /** Before Close, no cached connection is ever idle without a janitor, exactly
      in the runs in which no last release falls into that window. */
  lemma IdleWatchedExactly<Ref>(states: seq<State<Ref>>, acts: seq<Action<Ref>>, n: nat)
    requires IsRun(states, acts) && n < |states| && !states[n].closing
    ensures (forall i :: 0 <= i <= n ==> IdleWatched(states[i]))
            <==> (forall i :: 0 <= i < n ==> !ReleasedUnseen(states[i], acts[i]))
  {
    var holds := seq(n + 1, i requires 0 <= i <= n => IdleWatched(states[i]));
    var bad := seq(n, i requires 0 <= i < n => ReleasedUnseen(states[i], acts[i]));
    forall i | 0 <= i < n && holds[i]
      ensures holds[i + 1] <==> !bad[i]
    {
      if states[i].closing { ClosingLasts(states, acts, i, n); }
      IdleWatchedStep(states, acts, i);
    }
    InitIdleWatched<Ref>();
    HoldsUntilBad(holds, bad, n);
    assert forall i :: 0 <= i <= n ==> holds[i] == IdleWatched(states[i]);
    assert forall i :: 0 <= i < n ==> bad[i] == ReleasedUnseen(states[i], acts[i]);
  }
}
