/** The stream between an orderer connection and its consumer: a producer
    goroutine that turns received messages into sends on an unbuffered response
    channel and a buffered error channel, and a consumer that selects on both
    until the response channel is closed and then drains the errors.

    The capacity of the error channel is a parameter; the code uses 1. */
module OrdererStream {
  import opened Options

  // ---- what one Recv makes the producer do ----

  datatype Item<V, E> = Response(v: V) | Problem(e: E) | Ignored
  datatype End<E> = Eof | Failed(e: E)

  /** Everything the stream will deliver: finitely many messages and how it ends. */
  datatype Script<V, E> = Script(items: seq<Item<V, E>>, end: End<E>)

  const STATUS_SUCCESS: int := 200

  datatype DeliverMessage<B> = Status(code: int) | Block(block: B) | Unknown

  datatype StreamError = ServerStatus(code: int) | RecvFailed

  function BroadcastItem(code: int): Item<int, StreamError> {
    if code == STATUS_SUCCESS then Response(code) else Problem(ServerStatus(code))
  }

  function DeliverItem<B>(m: DeliverMessage<B>): Item<B, StreamError> {
    match m
    case Status(code) => if code != STATUS_SUCCESS then Problem(ServerStatus(code)) else Ignored
    case Block(b) => Response(b)
    case Unknown => Ignored
  }

  ghost function Errors<V, E>(items: seq<Item<V, E>>): seq<E> {
    if items == [] then []
    else (if items[0].Problem? then [items[0].e] else []) + Errors(items[1..])
  }

  ghost function EndErrors<E>(end: End<E>): seq<E> {
    if end.Failed? then [end.e] else []
  }

  ghost function AllErrors<V, E>(sc: Script<V, E>): seq<E> {
    Errors(sc.items) + EndErrors(sc.end)
  }

  ghost function LastResponse<V, E>(items: seq<Item<V, E>>): Option<V> {
    if items == [] then None
    else
      var it := items[|items| - 1];
      if it.Response? then Some(it.v) else LastResponse(items[..|items| - 1])
  }

  // ---- the two goroutines ----

  datatype Producer = Receiving(pos: nat) | Closing | Done
  /** `k` records how many errors were buffered when the consumer left its read loop. */
  datatype Consumer = Reading | Draining(i: nat, k: nat) | Returned(k: nat)

  datatype State<V, E> = State(producer: Producer, buffer: seq<E>, consumer: Consumer, last: Option<V>, errs: seq<E>)

  datatype Move =
    | Skip        // an ignored message
    | Handoff     // responses <- v meets the consumer's receive
    | SendError   // errs <- e finds room
    | SendFailure // the receive error goes to errs
    | CloseResponses
    | TakeError   // the consumer's select picks errs
    | SeeClosed   // ... or finds responses closed
    | DrainOne
    | DrainEnd

  ghost function Init<V, E>(): State<V, E> {
    State(Receiving(0), [], Reading, None, [])
  }

  ghost predicate At<V, E>(sc: Script<V, E>, s: State<V, E>) {
    s.producer.Receiving? && s.producer.pos < |sc.items|
  }

  ghost predicate AtEnd<V, E>(sc: Script<V, E>, s: State<V, E>) {
    s.producer.Receiving? && s.producer.pos == |sc.items|
  }

  ghost predicate Enabled<V, E>(sc: Script<V, E>, cap: nat, s: State<V, E>, m: Move) {
    match m
    case Skip => At(sc, s) && sc.items[s.producer.pos].Ignored?
    case Handoff => At(sc, s) && sc.items[s.producer.pos].Response? && s.consumer.Reading?
    case SendError => At(sc, s) && sc.items[s.producer.pos].Problem? && |s.buffer| < cap
    case SendFailure => AtEnd(sc, s) && sc.end.Failed? && |s.buffer| < cap
    case CloseResponses => s.producer.Closing? || (AtEnd(sc, s) && sc.end.Eof?)
    case TakeError => s.consumer.Reading? && s.buffer != []
    case SeeClosed => s.consumer.Reading? && s.producer.Done?
    case DrainOne => s.consumer.Draining? && s.consumer.i < |s.buffer|
    case DrainEnd => s.consumer.Draining? && s.consumer.i >= |s.buffer|
  }

  ghost function Next<V, E>(sc: Script<V, E>, cap: nat, s: State<V, E>, m: Move): State<V, E>
    requires Enabled(sc, cap, s, m)
  {
    match m
    case Skip => s.(producer := Receiving(s.producer.pos + 1))
    case Handoff => s.(producer := Receiving(s.producer.pos + 1), last := Some(sc.items[s.producer.pos].v))
    case SendError => s.(producer := Receiving(s.producer.pos + 1), buffer := s.buffer + [sc.items[s.producer.pos].e])
    case SendFailure => s.(producer := Closing, buffer := s.buffer + [sc.end.e])
    case CloseResponses => s.(producer := Done)
    case TakeError => s.(errs := s.errs + [s.buffer[0]], buffer := s.buffer[1..])
    case SeeClosed => s.(consumer := Draining(0, |s.buffer|))
    case DrainOne =>
      s.(errs := s.errs + [s.buffer[0]], buffer := s.buffer[1..], consumer := Draining(s.consumer.i + 1, s.consumer.k))
    case DrainEnd => s.(consumer := Returned(s.consumer.k))
  }

  /** What the producer has yet to send on the error channel. */
  ghost function Unsent<V, E>(sc: Script<V, E>, p: Producer): seq<E>
    requires p.Receiving? ==> p.pos <= |sc.items|
  {
    match p
    case Receiving(pos) => Errors(sc.items[pos..]) + EndErrors(sc.end)
    case _ => []
  }

  ghost function Consumed<V, E>(sc: Script<V, E>, p: Producer): seq<Item<V, E>>
    requires p.Receiving? ==> p.pos <= |sc.items|
  {
    if p.Receiving? then sc.items[..p.pos] else sc.items
  }

  ghost predicate Inv<V, E>(sc: Script<V, E>, cap: nat, s: State<V, E>) {
    && (s.producer.Receiving? ==> s.producer.pos <= |sc.items|)
    && s.errs + s.buffer + Unsent(sc, s.producer) == AllErrors(sc)
    && s.last == LastResponse(Consumed(sc, s.producer))
    && |s.buffer| <= cap
    && match s.consumer {
         case Reading => true
         case Draining(i, k) => s.producer.Done? && i + |s.buffer| == k <= cap && i <= (k + 1) / 2
         case Returned(k) => s.producer.Done? && k <= cap && |s.buffer| == k / 2
       }
  }

  lemma ErrorsStep<V, E>(sc: Script<V, E>, pos: nat)
    requires pos < |sc.items|
    ensures var it := sc.items[pos];
            Errors(sc.items[pos..]) == (if it.Problem? then [it.e] else []) + Errors(sc.items[pos + 1..])
    ensures sc.items[..pos + 1][..pos] == sc.items[..pos]
  {
    assert sc.items[pos..][1..] == sc.items[pos + 1..];
  }

  ghost predicate IsConsumerMove(m: Move) {
    m.TakeError? || m.SeeClosed? || m.DrainOne? || m.DrainEnd?
  }

  lemma ConsumerStep<V, E>(sc: Script<V, E>, cap: nat, s: State<V, E>, m: Move)
    requires Inv(sc, cap, s) && Enabled(sc, cap, s, m) && IsConsumerMove(m)
    ensures Inv(sc, cap, Next(sc, cap, s, m))
  {
    if m.TakeError? || m.DrainOne? {
      assert [s.buffer[0]] + s.buffer[1..] == s.buffer;
      assert Next(sc, cap, s, m).errs + Next(sc, cap, s, m).buffer == s.errs + s.buffer;
    }
  }

  lemma ItemStep<V, E>(sc: Script<V, E>, cap: nat, s: State<V, E>, m: Move)
    requires Inv(sc, cap, s) && Enabled(sc, cap, s, m) && (m.Skip? || m.Handoff? || m.SendError?)
    ensures Inv(sc, cap, Next(sc, cap, s, m))
  {
    var s' := Next(sc, cap, s, m);
    ErrorsStep(sc, s.producer.pos);
    assert s'.errs + s'.buffer + Unsent(sc, s'.producer) == s.errs + s.buffer + Unsent(sc, s.producer);
  }

  lemma EndStep<V, E>(sc: Script<V, E>, cap: nat, s: State<V, E>, m: Move)
    requires Inv(sc, cap, s) && Enabled(sc, cap, s, m) && (m.SendFailure? || m.CloseResponses?)
    ensures Inv(sc, cap, Next(sc, cap, s, m))
  {
    var s' := Next(sc, cap, s, m);
    if AtEnd(sc, s) { assert sc.items[..s.producer.pos] == sc.items; }
    assert s'.errs + s'.buffer + Unsent(sc, s'.producer) == s.errs + s.buffer + Unsent(sc, s.producer);
  }

  lemma StepInv<V, E>(sc: Script<V, E>, cap: nat, s: State<V, E>, m: Move)
    requires Inv(sc, cap, s) && Enabled(sc, cap, s, m)
    ensures Inv(sc, cap, Next(sc, cap, s, m))
  {
    if IsConsumerMove(m) { ConsumerStep(sc, cap, s, m); }
    else if m.SendFailure? || m.CloseResponses? { EndStep(sc, cap, s, m); }
    else { ItemStep(sc, cap, s, m); }
  }

  // ---- runs ----

  ghost predicate IsRun<V, E>(sc: Script<V, E>, cap: nat, states: seq<State<V, E>>, moves: seq<Move>) {
    && |states| == |moves| + 1
    && states[0] == Init()
    && forall i :: 0 <= i < |moves| ==>
                     Enabled(sc, cap, states[i], moves[i]) && states[i + 1] == Next(sc, cap, states[i], moves[i])
  }

  lemma InitInv<V, E>(sc: Script<V, E>, cap: nat)
    ensures Inv(sc, cap, Init())
  {
    assert sc.items[0..] == sc.items;
  }

  lemma {:induction false} RunInv<V, E>(sc: Script<V, E>, cap: nat, states: seq<State<V, E>>, moves: seq<Move>, i: nat)
    requires IsRun(sc, cap, states, moves) && i < |states|
    ensures Inv(sc, cap, states[i])
  {
    if i == 0 {
      InitInv(sc, cap);
    } else {
      RunInv(sc, cap, states, moves, i - 1);
      StepInv(sc, cap, states[i - 1], moves[i - 1]);
    }
  }

  /** No interleaving deadlocks: until the consumer returns some move is enabled. */
  lemma NoDeadlock<V, E>(sc: Script<V, E>, cap: nat, states: seq<State<V, E>>, moves: seq<Move>)
    requires cap >= 1 && IsRun(sc, cap, states, moves)
    ensures states[|moves|].consumer.Returned? || exists m :: Enabled(sc, cap, states[|moves|], m)
  {
    RunInv(sc, cap, states, moves, |moves|);
    var s := states[|moves|];
    if s.consumer.Draining? {
      assert Enabled(sc, cap, s, DrainOne) || Enabled(sc, cap, s, DrainEnd);
    } else if s.consumer.Reading? {
      assert || Enabled(sc, cap, s, TakeError) || Enabled(sc, cap, s, SeeClosed) || Enabled(sc, cap, s, CloseResponses)
             || Enabled(sc, cap, s, SendFailure) || Enabled(sc, cap, s, Skip) || Enabled(sc, cap, s, Handoff)
             || Enabled(sc, cap, s, SendError);
    }
  }

  ghost function Measure<V, E>(sc: Script<V, E>, s: State<V, E>): int {
    2 * (match s.producer case Receiving(pos) => |sc.items| - pos + 2 case Closing => 1 case Done => 0)
    + |s.buffer|
    + (match s.consumer case Reading => 2 case Draining(_, _) => 1 case Returned(_) => 0)
  }

  /** Every interleaving ends: no run is longer than the script allows. */
  lemma {:induction false} Terminates<V, E>(sc: Script<V, E>, cap: nat, states: seq<State<V, E>>, moves: seq<Move>,
                                            i: nat)
    requires IsRun(sc, cap, states, moves) && i < |states|
    ensures i + Measure(sc, states[i]) <= 2 * |sc.items| + 6
    ensures i <= 2 * |sc.items| + 6
  {
    RunInv(sc, cap, states, moves, i);
    if i > 0 {
      Terminates(sc, cap, states, moves, i - 1);
      assert states[i - 1 + 1] == Next(sc, cap, states[i - 1], moves[i - 1]);
    }
  }

  /** What the consumer returns, for any capacity: the last response, and all
      errors in order but for the half of the buffer the drain loop leaves. */
  lemma Returns<V, E>(sc: Script<V, E>, cap: nat, states: seq<State<V, E>>, moves: seq<Move>)
    requires IsRun(sc, cap, states, moves) && states[|moves|].consumer.Returned?
    ensures var s, k := states[|moves|], states[|moves|].consumer.k;
            && s.last == LastResponse(sc.items)
            && k <= cap && k / 2 <= |AllErrors(sc)|
            && s.errs == AllErrors(sc)[..|AllErrors(sc)| - k / 2]
  {
    RunInv(sc, cap, states, moves, |moves|);
    var s := states[|moves|];
    assert s.errs + s.buffer == AllErrors(sc);
  }

  /** A script and a complete run over it from which an error is missing. */
  ghost predicate Loses<V, E>(cap: nat, sc: Script<V, E>, states: seq<State<V, E>>, moves: seq<Move>) {
    IsRun(sc, cap, states, moves) && states[|moves|].consumer.Returned? && states[|moves|].errs != AllErrors(sc)
  }

  lemma OneIsLossless<V, E>(sc: Script<V, E>, states: seq<State<V, E>>, moves: seq<Move>)
    ensures !Loses(1, sc, states, moves)
  {
    if IsRun(sc, 1, states, moves) && states[|moves|].consumer.Returned? {
      Returns(sc, 1, states, moves);
    }
  }

  lemma TwoLoses<V, E>(cap: nat, e: E) returns (sc: Script<V, E>, states: seq<State<V, E>>, moves: seq<Move>)
    requires cap >= 2
    ensures Loses(cap, sc, states, moves)
  {
    sc := Script([Problem(e), Problem(e)], Eof);
    moves := [SendError, SendError, CloseResponses, SeeClosed, DrainOne, DrainEnd];
    states := [
      Init(),
      State(Receiving(1), [e], Reading, None, []),
      State(Receiving(2), [e, e], Reading, None, []),
      State(Done, [e, e], Reading, None, []),
      State(Done, [e, e], Draining(0, 2), None, []),
      State(Done, [e], Draining(1, 2), None, [e]),
      State(Done, [e], Returned(2), None, [e])];
    RunInv(sc, cap, states, moves, 6);
  }

  /** Capacity 1 is what makes the protocol lossless: with any larger buffer
      some interleaving drops an error. */
  lemma LosslessExactly<V, E>(cap: nat, e: E)
    requires cap >= 1
    ensures (forall sc: Script<V, E>, states, moves :: !Loses(cap, sc, states, moves)) <==> cap == 1
  {
    if cap == 1 {
      forall sc: Script<V, E>, states, moves
        ensures !Loses(cap, sc, states, moves)
      {
        OneIsLossless(sc, states, moves);
      }
    } else {
      var sc: Script<V, E>, states, moves := TwoLoses(cap, e);
      assert Loses(cap, sc, states, moves);
    }
  }

  // ---- what broadcast and deliver return ----

  ghost function BroadcastScript(codes: seq<int>, end: End<StreamError>): Script<int, StreamError> {
    Script(seq(|codes|, i requires 0 <= i < |codes| => BroadcastItem(codes[i])), end)
  }

  ghost function DeliverScript<B>(messages: seq<DeliverMessage<B>>, end: End<StreamError>): Script<B, StreamError> {
    Script(seq(|messages|, i requires 0 <= i < |messages| => DeliverItem(messages[i])), end)
  }

  /** The codes other than SUCCESS, in order. */
  ghost function BadCodes(codes: seq<int>): seq<StreamError> {
    if codes == [] then []
    else (if codes[0] == STATUS_SUCCESS then [] else [ServerStatus(codes[0])]) + BadCodes(codes[1..])
  }

  ghost function StatusCodes<B>(messages: seq<DeliverMessage<B>>): seq<int> {
    if messages == [] then []
    else (if messages[0].Status? then [messages[0].code] else []) + StatusCodes(messages[1..])
  }

  ghost function Blocks<B>(messages: seq<DeliverMessage<B>>): seq<B> {
    if messages == [] then []
    else (if messages[0].Block? then [messages[0].block] else []) + Blocks(messages[1..])
  }

  ghost function Last<T>(s: seq<T>): Option<T> {
    if s == [] then None else Some(s[|s| - 1])
  }

  ghost function Responses<V, E>(items: seq<Item<V, E>>): seq<V> {
    if items == [] then []
    else (if items[0].Response? then [items[0].v] else []) + Responses(items[1..])
  }

  lemma {:induction false} ResponsesSnoc<V, E>(items: seq<Item<V, E>>, it: Item<V, E>)
    ensures Responses(items + [it]) == Responses(items) + (if it.Response? then [it.v] else [])
  {
    if items == [] {
      assert items + [it] == [it] && [it][1..] == [];
    } else {
      ResponsesSnoc(items[1..], it);
      assert (items + [it])[1..] == items[1..] + [it];
    }
  }

  lemma {:induction false} LastOfResponses<V, E>(items: seq<Item<V, E>>)
    ensures LastResponse(items) == Last(Responses(items))
  {
    if items != [] {
      var init, it := items[..|items| - 1], items[|items| - 1];
      LastOfResponses(init);
      ResponsesSnoc(init, it);
      assert items == init + [it];
    }
  }

  lemma {:induction false} BroadcastItems(codes: seq<int>)
    ensures Errors(BroadcastScript(codes, Eof).items) == BadCodes(codes)
    ensures var rs := Responses(BroadcastScript(codes, Eof).items);
            (rs != [] <==> STATUS_SUCCESS in codes) && forall i :: 0 <= i < |rs| ==> rs[i] == STATUS_SUCCESS
  {
    if codes != [] {
      BroadcastItems(codes[1..]);
      assert BroadcastScript(codes, Eof).items[1..] == BroadcastScript(codes[1..], Eof).items;
      assert codes == [codes[0]] + codes[1..];
    }
  }

  lemma {:induction false} DeliverItems<B>(messages: seq<DeliverMessage<B>>)
    ensures Errors(DeliverScript(messages, Eof).items) == BadCodes(StatusCodes(messages))
    ensures Responses(DeliverScript(messages, Eof).items) == Blocks(messages)
  {
    if messages != [] {
      DeliverItems(messages[1..]);
      assert DeliverScript(messages, Eof).items[1..] == DeliverScript(messages[1..], Eof).items;
      var codes := StatusCodes(messages[1..]);
      if messages[0].Status? {
        assert StatusCodes(messages) == [messages[0].code] + codes && ([messages[0].code] + codes)[1..] == codes;
      } else {
        assert StatusCodes(messages) == codes;
      }
    }
  }

  /** In every interleaving a broadcast returns SUCCESS if some response had it,
      and every other code in order, then the receive error, if any. */
  lemma BroadcastReturns(codes: seq<int>, end: End<StreamError>, states: seq<State<int, StreamError>>, moves: seq<Move>)
    requires IsRun(BroadcastScript(codes, end), 1, states, moves) && states[|moves|].consumer.Returned?
    ensures states[|moves|].last == if STATUS_SUCCESS in codes then Some(STATUS_SUCCESS) else None
    ensures states[|moves|].errs == BadCodes(codes) + EndErrors(end)
  {
    var sc := BroadcastScript(codes, end);
    Returns(sc, 1, states, moves);
    BroadcastItems(codes);
    LastOfResponses(sc.items);
    assert sc.items == BroadcastScript(codes, Eof).items;
  }

  /** In every interleaving a delivery returns the last block received, and every
      bad status in order, then the receive error, if any. */
  lemma DeliverReturns<B>(messages: seq<DeliverMessage<B>>, end: End<StreamError>,
                          states: seq<State<B, StreamError>>, moves: seq<Move>)
    requires IsRun(DeliverScript(messages, end), 1, states, moves) && states[|moves|].consumer.Returned?
    ensures states[|moves|].last == Last(Blocks(messages))
    ensures states[|moves|].errs == BadCodes(StatusCodes(messages)) + EndErrors(end)
  {
    var sc := DeliverScript(messages, end);
    Returns(sc, 1, states, moves);
    DeliverItems(messages);
    LastOfResponses(sc.items);
    assert sc.items == DeliverScript(messages, Eof).items;
  }

  // ---- the drain loop as code ----

  class ErrorChannel<E> {
    var buffered: seq<E>

    constructor (buffered: seq<E>)
      ensures this.buffered == buffered
    {
      this.buffered := buffered;
    }

    /** `for i := 0; i < len(errs); i++`: the bound shrinks as the loop runs. */
    method Drain(errs: seq<E>) returns (all: seq<E>)
      modifies this
      ensures var half := (|old(buffered)| + 1) / 2;
              all == errs + old(buffered)[..half] && buffered == old(buffered)[half..]
      ensures |buffered| == |old(buffered)| / 2
    {
      all := errs;
      var i := 0;
      ghost var was := buffered;
      while i < |buffered|
        invariant i + |buffered| == |was| && i <= |buffered| + 1
        invariant buffered == was[i..] && all == errs + was[..i]
        decreases |buffered|
      {
        assert was[..i + 1] == was[..i] + [buffered[0]] && was[i + 1..] == was[i..][1..];
        all := all + [buffered[0]];
        buffered := buffered[1..];
        i := i + 1;
      }
    }
  }
}
