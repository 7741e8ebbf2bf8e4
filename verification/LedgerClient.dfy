/** The ledger client (pkg/client/ledger): request options, target selection and
    the choice among the peers' answers. */
module LedgerClient {
  import opened Options
  import opened MultiError
  import opened ChannelLedger
  import Proposal
  import Shuffle

  const MIN_TARGETS := 1
  const MAX_TARGETS := 1

  /** `targets` aliases the caller's list. */
  datatype RequestOptions<!P> = RequestOptions(targets: array?<P>, filter: Option<P -> bool>, max: int, min: int)

  datatype RequestOption<!P, +E> =
    | WithTargets(targets: array<P>)
    | WithTargetFilter(filter: P -> bool)
    | WithMaxTargets(max: int)
    | WithMinTargets(min: int)
    | Invalid(error: E)

  datatype Prepared<!P, +E> = Prepared(opts: RequestOptions<P>) | BadOption(error: E)

  function Apply<P, E>(opts: RequestOptions<P>, o: RequestOption<P, E>): RequestOptions<P>
    requires !o.Invalid?
  {
    match o
    case WithTargets(t) => opts.(targets := t)
    case WithTargetFilter(f) => opts.(filter := Some(f))
    case WithMaxTargets(n) => opts.(max := n)
    case WithMinTargets(n) => opts.(min := n)
  }

  ghost predicate AllValid<P, E>(options: seq<RequestOption<P, E>>) {
    forall i :: 0 <= i < |options| ==> !options[i].Invalid?
  }

  /** The options as given, later ones overriding earlier ones. */
  ghost function Given<P, E>(options: seq<RequestOption<P, E>>): RequestOptions<P>
    requires AllValid(options)
  {
    if options == [] then RequestOptions(null, None, 0, 0)
    else Apply(Given(options[..|options| - 1]), options[|options| - 1])
  }

  ghost function OrDefault(n: int, default: int): int {
    if n == 0 then default else n
  }

  /** The bounds in force: the maximum is raised to the minimum. */
  ghost function MinOf<P>(given: RequestOptions<P>): int {
    OrDefault(given.min, MIN_TARGETS)
  }

  ghost function MaxOf<P>(given: RequestOptions<P>): int {
    var max := OrDefault(given.max, MAX_TARGETS);
    if max < MinOf(given) then MinOf(given) else max
  }

  /** The first invalid option is reported. Otherwise an unset bound is 1 and the
      maximum is raised to the minimum, never the minimum lowered. */
  method PrepareRequestOpts<P, E>(options: seq<RequestOption<P, E>>) returns (r: Prepared<P, E>)
    ensures r.Prepared? <==> AllValid(options)
    ensures r.BadOption? ==> exists i :: 0 <= i < |options| && options[i] == Invalid(r.error) && AllValid(options[..i])
    ensures r.Prepared? ==>
      var given := Given(options);
      && r.opts.targets == given.targets && r.opts.filter == given.filter
      && r.opts.min == MinOf(given) && r.opts.max == MaxOf(given)
      && r.opts.min <= r.opts.max
  {
    var opts: RequestOptions<P> := RequestOptions(null, None, 0, 0);
    for i := 0 to |options|
      invariant AllValid(options[..i])
      invariant opts == Given(options[..i])
    {
      assert options[..i + 1][..i] == options[..i];
      match options[i]
      case Invalid(e) => return BadOption(e);
      case WithTargets(t) => opts := opts.(targets := t);
      case WithTargetFilter(f) => opts := opts.(filter := Some(f));
      case WithMaxTargets(n) => opts := opts.(max := n);
      case WithMinTargets(n) => opts := opts.(min := n);
    }
    assert options[..|options|] == options;
    if opts.max == 0 {
      opts := opts.(max := MAX_TARGETS);
    }
    if opts.min == 0 {
      opts := opts.(min := MIN_TARGETS);
    }
    if opts.min > opts.max {
      opts := opts.(max := opts.min);
    }
    return Prepared(opts);
  }

  // ---- target selection -------------------------------------------------------

  datatype Discovery<P, E> = Peers(peers: seq<P>) | Unavailable(error: E)

  datatype Selection<P, E> =
    | Selected(peers: seq<P>)
    | TargetsAndFilter
    | DiscoveryFailed(error: E)
    | NoPeers
    | TooFew(available: nat, required: int)
    | NegativeCount

  ghost function Filter<P>(peers: seq<P>, accept: P -> bool): seq<P> {
    if peers == [] then []
    else Filter(peers[..|peers| - 1], accept) + (if accept(peers[|peers| - 1]) then [peers[|peers| - 1]] else [])
  }

  lemma {:induction false} FilterExactly<P>(peers: seq<P>, accept: P -> bool, p: P)
    ensures multiset(Filter(peers, accept))[p] == if accept(p) then multiset(peers)[p] else 0
  {
    if peers != [] {
      FilterExactly(peers[..|peers| - 1], accept, p);
      assert peers == peers[..|peers| - 1] + [peers[|peers| - 1]];
    }
  }

  method FilterTargets<P>(peers: seq<P>, accept: P -> bool) returns (filtered: seq<P>)
    ensures filtered == Filter(peers, accept)
  {
    filtered := [];
    for i := 0 to |peers|
      invariant filtered == Filter(peers[..i], accept)
    {
      assert peers[..i + 1][..i] == peers[..i];
      if accept(peers[i]) {
        filtered := filtered + [peers[i]];
      }
    }
    assert peers[..|peers|] == peers;
  }

  /** The peers to choose from: the caller's own, or the discovered ones that the
      request's filter accepts, or else the client's filter. */
  ghost function Candidates<P, E>(opts: RequestOptions<P>, discovered: Discovery<P, E>, clientFilter: P -> bool): seq<P>
    reads if opts.targets == null then {} else {opts.targets}
    requires opts.targets != null || discovered.Peers?
  {
    if opts.targets != null then opts.targets[..]
    else Filter(discovered.peers, if opts.filter.Some? then opts.filter.value else clientFilter)
  }

  ghost predicate CanChoose<P, E>(opts: RequestOptions<P>, discovered: Discovery<P, E>, clientFilter: P -> bool)
    reads if opts.targets == null then {} else {opts.targets}
  {
    && (opts.targets != null ==> opts.filter.None?)
    && (opts.targets == null ==> discovered.Peers?)
    && 0 < |Candidates(opts, discovered, clientFilter)|
    && opts.min <= |Candidates(opts, discovered, clientFilter)|
  }

  /** Shuffles the caller's own list in place when there is one. A negative count
      is a slice bound the source cannot take. */
  method CalculateTargets<P, E>(opts: RequestOptions<P>, discovered: Discovery<P, E>, clientFilter: P -> bool,
                                draws: nat -> nat)
    returns (r: Selection<P, E>)
    requires Shuffle.InRange(draws)
    modifies if opts.targets == null then {} else {opts.targets}
    ensures r.TargetsAndFilter? <==> opts.targets != null && opts.filter.Some?
    ensures r.DiscoveryFailed? <==> opts.targets == null && discovered.Unavailable?
    ensures r.Selected? <==> old(CanChoose(opts, discovered, clientFilter)) && opts.max >= 0
    ensures r.NegativeCount? <==> old(CanChoose(opts, discovered, clientFilter)) && opts.max < 0
    ensures r.NoPeers? ==> old(Candidates(opts, discovered, clientFilter)) == []
    ensures r.TooFew? ==>
      && r.required == opts.min
      && 0 < r.available == |old(Candidates(opts, discovered, clientFilter))| < opts.min
    ensures r.Selected? ==>
      var candidates := old(Candidates(opts, discovered, clientFilter));
      && multiset(r.peers) <= multiset(candidates)
      && |r.peers| == (if |candidates| < opts.max then |candidates| else opts.max)
      && r.peers == Shuffle.Shuffled(candidates, draws)[..|r.peers|]
      && (opts.min <= opts.max ==> opts.min <= |r.peers|)
      && (opts.max > 0 ==> r.peers != [])
    ensures opts.targets != null ==> multiset(opts.targets[..]) == old(multiset(opts.targets[..]))
    ensures opts.targets != null && !r.Selected? && !r.NegativeCount? ==> opts.targets[..] == old(opts.targets[..])
  {
    if opts.targets != null && opts.filter.Some? {
      return TargetsAndFilter;
    }
    var targets: array<P>;
    if opts.targets == null {
      if discovered.Unavailable? {
        return DiscoveryFailed(discovered.error);
      }
      var accepted := FilterTargets(discovered.peers, if opts.filter.Some? then opts.filter.value else clientFilter);
      targets := new P[|accepted|](i requires 0 <= i < |accepted| => accepted[i]);
      assert targets[..] == accepted;
    } else {
      targets := opts.targets;
    }
    if targets.Length == 0 {
      return NoPeers;
    }
    if targets.Length < opts.min {
      return Selection.TooFew(targets.Length, opts.min);
    }
    var count := if targets.Length < opts.max then targets.Length else opts.max;
    Shuffle.InPlace(targets, draws);
    if count < 0 {
      return NegativeCount;
    }
    Shuffle.PrefixBelow(targets[..], count);
    return Selected(targets[..count]);
  }

  ghost function Lists<P, E>(options: seq<RequestOption<P, E>>): set<array<P>> {
    set i | 0 <= i < |options| && options[i].WithTargets? :: options[i].targets
  }

  lemma {:induction false} GivenTargets<P, E>(options: seq<RequestOption<P, E>>)
    requires AllValid(options)
    ensures Given(options).targets == null || Given(options).targets in Lists(options)
  {
    if options != [] {
      var init, last := options[..|options| - 1], options[|options| - 1];
      GivenTargets(init);
      assert forall i :: 0 <= i < |init| ==> init[i] == options[i];
      assert Lists(init) <= Lists(options);
      assert last.WithTargets? ==> options[|options| - 1].targets in Lists(options);
    }
  }

  /** Whether targets can be chosen under the options given, defaults filled in. */
  ghost predicate CanPrepare<P, E>(options: seq<RequestOption<P, E>>, discovered: Discovery<P, E>,
                                   clientFilter: P -> bool)
    requires AllValid(options)
    reads var t := Given(options).targets; if t == null then {} else {t}
  {
    var given := Given(options);
    CanChoose(given.(min := MinOf(given)), discovered, clientFilter)
  }

  ghost predicate BothNegative<P, E>(options: seq<RequestOption<P, E>>)
    requires AllValid(options)
  {
    Given(options).min < 0 && Given(options).max < 0
  }

  /** Some of the candidates, at least one, within the bounds in force. */
  ghost predicate SelectedFrom<P, E>(options: seq<RequestOption<P, E>>, candidates: seq<P>, peers: seq<P>)
    requires AllValid(options)
  {
    && peers != [] && multiset(peers) <= multiset(candidates)
    && MinOf(Given(options)) <= |peers| <= MaxOf(Given(options))
  }

  lemma SameChoice<P, E>(a: RequestOptions<P>, b: RequestOptions<P>, discovered: Discovery<P, E>,
                         clientFilter: P -> bool)
    requires a.targets == b.targets && a.filter == b.filter && a.min == b.min
    ensures CanChoose(a, discovered, clientFilter) <==> CanChoose(b, discovered, clientFilter)
    ensures a.targets != null || discovered.Peers? ==>
              Candidates(a, discovered, clientFilter) == Candidates(b, discovered, clientFilter)
  {
  }

  /** A selection is made exactly when targets can be chosen, unless both bounds
      are negative, when it panics. It is not empty and respects both bounds.
      For an invalid option `r` says nothing. */
  method PrepareRequestParams<P, E>(options: seq<RequestOption<P, E>>, discovered: Discovery<P, E>,
                                    clientFilter: P -> bool, draws: nat -> nat)
    returns (opts: Prepared<P, E>, r: Selection<P, E>)
    requires Shuffle.InRange(draws)
    modifies Lists(options)
    ensures opts.Prepared? <==> AllValid(options)
    ensures AllValid(options) ==> var can := old(CanPrepare(options, discovered, clientFilter));
      && (r.Selected? <==> can && !BothNegative(options))
      && (r.NegativeCount? <==> can && BothNegative(options))
    ensures AllValid(options) ==>
      && (r.TargetsAndFilter? <==> Given(options).targets != null && Given(options).filter.Some?)
      && (r.DiscoveryFailed? <==> Given(options).targets == null && discovered.Unavailable?)
    ensures AllValid(options) && r.NoPeers? ==>
      && (Given(options).targets != null || discovered.Peers?)
      && old(Candidates(Given(options), discovered, clientFilter)) == []
    ensures AllValid(options) && r.TooFew? ==>
      && (Given(options).targets != null || discovered.Peers?)
      && r.required == MinOf(Given(options))
      && 0 < r.available == |old(Candidates(Given(options), discovered, clientFilter))| < r.required
    ensures AllValid(options) && r.Selected? ==>
      && (Given(options).targets != null || discovered.Peers?)
      && SelectedFrom(options, old(Candidates(Given(options), discovered, clientFilter)), r.peers)
    ensures opts.Prepared? ==> opts.opts.min == MinOf(Given(options))
    ensures opts.BadOption? ==> exists i :: 0 <= i < |options| && options[i] == Invalid(opts.error)
  {
    opts := PrepareRequestOpts(options);
    if opts.BadOption? {
      return opts, NoPeers;
    }
    GivenTargets(options);
    ghost var given := Given(options);
    SameChoice(opts.opts, given.(min := MinOf(given)), discovered, clientFilter);
    hide Given, CanChoose, Candidates, Filter, Lists;
    r := CalculateTargets(opts.opts, discovered, clientFilter, draws);
  }

  /** Two negative bounds and one discovered peer. */
  method NegativeBounds<P>(peer: P) returns (r: Selection<P, int>)
    ensures r.NegativeCount?
  {
    var options: seq<RequestOption<P, int>> := [WithMinTargets(-1), WithMaxTargets(-1)];
    assert options[..1] == [WithMinTargets(-1)] && options[..1][..0] == [];
    assert Given(options[..1]).min == -1;
    var accept := (p: P) => true;
    assert [peer][..0] == [];
    assert Filter([peer], accept) == [peer];
    var _, selection := PrepareRequestParams(options, Peers([peer]), accept, i => 0);
    r := selection;
  }

  // ---- choosing among the answers ---------------------------------------------

  datatype Choice<R, E> =
    | QueryFailed(errors: Error<Cause<E>>)
    | Missing(got: nat, required: int)
    | Differing
    | IndexOutOfRange
    | Chosen(response: R)

  ghost predicate FirstHighest<R>(responses: seq<R>, height: R -> nat, k: nat) {
    && k < |responses|
    && (forall j :: 0 <= j < |responses| ==> height(responses[j]) <= height(responses[k]))
    && (forall j :: 0 <= j < k ==> height(responses[j]) < height(responses[k]))
  }

  method Highest<R>(responses: seq<R>, height: R -> nat) returns (response: R)
    requires responses != []
    ensures exists k: nat :: FirstHighest(responses, height, k) && responses[k] == response
  {
    var maxHeight := height(responses[0]);
    response := responses[0];
    ghost var k := 0;
    for i := 0 to |responses|
      invariant if i == 0 then k == 0 else k < i
      invariant k < |responses| && response == responses[k] && maxHeight == height(response)
      invariant forall j :: 0 <= j < i ==> height(responses[j]) <= maxHeight
      invariant forall j :: 0 <= j < k ==> height(responses[j]) < maxHeight
    {
      if i == 0 {
        continue;
      }
      if height(responses[i]) > maxHeight {
        response, maxHeight := responses[i], height(responses[i]);
        k := i;
      }
    }
    assert FirstHighest(responses, height, k);
  }

  /** The answer to an information query that got `infos`: the first of the highest. */
  ghost predicate InfoAnswer<R, E>(infos: seq<R>, min: int, height: R -> nat, r: Choice<R, E>) {
    if infos == [] then r.QueryFailed? && !r.errors.NoError?
    else if |infos| < min then r == Missing(|infos|, min)
    else r.Chosen? && exists k: nat :: FirstHighest(infos, height, k) && infos[k] == r.response
  }

  /** What lies between a client and its peers: the error met before sending, the
      error of signing, what the call to the i-th unique peer returns, the verifier. */
  datatype Network<!P, !E> = Network(
    setup: Option<E>, signed: Option<Cause<E>>,
    reply: nat -> Proposal.Reply<Response<P>, Cause<E>>, verifier: Verifier<P, E>)

  /** Response 0 is read even under a negative minimum; it exists, because a query
      without responses has errors. */
  method AskInfo<P, R, E>(peers: seq<Proposal.Target>, net: Network<P, E>, decode: Response<P> -> Decoded<R, E>,
                          min: int, height: R -> nat)
    returns (r: Choice<R, E>)
    ensures exists received ::
              Answers(peers, net, received) && InfoAnswer(Decodable(net, received, decode), min, height, r)
  {
    var infos, errs, _, received, failed :=
      ChannelLedger.QueryInfo(net.setup, AsTargets(peers), net.signed, net.reply, Some(net.verifier), decode);
    AnswersOf(peers, net, received, failed);
    assert infos == Decodable(net, received, decode);
    if !errs.NoError? && |infos| == 0 {
      return Choice.QueryFailed(errs);
    }
    if |infos| < min {
      return Missing(|infos|, min);
    }
    var response := Highest(infos, height);
    return Chosen(response);
  }

  function AsTargets(peers: seq<Proposal.Target>): seq<Option<Proposal.Target>> {
    seq(|peers|, i requires 0 <= i < |peers| => Some(peers[i]))
  }

  /** `received` is what the unique peers answered, once each; nothing when the
      request could not be sent. */
  ghost predicate Answers<P, E>(peers: seq<Proposal.Target>, net: Network<P, E>, received: seq<Response<P>>) {
    if net.setup.Some? || peers == [] || net.signed.Some? then received == []
    else
      multiset(received) == multiset(Proposal.Responses(Proposal.Calls(|Proposal.Unique(peers)|), net.reply))
  }

  /** What is left of the answers after status, verification and decoding. */
  ghost function Decodable<P, R, E>(net: Network<P, E>, received: seq<Response<P>>,
                                    decode: Response<P> -> Decoded<R, E>): seq<R>
  {
    Results(Kept(Some(net.verifier), received), decode)
  }

  lemma AnswersOf<P, E>(peers: seq<Proposal.Target>, net: Network<P, E>, received: seq<Response<P>>,
                        failed: seq<Cause<E>>)
    requires var targets := AsTargets(peers);
             if CanAsk(net.setup, targets, net.signed) then
               AskedAll(targets, net.reply, |Proposal.Unique(Proposal.Processors(targets))|, received, failed)
             else received == []
    ensures Answers(peers, net, received)
  {
    assert Proposal.Processors(AsTargets(peers)) == peers;
  }

  ghost predicate SameData<B, D>(blocks: seq<B>, data: B -> D) {
    forall i, j :: 0 <= i < |blocks| && 0 <= j < |blocks| ==> data(blocks[i]) == data(blocks[j])
  }

  /** Comparing every block with the first decides agreement of any two. Under a
      minimum below one an empty list has no first block. */
  method MatchBlockData<B, D(==), E>(responses: seq<B>, min: int, data: B -> D) returns (r: Choice<B, E>)
    ensures if |responses| < min then r == Missing(|responses|, min)
            else if responses == [] then r.IndexOutOfRange?
            else if SameData(responses, data) then r == Chosen(responses[0])
            else r.Differing?
  {
    if |responses| < min {
      return Missing(|responses|, min);
    }
    if |responses| == 0 {
      return IndexOutOfRange;
    }
    var response := responses[0];
    for i := 0 to |responses|
      invariant forall j :: 0 <= j < i ==> data(responses[j]) == data(response)
    {
      if i == 0 {
        continue;
      }
      if data(response) != data(responses[i]) {
        return Differing;
      }
    }
    return Chosen(response);
  }

  /** The answer to a block query that got `blocks`: they must be enough, and all
      have the data of the first. */
  ghost predicate BlockAnswer<B, D, E>(blocks: seq<B>, min: int, data: B -> D, r: Choice<B, E>) {
    if blocks == [] then r.QueryFailed? && !r.errors.NoError?
    else if |blocks| < min then r == Missing(|blocks|, min)
    else if SameData(blocks, data) then r == Chosen(blocks[0])
    else r.Differing?
  }

  method AskBlock<P, B, D(==), E>(peers: seq<Proposal.Target>, net: Network<P, E>,
                                  decode: Response<P> -> Decoded<B, E>, min: int, data: B -> D)
    returns (r: Choice<B, E>)
    ensures exists received ::
              Answers(peers, net, received) && BlockAnswer(Decodable(net, received, decode), min, data, r)
  {
    var blocks, errs, _, received, failed :=
      ChannelLedger.QueryBlock(net.setup, AsTargets(peers), net.signed, net.reply, Some(net.verifier), decode);
    AnswersOf(peers, net, received, failed);
    assert blocks == Decodable(net, received, decode);
    if !errs.NoError? && |blocks| == 0 {
      return Choice.QueryFailed(errs);
    }
    r := MatchBlockData(blocks, min, data);
  }

  // ---- from options to answer -------------------------------------------------

  datatype Outcome<R, E> = BadRequest(error: E) | Unserved | Panics | Answered(choice: Choice<R, E>)

  type Peer = Proposal.Target

  /** When a request gets as far as asking peers, and how it ends otherwise. */
  ghost predicate Reaches<R, E>(options: seq<RequestOption<Peer, E>>, can: bool, r: Outcome<R, E>) {
    if !AllValid(options) then r.BadRequest? && exists i :: 0 <= i < |options| && options[i] == Invalid(r.error)
    else if !can then r.Unserved?
    else if BothNegative(options) then r.Panics?
    else r.Answered?
  }

  /** The information of the first of the highest among at least the minimum of
      answers, each from a selected candidate. */
  method QueryInfo<P, R, E>(options: seq<RequestOption<Peer, E>>, discovered: Discovery<Peer, E>,
                            clientFilter: Peer -> bool, draws: nat -> nat, net: Network<P, E>,
                            decode: Response<P> -> Decoded<R, E>, height: R -> nat)
    returns (r: Outcome<R, E>)
    requires Shuffle.InRange(draws)
    modifies Lists(options)
    ensures Reaches(options, AllValid(options) && old(CanPrepare(options, discovered, clientFilter)), r)
    ensures r.Answered? ==>
      && AllValid(options) && (Given(options).targets != null || discovered.Peers?)
      && exists peers, received ::
           && SelectedFrom(options, old(Candidates(Given(options), discovered, clientFilter)), peers)
           && Answers(peers, net, received)
           && InfoAnswer(Decodable(net, received, decode), MinOf(Given(options)), height, r.choice)
  {
    var opts, selection := PrepareRequestParams(options, discovered, clientFilter, draws);
    if opts.BadOption? {
      return BadRequest(opts.error);
    }
    match selection
    case Selected(peers) =>
      var choice := AskInfo(peers, net, decode, opts.opts.min, height);
      r := Answered(choice);
    case NegativeCount => r := Panics;
    case _ => r := Unserved;
  }

  /** The first block, when at least the minimum of answers came, each from a
      selected candidate, and any two of them have the same data. */
  method QueryBlock<P, B, D(==), E>(options: seq<RequestOption<Peer, E>>, discovered: Discovery<Peer, E>,
                                    clientFilter: Peer -> bool, draws: nat -> nat, net: Network<P, E>,
                                    decode: Response<P> -> Decoded<B, E>, data: B -> D)
    returns (r: Outcome<B, E>)
    requires Shuffle.InRange(draws)
    modifies Lists(options)
    ensures Reaches(options, AllValid(options) && old(CanPrepare(options, discovered, clientFilter)), r)
    ensures r.Answered? ==>
      && AllValid(options) && (Given(options).targets != null || discovered.Peers?)
      && exists peers, received ::
           && SelectedFrom(options, old(Candidates(Given(options), discovered, clientFilter)), peers)
           && Answers(peers, net, received)
           && BlockAnswer(Decodable(net, received, decode), MinOf(Given(options)), data, r.choice)
  {
    var opts, selection := PrepareRequestParams(options, discovered, clientFilter, draws);
    if opts.BadOption? {
      return BadRequest(opts.error);
    }
    match selection
    case Selected(peers) =>
      var choice := AskBlock(peers, net, decode, opts.opts.min, data);
      r := Answered(choice);
    case NegativeCount => r := Panics;
    case _ => r := Unserved;
  }
}
