/** What options, filters and the shuffle of the ledger client do, step by step, and
    what an answer says about the responses it was chosen from. */
module ClientLaws {
  import opened Options
  import opened MultiError
  import opened ChannelLedger
  import opened LedgerClient
  import Proposal
  import AnswerLaws
  import Shuffle

  /** Round n exchanges element n with the one drawn, and touches no other. */
  lemma ShuffleRound<T>(s: seq<T>, x: T, draws: nat -> nat)
    requires Shuffle.InRange(draws)
    ensures var (before, after, n) := (Shuffle.Shuffled(s, draws), Shuffle.Shuffled(s + [x], draws), |s|);
            && |before| == n && |after| == n + 1
            && after[draws(n)] == x
            && (draws(n) < n ==> after[n] == before[draws(n)])
            && forall k :: 0 <= k < n && k != draws(n) ==> after[k] == before[k]
  {
    assert (s + [x])[..|s|] == s && (s + [x])[|s|] == x;
    assert Shuffle.Shuffled(s + [x], draws) == Shuffle.Insert(Shuffle.Shuffled(s, draws), x, draws(|s|));
    Exchange(Shuffle.Shuffled(s, draws), x, draws(|s|));
    hide *;
  }

  lemma Exchange<T>(before: seq<T>, x: T, j: nat)
    requires j <= |before|
    ensures var (after, n) := (Shuffle.Insert(before, x, j), |before|);
            && |after| == n + 1 && after[j] == x
            && (j < n ==> after[n] == before[j])
            && forall k :: 0 <= k < n && k != j ==> after[k] == before[k]
  {
  }

  /** An option sets its own field and leaves the others; nothing is set at first. */
  lemma OptionSets<P, E>(options: seq<RequestOption<P, E>>, o: RequestOption<P, E>)
    requires AllValid(options) && !o.Invalid?
    ensures Given<P, E>([]).targets == null && Given<P, E>([]).filter.None?
    ensures Given<P, E>([]).max == 0 && Given<P, E>([]).min == 0
    ensures AllValid(options + [o])
    ensures var (before, after) := (Given(options), Given(options + [o]));
            && after.targets == (if o.WithTargets? then o.targets else before.targets)
            && after.filter == (if o.WithTargetFilter? then Some(o.filter) else before.filter)
            && after.max == (if o.WithMaxTargets? then o.max else before.max)
            && after.min == (if o.WithMinTargets? then o.min else before.min)
  {
    assert (options + [o])[..|options|] == options;
  }

  /** Unset bounds are 1; the maximum is the one given unless the minimum is higher. */
  lemma BoundsExactly<P>(given: RequestOptions<P>)
    ensures given.min == 0 ==> MinOf(given) == 1
    ensures given.min != 0 ==> MinOf(given) == given.min
    ensures var max := if given.max == 0 then 1 else given.max;
            (max >= MinOf(given) ==> MaxOf(given) == max) && (max < MinOf(given) ==> MaxOf(given) == MinOf(given))
  {
  }

  lemma {:induction false} FilterSplit<P>(a: seq<P>, b: seq<P>, accept: P -> bool)
    ensures Filter(a + b, accept) == Filter(a, accept) + Filter(b, accept)
  {
    if b == [] {
      assert a + b == a;
    } else {
      var init := b[..|b| - 1];
      FilterSplit(a, init, accept);
      assert (a + b)[..|a + b| - 1] == a + init && (a + b)[|a + b| - 1] == b[|b| - 1];
    }
  }

  lemma OnePeer<P>(p: P, accept: P -> bool)
    ensures Filter([p], accept) == if accept(p) then [p] else []
    ensures Filter([], accept) == []
  {
    assert [p][..0] == [];
  }

  /** Given targets are the candidates as they are. Discovered ones are candidates if
      the filter of the request accepts them or, without one, the client's. */
  lemma CandidatesExactly<P, E>(opts: RequestOptions<P>, discovered: Discovery<P, E>, clientFilter: P -> bool, p: P)
    requires opts.targets != null || discovered.Peers?
    ensures opts.targets != null ==> Candidates(opts, discovered, clientFilter) == opts.targets[..]
    ensures opts.targets == null && opts.filter.Some? ==>
              multiset(Candidates(opts, discovered, clientFilter))[p]
              == if opts.filter.value(p) then multiset(discovered.peers)[p] else 0
    ensures opts.targets == null && opts.filter.None? ==>
              multiset(Candidates(opts, discovered, clientFilter))[p]
              == if clientFilter(p) then multiset(discovered.peers)[p] else 0
  {
    if opts.targets == null {
      FilterExactly(discovered.peers, if opts.filter.Some? then opts.filter.value else clientFilter, p);
    }
  }

  /** Targets can be chosen when they are not given together with a filter, can be
      found, and are enough, at least one. */
  lemma ChoosesExactly<P, E>(opts: RequestOptions<P>, discovered: Discovery<P, E>, clientFilter: P -> bool)
    ensures CanChoose(opts, discovered, clientFilter) <==>
            && (opts.targets == null || opts.filter.None?)
            && (opts.targets != null || discovered.Peers?)
            && |Candidates(opts, discovered, clientFilter)| >= 1
            && |Candidates(opts, discovered, clientFilter)| >= opts.min
  {
  }

  /** A block is chosen exactly when there are enough, at least one, and all have
      the data of the first, which is the one chosen. */
  lemma BlockChosen<B, D, E>(blocks: seq<B>, min: int, data: B -> D, r: Choice<B, E>)
    requires BlockAnswer(blocks, min, data, r)
    ensures r.Chosen? <==>
            |blocks| >= 1 && |blocks| >= min && forall i :: 0 <= i < |blocks| ==> data(blocks[i]) == data(blocks[0])
    ensures r.Chosen? ==> r.response == blocks[0]
    ensures r.QueryFailed? <==> |blocks| == 0
    ensures r.Missing? <==> 1 <= |blocks| < min
  {
  }

  /** An information is chosen exactly when there are enough, at least one; none is
      higher than the one chosen, and none as high comes before it. */
  lemma InfoChosen<R, E>(infos: seq<R>, min: int, height: R -> nat, r: Choice<R, E>) returns (k: nat)
    requires InfoAnswer(infos, min, height, r)
    ensures r.Chosen? <==> |infos| >= 1 && |infos| >= min
    ensures r.Chosen? ==>
              && k < |infos| && infos[k] == r.response
              && (forall i :: 0 <= i < |infos| ==> height(infos[i]) <= height(infos[k]))
              && (forall i :: 0 <= i < k ==> height(infos[i]) < height(infos[k]))
    ensures r.QueryFailed? <==> |infos| == 0
  {
    k := 0;
    if r.Chosen? {
      k :| FirstHighest(infos, height, k) && infos[k] == r.response;
    }
  }

  /** A received response with status 200 that passes the check and decodes to `b`. */
  ghost predicate Yields<P, R, E>(check: Response<P> -> Option<E>, decode: Response<P> -> Decoded<R, E>,
                                  r: Response<P>, b: R)
  {
    r.status == 200 && check(r).None? && decode(r) == Decodes(b)
  }

  /** What is decoded under a signature verifier comes from such responses, and
      every such response counts. */
  lemma DecodedFrom<P, R, E>(net: Network<P, E>, received: seq<Response<P>>, decode: Response<P> -> Decoded<R, E>, b: R)
    requires net.verifier.Signature?
    ensures b in Decodable(net, received, decode) <==>
            exists r :: r in received && Yields(net.verifier.check, decode, r, b)
  {
    var kept := Kept(Some(net.verifier), received);
    assert net.verifier == Signature(net.verifier.check);
    AnswerLaws.ResultsMembers(kept, decode, b);
    forall r ensures r in kept <==> r in received && r.status == 200 && net.verifier.check(r).None? {
      AnswerLaws.KeptMembers(net.verifier.check, received, r);
    }
    if r :| r in received && Yields(net.verifier.check, decode, r, b) {
      assert r in kept && decode(r) == Decodes(b);
    }
    if b in Decodable(net, received, decode) {
      var r :| r in kept && decode(r) == Decodes(b);
      assert Yields(net.verifier.check, decode, r, b);
    }
  }

  /** Where a request can be sent, what is received is what the unique peers send,
      one call each; otherwise nothing. */
  lemma ReceivedFrom<P, E>(peers: seq<Proposal.Target>, net: Network<P, E>, received: seq<Response<P>>, r: Response<P>)
    requires Answers(peers, net, received)
    ensures net.setup.None? && net.signed.None? && peers != [] ==>
              (r in received <==>
                 exists i: nat :: i < |Proposal.Unique(peers)| && net.reply(i) == Proposal.Responded(r))
    ensures net.setup.Some? || net.signed.Some? || peers == [] ==> received == []
  {
    if net.setup.None? && net.signed.None? && peers != [] {
      var calls := Proposal.Calls(|Proposal.Unique(peers)|);
      var sent := Proposal.Responses(calls, net.reply);
      assert r in received <==> r in multiset(received);
      assert r in sent <==> r in multiset(sent);
      AnswerLaws.ResponsesOf(calls, net.reply, r);
      forall i: nat ensures i in calls <==> i < |Proposal.Unique(peers)| {
        if i < |Proposal.Unique(peers)| { assert calls[i] == i; }
      }
    }
  }
}
