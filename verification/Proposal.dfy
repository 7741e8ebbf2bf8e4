/** Sending a transaction proposal to several peers at once (txn/proposal.go). */
module Proposal {
  import opened MultiError
  import opened Options

  /** A ProposalProcessor: a peer, known by its URL, or any other implementation. */
  datatype Target = Peer(url: string, id: nat) | Other(id: nat)

  datatype Reply<R, E> = Responded(response: R) | Failed(error: E)

  datatype SendResult<R, E> =
    | ProposalRequired
    | TargetsRequired
    | NilTarget
    | NotSigned(reason: E)
    | Sent(responses: seq<R>, errors: Error<E>)

  // ---- de-duplication ---------------------------------------------------------

  ghost predicate AllPeers(targets: seq<Target>) {
    forall i :: 0 <= i < |targets| ==> targets[i].Peer?
  }

  ghost predicate IsFirst(targets: seq<Target>, i: nat)
    requires AllPeers(targets) && i < |targets|
  {
    forall j :: 0 <= j < i ==> targets[j].url != targets[i].url
  }

  /** The first target of each URL among the first `n`, in order. */
  ghost function Firsts(targets: seq<Target>, n: nat): (u: seq<Target>)
    requires AllPeers(targets) && n <= |targets|
    ensures |u| <= n && AllPeers(u)
  {
    if n == 0 then []
    else Firsts(targets, n - 1) + (if IsFirst(targets, n - 1) then [targets[n - 1]] else [])
  }

  ghost function Unique(targets: seq<Target>): seq<Target> {
    if AllPeers(targets) then Firsts(targets, |targets|) else targets
  }

  ghost predicate DistinctUrls(targets: seq<Target>)
    requires AllPeers(targets)
  {
    forall i, j :: 0 <= i < j < |targets| ==> targets[i].url != targets[j].url
  }

  ghost predicate Lists(targets: seq<Target>, url: string)
    requires AllPeers(targets)
  {
    exists i :: 0 <= i < |targets| && targets[i].url == url
  }

  lemma {:induction false} FirstsMeaning(targets: seq<Target>, n: nat)
    requires AllPeers(targets) && n <= |targets|
    ensures DistinctUrls(Firsts(targets, n))
    ensures forall u :: Lists(Firsts(targets, n), u) <==> Lists(targets[..n], u)
  {
    if n > 0 {
      FirstsMeaning(targets, n - 1);
      var before, last := Firsts(targets, n - 1), targets[n - 1];
      assert targets[..n] == targets[..n - 1] + [last];
      assert IsFirst(targets, n - 1) <==> !Lists(targets[..n - 1], last.url) by {
        forall j | 0 <= j < n - 1 ensures targets[..n - 1][j] == targets[j] {}
      }
      forall u
        ensures Lists(Firsts(targets, n), u) <==> Lists(targets[..n], u)
      {
        ListsSnoc(targets[..n - 1], last, u);
        ListsSnoc(before, last, u);
        assert !IsFirst(targets, n - 1) ==> Firsts(targets, n) == before;
      }
    }
  }

  lemma {:induction false} FirstsOfDistinct(targets: seq<Target>, n: nat)
    requires AllPeers(targets) && n <= |targets| && DistinctUrls(targets)
    ensures Firsts(targets, n) == targets[..n]
  {
    if n > 0 {
      FirstsOfDistinct(targets, n - 1);
    }
  }

  lemma ListsSnoc(s: seq<Target>, t: Target, u: string)
    requires AllPeers(s) && t.Peer?
    ensures Lists(s + [t], u) <==> Lists(s, u) || t.url == u
  {
    if Lists(s, u) {
      var i :| 0 <= i < |s| && s[i].url == u;
      assert (s + [t])[i].url == u;
    }
    if t.url == u {
      assert (s + [t])[|s|].url == u;
    }
  }

  /** De-duplication is idempotent; over peers it leaves one target for each URL
      that was listed, and over anything else it changes nothing. */
  lemma UniqueMeaning(targets: seq<Target>)
    ensures Unique(Unique(targets)) == Unique(targets)
    ensures !AllPeers(targets) ==> Unique(targets) == targets
    ensures AllPeers(targets) ==>
      && AllPeers(Unique(targets)) && DistinctUrls(Unique(targets))
      && forall u :: Lists(Unique(targets), u) <==> Lists(targets, u)
    ensures targets != [] ==> Unique(targets) != []
  {
    if AllPeers(targets) {
      var u := Unique(targets);
      FirstsMeaning(targets, |targets|);
      assert targets[..|targets|] == targets;
      FirstsOfDistinct(u, |u|);
      assert u[..|u|] == u;
      if targets != [] {
        assert Lists(targets, targets[0].url);
      }
    }
  }

  method GetTargetsWithoutDuplicates(targets: seq<Target>) returns (unique: seq<Target>)
    ensures unique == Unique(targets)
  {
    var seen: map<string, Target> := map[];
    unique := [];
    for i := 0 to |targets|
      invariant forall j :: 0 <= j < i ==> targets[j].Peer?
      invariant AllPeers(targets) ==> unique == Firsts(targets, i)
      invariant forall u :: u in seen <==> exists j :: 0 <= j < i && targets[j].url == u
    {
      if !targets[i].Peer? {
        return targets;
      }
      if targets[i].url !in seen {
        unique := unique + [targets[i]];
        seen := seen[targets[i].url := targets[i]];
      }
    }
  }

  // ---- the concurrent gather --------------------------------------------------

  ghost function Response<R, E>(r: Reply<R, E>): seq<R> {
    if r.Responded? then [r.response] else []
  }

  ghost function Failure<R, E>(r: Reply<R, E>): seq<E> {
    if r.Failed? then [r.error] else []
  }

  /** What the listed calls send back, successes and failures apart. */
  ghost function Responses<R, E>(calls: seq<nat>, reply: nat -> Reply<R, E>): seq<R> {
    if calls == [] then [] else Response(reply(calls[0])) + Responses(calls[1..], reply)
  }

  ghost function Failures<R, E>(calls: seq<nat>, reply: nat -> Reply<R, E>): seq<E> {
    if calls == [] then [] else Failure(reply(calls[0])) + Failures(calls[1..], reply)
  }

  lemma Associative<T>(a: seq<T>, b: seq<T>, c: seq<T>)
    ensures (a + b) + c == a + (b + c)
  {
  }

  lemma ResponsesFirst<R, E>(a: seq<nat>, b: seq<nat>, reply: nat -> Reply<R, E>)
    requires a != []
    ensures Responses(a + b, reply) == Response(reply(a[0])) + Responses(a[1..] + b, reply)
  {
    assert (a + b)[0] == a[0] && (a + b)[1..] == a[1..] + b;
  }

  lemma {:induction false} ResponsesConcat<R, E>(a: seq<nat>, b: seq<nat>, reply: nat -> Reply<R, E>)
    ensures Responses(a + b, reply) == Responses(a, reply) + Responses(b, reply)
  {
    if a == [] {
      assert a + b == b;
    } else {
      hide Response;
      assert Responses(a, reply) == Response(reply(a[0])) + Responses(a[1..], reply);
      hide *;
      ResponsesFirst(a, b, reply);
      ResponsesConcat(a[1..], b, reply);
      Associative(Response(reply(a[0])), Responses(a[1..], reply), Responses(b, reply));
    }
  }

  lemma FailuresFirst<R, E>(a: seq<nat>, b: seq<nat>, reply: nat -> Reply<R, E>)
    requires a != []
    ensures Failures(a + b, reply) == Failure(reply(a[0])) + Failures(a[1..] + b, reply)
  {
    assert (a + b)[0] == a[0] && (a + b)[1..] == a[1..] + b;
  }

  lemma {:induction false} FailuresConcat<R, E>(a: seq<nat>, b: seq<nat>, reply: nat -> Reply<R, E>)
    ensures Failures(a + b, reply) == Failures(a, reply) + Failures(b, reply)
  {
    if a == [] {
      assert a + b == b;
    } else {
      hide Failure;
      assert Failures(a, reply) == Failure(reply(a[0])) + Failures(a[1..], reply);
      hide *;
      FailuresFirst(a, b, reply);
      FailuresConcat(a[1..], b, reply);
      Associative(Failure(reply(a[0])), Failures(a[1..], reply), Failures(b, reply));
    }
  }

  lemma {:induction false} OneReplyEach<R, E>(calls: seq<nat>, reply: nat -> Reply<R, E>)
    ensures |Responses(calls, reply)| + |Failures(calls, reply)| == |calls|
  {
    if calls != [] {
      OneReplyEach(calls[1..], reply);
    }
  }

  /** Taking one call out of a list takes exactly its reply out of the gathered ones. */
  lemma GatherWithout<R, E>(front: seq<nat>, call: nat, back: seq<nat>, reply: nat -> Reply<R, E>)
    ensures multiset(Responses(front + [call] + back, reply))
         == multiset(Responses(front + back, reply)) + multiset(Response(reply(call)))
    ensures multiset(Failures(front + [call] + back, reply))
         == multiset(Failures(front + back, reply)) + multiset(Failure(reply(call)))
  {
    ResponsesConcat(front + [call], back, reply);
    ResponsesConcat(front, [call], reply);
    ResponsesConcat(front, back, reply);
    assert Responses([call], reply) == Response(reply(call));
    FailuresConcat(front + [call], back, reply);
    FailuresConcat(front, [call], reply);
    FailuresConcat(front, back, reply);
    assert Failures([call], reply) == Failure(reply(call));
    hide *;
    MiddleOut(Responses(front, reply), Response(reply(call)), Responses(back, reply));
    MiddleOut(Failures(front, reply), Failure(reply(call)), Failures(back, reply));
  }

  lemma MiddleOut<T>(a: seq<T>, b: seq<T>, c: seq<T>)
    ensures multiset(a + b + c) == multiset(a + c) + multiset(b)
  {
  }

  function Calls(n: nat): seq<nat> {
    seq(n, i => i)
  }

  ghost function Processors(targets: seq<Option<Target>>): seq<Target>
    requires None !in targets
  {
    seq(|targets|, i requires 0 <= i < |targets| => targets[i].value)
  }

  /** `reply(i)` is what the call to the i-th unique target returns, `signed` the
      error of signing, if any. The goroutines complete in any order. */
  method SendProposal<R, E>(hasProposal: bool, targets: seq<Option<Target>>, signed: Option<E>,
                            reply: nat -> Reply<R, E>)
    returns (r: SendResult<R, E>, ghost unique: seq<Target>)
    ensures r.ProposalRequired? <==> !hasProposal
    ensures r.TargetsRequired? <==> hasProposal && targets == []
    ensures r.NilTarget? <==> hasProposal && None in targets
    ensures r.NotSigned? <==> hasProposal && targets != [] && None !in targets && signed.Some?
    ensures r.NotSigned? ==> r.reason == signed.value
    ensures r.Sent? ==>
      && |unique| > 0 && None !in targets
      && unique == Unique(Processors(targets))
      && multiset(r.responses) == multiset(Responses(Calls(|unique|), reply))
      && multiset(Causes(r.errors)) == multiset(Failures(Calls(|unique|), reply))
      && |r.responses| + |Causes(r.errors)| == |unique|
      && Proper(r.errors)
  {
    unique := [];
    if !hasProposal {
      return ProposalRequired, unique;
    }
    if |targets| < 1 {
      return TargetsRequired, unique;
    }
    var processors: seq<Target> := [];
    for i := 0 to |targets|
      invariant |processors| == i
      invariant forall j :: 0 <= j < i ==> targets[j] == Some(processors[j])
    {
      if targets[i].None? {
        return NilTarget, unique;
      }
      processors := processors + [targets[i].value];
    }
    var called := GetTargetsWithoutDuplicates(processors);
    unique := called;
    assert processors == Processors(targets);
    UniqueMeaning(processors);
    if signed.Some? {
      return NotSigned(signed.value), unique;
    }
    var responses, errs := Gather(|called|, reply);
    r := Sent(responses, errs);
  }

  ghost predicate SplitInto<T>(all: seq<T>, gathered: seq<T>, pending: seq<T>) {
    multiset(gathered) + multiset(pending) == multiset(all)
  }

  lemma Moves<T>(all: seq<T>, gathered: seq<T>, pending: seq<T>, one: seq<T>, rest: seq<T>)
    requires SplitInto(all, gathered, pending) && multiset(pending) == multiset(rest) + multiset(one)
    ensures SplitInto(all, gathered + one, rest)
  {
  }

  /** The calls in `running` have not answered yet; all others are gathered. */
  ghost predicate Gathered<R, E>(n: nat, reply: nat -> Reply<R, E>, running: seq<nat>,
                                 responses: seq<R>, errs: seq<Error<E>>)
  {
    && SplitInto(Responses(Calls(n), reply), responses, Responses(running, reply))
    && SplitInto(Failures(Calls(n), reply), CausesOf(errs), Failures(running, reply))
    && |CausesOf(errs)| == |errs|
  }

  lemma GatherStarts<R, E>(n: nat, reply: nat -> Reply<R, E>)
    ensures Gathered(n, reply, Calls(n), [], [])
  {
  }

  lemma GatherTurn<R, E>(n: nat, reply: nat -> Reply<R, E>, front: seq<nat>, call: nat, back: seq<nat>,
                         responses: seq<R>, errs: seq<Error<E>>)
    requires Gathered(n, reply, front + [call] + back, responses, errs)
    ensures reply(call).Responded? ==> Gathered(n, reply, front + back, responses + [reply(call).response], errs)
    ensures reply(call).Failed? ==> Gathered(n, reply, front + back, responses, errs + [Single(reply(call).error)])
  {
    var running, rest, answer := front + [call] + back, front + back, reply(call);
    GatherWithout(front, call, back, reply);
    Moves(Responses(Calls(n), reply), responses, Responses(running, reply), Response(answer), Responses(rest, reply));
    Moves(Failures(Calls(n), reply), CausesOf(errs), Failures(running, reply), Failure(answer), Failures(rest, reply));
    hide Responses, Failures, Calls, SplitInto;
    if answer.Responded? {
      assert CausesOf(errs) + [] == CausesOf(errs);
    } else {
      CausesOfConcat(errs, [Single(answer.error)]);
      assert CausesOf([Single(answer.error)]) == [answer.error];
      assert responses + [] == responses;
    }
  }

  lemma SameMultisetSameSize<T>(a: seq<T>, b: seq<T>)
    requires multiset(a) == multiset(b)
    ensures |a| == |b|
  {
    assert |multiset(a)| == |multiset(b)|;
  }

  lemma GatherEnds<R, E>(n: nat, reply: nat -> Reply<R, E>, responses: seq<R>, errs: seq<Error<E>>)
    requires Gathered(n, reply, [], responses, errs)
    ensures multiset(responses) == multiset(Responses(Calls(n), reply))
    ensures multiset(Causes(ToError(errs))) == multiset(Failures(Calls(n), reply))
    ensures |responses| + |Causes(ToError(errs))| == n
    ensures Proper(ToError(errs))
  {
    ToErrorKeeps(errs);
    OneReplyEach(Calls(n), reply);
    assert Responses([], reply) == [] && Failures([], reply) == [];
    hide Responses, Failures;
    SameMultisetSameSize(responses, Responses(Calls(n), reply));
    SameMultisetSameSize(CausesOf(errs), Failures(Calls(n), reply));
  }

  /** The goroutines of SendProposal: each appends its reply under the lock,
      whichever comes next. */
  method Gather<R, E>(n: nat, reply: nat -> Reply<R, E>)
    returns (responses: seq<R>, errors: Error<E>)
    ensures multiset(responses) == multiset(Responses(Calls(n), reply))
    ensures multiset(Causes(errors)) == multiset(Failures(Calls(n), reply))
    ensures |responses| + |Causes(errors)| == n
    ensures Proper(errors)
  {
    hide *;
    var running := Calls(n);
    responses := [];
    var errs: seq<Error<E>> := [];
    GatherStarts(n, reply);
    while running != []
      invariant Gathered(n, reply, running, responses, errs)
      decreases |running|
    {
      var k: nat :| k < |running|;
      assert running == running[..k] + [running[k]] + running[k + 1..];
      GatherTurn(n, reply, running[..k], running[k], running[k + 1..], responses, errs);
      match reply(running[k]) {
        case Responded(response) => responses := responses + [response];
        case Failed(e) => errs := errs + [Single(e)];
      }
      running := running[..k] + running[k + 1..];
    }
    errors := ToError(errs);
    GatherEnds(n, reply, responses, errs);
  }
}
