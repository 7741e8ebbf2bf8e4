/** What errors, targets, replies, kept responses and agreement consist of. A list
    is fixed by a law that splits it anywhere and one that says what a single
    element contributes. */
module AnswerLaws {
  import opened MultiError
  import opened Options
  import opened ChannelLedger
  import Proposal

  // ---- errors -----------------------------------------------------------------

  /** Nil is neutral; two errors make a list; a list grows at its end by one error,
      which may be a list itself. */
  lemma AppendExactly<E>(a: Error<E>, b: Error<E>)
    ensures a.NoError? ==> Append(a, b) == b
    ensures b.NoError? ==> Append(a, b) == a
    ensures a.Single? && !b.NoError? ==> Append(a, b) == Several([a, b])
    ensures a.Several? && !b.NoError? ==> Append(a, b) == Several(a.list + [b])
  {
    var l := [a, b];
    assert l[1..] == [b] && [b][1..] == [] && NonNil<E>([]) == [];
    assert NonNil([b]) == if b.NoError? then [] else [b];
    assert NonNil(l) == (if a.NoError? then [] else [a]) + NonNil([b]);
  }

  lemma ToErrorExactly<E>(l: seq<Error<E>>)
    ensures l == [] ==> ToError(l) == NoError
    ensures |l| == 1 ==> ToError(l) == l[0]
    ensures |l| > 1 ==> ToError(l) == Several(l)
  {
  }

  lemma CausesExactly<E>(l: seq<Error<E>>, e: Error<E>, cause: E)
    ensures Causes<E>(NoError) == [] && Causes(Single(cause)) == [cause] && Causes<E>(Several([])) == []
    ensures Causes(Several(l + [e])) == Causes(Several(l)) + Causes(e)
  {
    CausesOfConcat(l, [e]);
    assert CausesOf([e]) == Causes(e) + CausesOf([]);
  }

  // ---- targets and replies ----------------------------------------------------

  /** No target before the i-th has its URL. */
  ghost predicate NewAt(targets: seq<Proposal.Target>, i: nat)
    requires Proposal.AllPeers(targets)
  {
    i < |targets| && forall j :: 0 <= j < i ==> targets[j].url != targets[i].url
  }

  /** De-duplication keeps, in their order, exactly the targets that are the first
      with their URL. */
  lemma {:induction false} FirstsKept(targets: seq<Proposal.Target>, n: nat) returns (at: seq<nat>)
    requires Proposal.AllPeers(targets) && n <= |targets|
    ensures |at| == |Proposal.Firsts(targets, n)|
    ensures forall j, k :: 0 <= j < k < |at| ==> at[j] < at[k]
    ensures forall k :: 0 <= k < |at| ==> at[k] < n && Proposal.Firsts(targets, n)[k] == targets[at[k]]
    ensures forall i: nat :: i in at <==> i < n && NewAt(targets, i)
  {
    at := [];
    if n > 0 {
      at := FirstsKept(targets, n - 1);
      if NewAt(targets, n - 1) {
        at := at + [n - 1];
      }
    }
  }

  lemma UniqueKeepsFirsts(targets: seq<Proposal.Target>) returns (at: seq<nat>)
    requires Proposal.AllPeers(targets)
    ensures |at| == |Proposal.Unique(targets)|
    ensures forall j, k :: 0 <= j < k < |at| ==> at[j] < at[k]
    ensures forall k :: 0 <= k < |at| ==> at[k] < |targets| && Proposal.Unique(targets)[k] == targets[at[k]]
    ensures forall i: nat :: i in at <==> NewAt(targets, i)
  {
    at := FirstsKept(targets, |targets|);
  }

  /** One call contributes its response or its error, and calls are numbered from 0. */
  lemma OneReply<R, E>(call: nat, reply: nat -> Proposal.Reply<R, E>, n: nat)
    ensures reply(call).Responded? ==>
              && Proposal.Responses([call], reply) == [reply(call).response] && Proposal.Failures([call], reply) == []
    ensures reply(call).Failed? ==>
              && Proposal.Responses([call], reply) == [] && Proposal.Failures([call], reply) == [reply(call).error]
    ensures |Proposal.Calls(n)| == n && forall i :: 0 <= i < n ==> Proposal.Calls(n)[i] == i
    ensures Proposal.Responses([], reply) == [] && Proposal.Failures([], reply) == []
  {
  }

  /** The responses gathered are those that the calls give, and no others. */
  lemma {:induction false} ResponsesOf<R, E>(calls: seq<nat>, reply: nat -> Proposal.Reply<R, E>, r: R)
    ensures r in Proposal.Responses(calls, reply) <==> exists i :: i in calls && reply(i) == Proposal.Responded(r)
  {
    if calls != [] {
      ResponsesOf(calls[1..], reply, r);
      assert calls == [calls[0]] + calls[1..];
    }
  }

  lemma ProcessorsExactly(targets: seq<Option<Proposal.Target>>)
    requires None !in targets
    ensures |Proposal.Processors(targets)| == |targets|
    ensures forall i :: 0 <= i < |targets| ==> Some(Proposal.Processors(targets)[i]) == targets[i]
  {
  }

  // ---- filtering --------------------------------------------------------------

  lemma {:induction false} KeptSplit<P, E>(v: Option<Verifier<P, E>>, a: seq<Response<P>>, b: seq<Response<P>>)
    ensures Kept(v, a + b) == Kept(v, a) + Kept(v, b)
    ensures Complaints(v, a + b) == Complaints(v, a) + Complaints(v, b)
  {
    hide Accepts, Complaint;
    if b == [] {
      assert a + b == a;
    } else {
      var init := b[..|b| - 1];
      KeptSplit(v, a, init);
      assert (a + b)[..|a + b| - 1] == a + init && (a + b)[|a + b| - 1] == b[|b| - 1];
    }
  }

  /** Under a signature verifier a response is kept when its status is 200 and the
      check passes; otherwise the status, or what the check says, is reported. */
  lemma SignatureChecks<P, E>(check: Response<P> -> Option<E>, r: Response<P>)
    ensures var v := Some(Signature(check));
            && (r.status == 200 && check(r).None? ==> Kept(v, [r]) == [r] && Complaints(v, [r]) == [])
            && (r.status == 200 && check(r).Some? ==>
                  Kept(v, [r]) == [] && Complaints(v, [r]) == [Unverified(r.endorser, check(r).value)])
            && (r.status != 200 ==> Kept(v, [r]) == [] && Complaints(v, [r]) == [BadStatus(r.endorser, r.status)])
  {
    assert [r][..0] == [];
  }

  /** Under the other verifier, or none, only the status counts. */
  lemma StatusChecks<P, E>(v: Option<Verifier<P, E>>, r: Response<P>)
    requires v.Some? ==> v.value.ConfigBlock?
    ensures r.status == 200 ==> Kept(v, [r]) == [r] && Complaints(v, [r]) == []
    ensures r.status != 200 ==> Kept(v, [r]) == [] && Complaints(v, [r]) == [BadStatus(r.endorser, r.status)]
    ensures Kept(v, []) == [] && Complaints(v, []) == []
  {
    assert [r][..0] == [];
  }

  /** The kept responses are the received ones with status 200 that pass the check. */
  lemma KeptMembers<P, E>(check: Response<P> -> Option<E>, s: seq<Response<P>>, r: Response<P>)
    ensures r in Kept(Some(Signature(check)), s) <==> r in s && r.status == 200 && check(r).None?
    ensures r in s && r.status == 200 && check(r).Some? ==>
              Unverified(r.endorser, check(r).value) in Complaints(Some(Signature(check)), s)
  {
    var v := Some(Signature(check));
    KeptExactly(v, s, r);
    assert r in Kept(v, s) <==> r in multiset(Kept(v, s));
    assert r in s <==> r in multiset(s);
    if r in s {
      var i :| 0 <= i < |s| && s[i] == r;
      assert s == s[..i] + [r] + s[i + 1..];
      KeptSplit(v, s[..i] + [r], s[i + 1..]);
      KeptSplit(v, s[..i], [r]);
      SignatureChecks(check, r);
    }
  }

  // ---- decoding ---------------------------------------------------------------

  lemma {:induction false} ResultsSplit<P, B, E>(a: seq<Response<P>>, b: seq<Response<P>>,
                                                 decode: Response<P> -> Decoded<B, E>)
    ensures Results(a + b, decode) == Results(a, decode) + Results(b, decode)
    ensures Undecodables(a + b, decode) == Undecodables(a, decode) + Undecodables(b, decode)
  {
    if b == [] {
      assert a + b == a;
    } else {
      var init := b[..|b| - 1];
      ResultsSplit(a, init, decode);
      assert (a + b)[..|a + b| - 1] == a + init && (a + b)[|a + b| - 1] == b[|b| - 1];
    }
  }

  /** One response contributes its value, or the error of decoding it. */
  lemma OneResult<P, B, E>(r: Response<P>, decode: Response<P> -> Decoded<B, E>)
    ensures decode(r).Decodes? ==> Results([r], decode) == [decode(r).value] && Undecodables([r], decode) == []
    ensures decode(r).Fails? ==>
              Results([r], decode) == [] && Undecodables([r], decode) == [Undecodable(r.endorser, decode(r).error)]
    ensures Results([], decode) == [] && Undecodables([], decode) == []
  {
    assert [r][..0] == [];
  }

  lemma {:induction false} ResultsMembers<P, B, E>(s: seq<Response<P>>, decode: Response<P> -> Decoded<B, E>, b: B)
    ensures b in Results(s, decode) <==> exists r :: r in s && decode(r) == Decodes(b)
  {
    if s != [] {
      ResultsMembers(s[..|s| - 1], decode, b);
      assert s == s[..|s| - 1] + [s[|s| - 1]];
    }
  }

  // ---- agreement --------------------------------------------------------------

  ghost predicate OneTransaction<P, T, E>(r: Response<P>, decode: Response<P> -> Decoded<Block<T>, E>) {
    decode(r).Decodes? && decode(r).value.data.Some? && |decode(r).value.data.value| == 1
  }

  /** Agreement, pair by pair: enough responses, all of which decode to a block with
      one transaction, and any two to the same. */
  lemma AgreedExactly<P, T(!new), E>(min: int, tprs: seq<Response<P>>, decode: Response<P> -> Decoded<Block<T>, E>)
    ensures Agreed(min, tprs, decode) <==>
            && 0 < min <= |tprs|
            && (forall i :: 0 <= i < |tprs| ==> OneTransaction(tprs[i], decode))
            && (forall i, j :: 0 <= i < |tprs| && 0 <= j < |tprs| ==> decode(tprs[i]) == decode(tprs[j]))
  {
    if Agreed(min, tprs, decode) {
      var tx :| AllCarry(tprs, decode, tx);
      forall i | 0 <= i < |tprs| ensures decode(tprs[i]) == Decodes(Block(Some([tx]))) {
        assert Carries(tprs[i], decode, tx);
      }
    }
    if && 0 < min <= |tprs|
       && (forall i :: 0 <= i < |tprs| ==> OneTransaction(tprs[i], decode))
       && (forall i, j :: 0 <= i < |tprs| && 0 <= j < |tprs| ==> decode(tprs[i]) == decode(tprs[j]))
    {
      assert OneTransaction(tprs[0], decode);
      var txs := decode(tprs[0]).value.data.value;
      assert txs == [txs[0]];
      assert AllCarry(tprs, decode, txs[0]);
    }
  }
}
