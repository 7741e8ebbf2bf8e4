/** Queries to the peers' ledgers (pkg/fab/channel): filtering, agreement, decoding. */
module ChannelLedger {
  import opened MultiError
  import opened Options
  import Proposal

  const STATUS_OK := 200

  datatype Response<P> = Response(endorser: string, status: int, payload: P)

  /** Why one target contributed no result. */
  datatype Cause<E> =
    | Unanswered(error: E)
    | NotSent(error: E)
    | NoTargets
    | NilTarget
    | BadStatus(endorser: string, status: int)
    | Unverified(endorser: string, error: E)
    | Undecodable(endorser: string, error: E)

  /** A block holds its transactions, or no data at all. */
  datatype Block<T> = Block(data: Option<seq<T>>)

  /** Decoding of a payload, a foreign call that may fail. */
  datatype Decoded<B, E> = Decodes(value: B) | Fails(error: E)

  /** The two implementations of ResponseVerifier: one checks each response and
      compares none, the other compares all and checks none. */
  datatype Verifier<!P, E> =
    | Signature(check: Response<P> -> Option<E>)
    | ConfigBlock(minResponses: int)

  function Verify<P, E>(v: Verifier<P, E>, r: Response<P>): Option<E> {
    if v.Signature? then v.check(r) else None
  }

  // ---- filterResponses --------------------------------------------------------

  ghost predicate Accepts<P, E>(v: Option<Verifier<P, E>>, r: Response<P>) {
    r.status == STATUS_OK && (v.Some? ==> Verify(v.value, r).None?)
  }

  ghost function Kept<P, E>(v: Option<Verifier<P, E>>, s: seq<Response<P>>): seq<Response<P>> {
    if s == [] then []
    else
      var last := s[|s| - 1];
      Kept(v, s[..|s| - 1]) + (if Accepts(v, last) then [last] else [])
  }

  ghost function Complaint<P, E>(v: Option<Verifier<P, E>>, r: Response<P>): seq<Cause<E>> {
    if r.status != STATUS_OK then [BadStatus(r.endorser, r.status)]
    else if v.Some? && Verify(v.value, r).Some? then [Unverified(r.endorser, Verify(v.value, r).value)]
    else []
  }

  ghost function Complaints<P, E>(v: Option<Verifier<P, E>>, s: seq<Response<P>>): seq<Cause<E>> {
    if s == [] then [] else Complaints(v, s[..|s| - 1]) + Complaint(v, s[|s| - 1])
  }

  /** Each response is either kept or complained about; the kept ones are the
      accepted ones, each as often as it was received. */
  lemma {:induction false} KeptExactly<P, E>(v: Option<Verifier<P, E>>, s: seq<Response<P>>, r: Response<P>)
    ensures |Kept(v, s)| + |Complaints(v, s)| == |s|
    ensures multiset(Kept(v, s))[r] == if Accepts(v, r) then multiset(s)[r] else 0
  {
    if s != [] {
      KeptExactly(v, s[..|s| - 1], r);
      assert s == s[..|s| - 1] + [s[|s| - 1]];
    }
  }

  lemma OneMore<P, E>(v: Option<Verifier<P, E>>, s: seq<Response<P>>, i: nat)
    requires i < |s|
    ensures Kept(v, s[..i + 1]) == Kept(v, s[..i]) + (if Accepts(v, s[i]) then [s[i]] else [])
    ensures Complaints(v, s[..i + 1]) == Complaints(v, s[..i]) + Complaint(v, s[i])
    ensures Accepts(v, s[i]) ==> Complaint(v, s[i]) == []
  {
    assert s[..i + 1][..i] == s[..i];
  }

  /** The loop of filterResponses before reading element `i`: `kept` has not
      overtaken it, and everything from `kept` on is as it was. */
  ghost predicate Filtered<P, E>(v: Option<Verifier<P, E>>, was: seq<Response<P>>, now: seq<Response<P>>,
                                 i: nat, kept: nat, errs: Error<Cause<E>>, errors: Error<Cause<E>>)
  {
    && kept <= i <= |was| == |now|
    && now[..kept] == Kept(v, was[..i])
    && now[kept..] == was[kept..]
    && Causes(errors) == Causes(errs) + Complaints(v, was[..i])
    && Proper(errors)
  }

  lemma FilterKeeps<P, E>(v: Option<Verifier<P, E>>, was: seq<Response<P>>, now: seq<Response<P>>,
                          i: nat, kept: nat, errs: Error<Cause<E>>, errors: Error<Cause<E>>)
    requires Filtered(v, was, now, i, kept, errs, errors) && i < |was|
    ensures now[i] == was[i]
    ensures Accepts(v, now[i]) ==> Filtered(v, was, now[kept := now[i]], i + 1, kept + 1, errs, errors)
  {
    assert now[i] == now[kept..][i - kept] == was[kept..][i - kept] == was[i];
    OneMore(v, was, i);
    hide Kept, Complaints, Causes, Proper;
    if Accepts(v, now[i]) {
      var next := now[kept := now[i]];
      assert next[..kept + 1] == now[..kept] + [now[i]];
      assert next[kept + 1..] == now[kept..][1..] == was[kept..][1..] == was[kept + 1..];
      assert Complaints(v, was[..i]) + [] == Complaints(v, was[..i]);
    }
  }

  lemma FilterDrops<P, E>(v: Option<Verifier<P, E>>, was: seq<Response<P>>, now: seq<Response<P>>,
                          i: nat, kept: nat, errs: Error<Cause<E>>, errors: Error<Cause<E>>, cause: Cause<E>)
    requires Filtered(v, was, now, i, kept, errs, errors) && i < |was|
    requires !Accepts(v, was[i]) && Complaint(v, was[i]) == [cause]
    ensures Filtered(v, was, now, i + 1, kept, errs, Append(errors, Single(cause)))
  {
    OneMore(v, was, i);
    AppendCause(errors, cause);
    hide Kept, Complaints, Complaint, Accepts, Causes, Proper, Append;
    assert Kept(v, was[..i]) + [] == Kept(v, was[..i]);
    assert (Causes(errs) + Complaints(v, was[..i])) + [cause] == Causes(errs) + (Complaints(v, was[..i]) + [cause]);
  }

  /** Compacts the array it is reading. */
  method FilterResponses<P, E>(responses: array<Response<P>>, errs: Error<Cause<E>>, v: Option<Verifier<P, E>>)
    returns (kept: nat, errors: Error<Cause<E>>)
    requires Proper(errs)
    modifies responses
    ensures kept <= responses.Length
    ensures responses[..kept] == Kept(v, old(responses[..]))
    ensures responses[kept..] == old(responses[kept..])
    ensures Causes(errors) == Causes(errs) + Complaints(v, old(responses[..]))
    ensures Proper(errors)
  {
    ghost var was := responses[..];
    kept, errors := 0, errs;
    assert Causes(errs) + Complaints(v, was[..0]) == Causes(errs);
    assert Filtered(v, was, responses[..], 0, 0, errs, errs);
    hide Kept, Complaints, Causes, Proper, Append, Filtered;
    for i := 0 to responses.Length
      invariant kept <= i
      invariant Filtered(v, was, responses[..], i, kept, errs, errors)
    {
      ghost var now := responses[..];
      FilterKeeps(v, was, now, i, kept, errs, errors);
      var response := responses[i];
      if response.status == STATUS_OK {
        if v.Some? {
          var err := Verify(v.value, response);
          if err.Some? {
            FilterDrops(v, was, now, i, kept, errs, errors, Unverified(response.endorser, err.value));
            errors := Append(errors, Single(Unverified(response.endorser, err.value)));
            continue;
          }
        }
        responses[kept] := response;
        assert responses[..] == now[kept := response];
        kept := kept + 1;
      } else {
        FilterDrops(v, was, now, i, kept, errs, errors, BadStatus(response.endorser, response.status));
        errors := Append(errors, Single(BadStatus(response.endorser, response.status)));
      }
    }
    assert was[..responses.Length] == was;
    FilterEnds(v, was, responses[..], kept, errs, errors);
  }

  lemma FilterEnds<P, E>(v: Option<Verifier<P, E>>, was: seq<Response<P>>, now: seq<Response<P>>,
                         kept: nat, errs: Error<Cause<E>>, errors: Error<Cause<E>>)
    requires Filtered(v, was, now, |was|, kept, errs, errors)
    ensures kept <= |now| == |was| && now[..kept] == Kept(v, was) && now[kept..] == was[kept..]
    ensures Causes(errors) == Causes(errs) + Complaints(v, was) && Proper(errors)
  {
    assert was[..|was|] == was;
  }

  // ---- queries ----------------------------------------------------------------

  lemma KeptCounts<P, E>(v: Option<Verifier<P, E>>, s: seq<Response<P>>)
    ensures |Kept(v, s)| + |Complaints(v, s)| == |s|
    ensures forall i :: 0 <= i < |Kept(v, s)| ==> Accepts(v, Kept(v, s)[i])
  {
    if s != [] {
      KeptCounts(v, s[..|s| - 1]);
    }
  }

  /** Everything a query needs before it can ask the targets. */
  ghost predicate CanAsk<E>(setup: Option<E>, targets: seq<Option<Proposal.Target>>, signed: Option<Cause<E>>) {
    setup.None? && targets != [] && None !in targets && signed.None?
  }

  /** Each of the unique targets was asked once, and answered with one response or
      one error. */
  ghost predicate AskedAll<P, E>(targets: seq<Option<Proposal.Target>>,
                                 reply: nat -> Proposal.Reply<Response<P>, Cause<E>>,
                                 asked: nat, received: seq<Response<P>>, failed: seq<Cause<E>>)
    requires None !in targets
  {
    && asked == |Proposal.Unique(Proposal.Processors(targets))|
    && multiset(received) == multiset(Proposal.Responses(Proposal.Calls(asked), reply))
    && multiset(failed) == multiset(Proposal.Failures(Proposal.Calls(asked), reply))
  }

  lemma NothingKept<P, E>(v: Option<Verifier<P, E>>)
    ensures Kept(v, []) == [] && Complaints(v, []) == []
  {
  }

  method FilterAll<P, E>(answers: seq<Response<P>>, sendErrs: Error<Cause<E>>, v: Option<Verifier<P, E>>)
    returns (tprs: seq<Response<P>>, errs: Error<Cause<E>>)
    requires Proper(sendErrs)
    ensures tprs == Kept(v, answers) && Causes(errs) == Causes(sendErrs) + Complaints(v, answers) && Proper(errs)
    ensures |tprs| + |Causes(errs)| == |answers| + |Causes(sendErrs)|
  {
    hide *;
    var responses := new Response<P>[|answers|](i requires 0 <= i < |answers| => answers[i]);
    assert responses[..] == answers;
    KeptCounts(v, answers);
    var kept: nat;
    kept, errs := FilterResponses(responses, sendErrs, v);
    tprs := responses[..kept];
  }

  /** `setup` is the error met before sending, if any. When nothing is sent
      `asked` is 1 and there is one error; otherwise every processor asked ends
      as one kept response or one error. */
  method QueryChaincode<P, E>(setup: Option<E>, targets: seq<Option<Proposal.Target>>, signed: Option<Cause<E>>,
                              reply: nat -> Proposal.Reply<Response<P>, Cause<E>>, v: Option<Verifier<P, E>>)
    returns (tprs: seq<Response<P>>, errs: Error<Cause<E>>,
             ghost asked: nat, ghost received: seq<Response<P>>, ghost failed: seq<Cause<E>>)
    ensures asked > 0 && |tprs| + |Causes(errs)| == asked && Proper(errs)
    ensures tprs == Kept(v, received) && Causes(errs) == failed + Complaints(v, received)
    ensures setup.Some? ==> failed == [NotSent(setup.value)]
    ensures setup.None? && targets == [] ==> failed == [NoTargets]
    ensures setup.None? && None in targets ==> failed == [NilTarget]
    ensures setup.None? && targets != [] && None !in targets && signed.Some? ==> failed == [signed.value]
    ensures if CanAsk(setup, targets, signed) then AskedAll(targets, reply, asked, received, failed)
            else received == [] && |failed| == 1
  {
    hide Kept, Complaints, Proposal.Unique, Proposal.Responses, Proposal.Failures, Proposal.Calls;
    received, failed := [], [];
    NothingKept(v);
    if setup.Some? {
      return [], Single(NotSent(setup.value)), 1, [], [NotSent(setup.value)];
    }
    var result, unique := Proposal.SendProposal(true, targets, signed, reply);
    var answers: seq<Response<P>>, sendErrs := [], Single(NoTargets);
    asked := 1;
    match result {
      case ProposalRequired => assert false;
      case TargetsRequired =>
      case NilTarget => sendErrs := Single(NilTarget);
      case NotSigned(e) => sendErrs := Single(e);
      case Sent(rs, es) =>
        answers, sendErrs := rs, es;
        asked := |unique|;
    }
    received, failed := answers, Causes(sendErrs);
    tprs, errs := FilterAll(answers, sendErrs, v);
  }

  ghost function Results<P, B, E>(s: seq<Response<P>>, decode: Response<P> -> Decoded<B, E>): seq<B> {
    if s == [] then []
    else
      var d := decode(s[|s| - 1]);
      Results(s[..|s| - 1], decode) + (if d.Decodes? then [d.value] else [])
  }

  /** One error for each response that does not decode, in order. */
  ghost function Undecodables<P, B, E>(s: seq<Response<P>>, decode: Response<P> -> Decoded<B, E>): seq<Cause<E>> {
    if s == [] then []
    else
      var last := s[|s| - 1];
      Undecodables(s[..|s| - 1], decode)
      + (if decode(last).Fails? then [Undecodable(last.endorser, decode(last).error)] else [])
  }

  lemma {:induction false} DecodedOrNot<P, B, E>(s: seq<Response<P>>, decode: Response<P> -> Decoded<B, E>)
    ensures |Results(s, decode)| + |Undecodables(s, decode)| == |s|
  {
    if s != [] { DecodedOrNot(s[..|s| - 1], decode); }
  }

  lemma DecodeOneMore<P, B, E>(s: seq<Response<P>>, i: nat, decode: Response<P> -> Decoded<B, E>)
    requires i < |s|
    ensures var d := decode(s[i]);
            && Results(s[..i + 1], decode) == Results(s[..i], decode) + (if d.Decodes? then [d.value] else [])
            && Undecodables(s[..i + 1], decode)
               == Undecodables(s[..i], decode) + (if d.Fails? then [Undecodable(s[i].endorser, d.error)] else [])
  {
    assert s[..i + 1][..i] == s[..i];
  }

  /** Decodes what it can and reports the rest, after the errors already met. */
  method DecodeAll<P, B, E>(tprs: seq<Response<P>>, errs: Error<Cause<E>>, decode: Response<P> -> Decoded<B, E>)
    returns (responses: seq<B>, errors: Error<Cause<E>>)
    requires Proper(errs)
    ensures responses == Results(tprs, decode)
    ensures Causes(errors) == Causes(errs) + Undecodables(tprs, decode)
    ensures Proper(errors)
  {
    responses, errors := [], errs;
    assert Results(tprs[..0], decode) == [] && Causes(errs) + Undecodables(tprs[..0], decode) == Causes(errs);
    hide Results, Undecodables, Causes, Proper, Append;
    for i := 0 to |tprs|
      invariant responses == Results(tprs[..i], decode)
      invariant Causes(errors) == Causes(errs) + Undecodables(tprs[..i], decode)
      invariant Proper(errors)
    {
      DecodeOneMore(tprs, i, decode);
      match decode(tprs[i])
      case Decodes(value) =>
        responses := responses + [value];
      case Fails(e) =>
        AppendCause(errors, Undecodable(tprs[i].endorser, e));
        errors := Append(errors, Single(Undecodable(tprs[i].endorser, e)));
    }
    assert tprs[..|tprs|] == tprs;
  }

  /** Callers look only at "error and no response" before they take response 0;
      that suffices, because no response at all implies an error. */
  method QueryInfo<P, B, E>(setup: Option<E>, targets: seq<Option<Proposal.Target>>, signed: Option<Cause<E>>,
                            reply: nat -> Proposal.Reply<Response<P>, Cause<E>>, v: Option<Verifier<P, E>>,
                            decode: Response<P> -> Decoded<B, E>)
    returns (responses: seq<B>, errs: Error<Cause<E>>,
             ghost asked: nat, ghost received: seq<Response<P>>, ghost failed: seq<Cause<E>>)
    ensures responses == Results(Kept(v, received), decode)
    ensures Causes(errs) == failed + Complaints(v, received) + Undecodables(Kept(v, received), decode)
    ensures if CanAsk(setup, targets, signed) then AskedAll(targets, reply, asked, received, failed)
            else received == [] && |failed| == 1
    ensures asked > 0 && |responses| + |Causes(errs)| == asked
    ensures errs.NoError? <==> |responses| == asked
    ensures responses == [] ==> !errs.NoError?
  {
    hide Kept, Complaints, Results, Undecodables, AskedAll, CanAsk;
    var tprs;
    tprs, errs, asked, received, failed := QueryChaincode(setup, targets, signed, reply, v);
    DecodedOrNot(tprs, decode);
    responses, errs := DecodeAll(tprs, errs, decode);
  }

  /** As QueryInfo, but decoding errors are collected apart and appended as one. */
  method QueryBlock<P, B, E>(setup: Option<E>, targets: seq<Option<Proposal.Target>>, signed: Option<Cause<E>>,
                             reply: nat -> Proposal.Reply<Response<P>, Cause<E>>, v: Option<Verifier<P, E>>,
                             decode: Response<P> -> Decoded<B, E>)
    returns (responses: seq<B>, errs: Error<Cause<E>>,
             ghost asked: nat, ghost received: seq<Response<P>>, ghost failed: seq<Cause<E>>)
    ensures responses == Results(Kept(v, received), decode)
    ensures Causes(errs) == failed + Complaints(v, received) + Undecodables(Kept(v, received), decode)
    ensures if CanAsk(setup, targets, signed) then AskedAll(targets, reply, asked, received, failed)
            else received == [] && |failed| == 1
    ensures asked > 0 && |responses| + |Causes(errs)| == asked
    ensures errs.NoError? <==> |responses| == asked
    ensures responses == [] ==> !errs.NoError?
  {
    hide Kept, Complaints, Results, Undecodables, AskedAll, CanAsk, Append;
    var tprs, decodeErrs: Error<Cause<E>>;
    decodeErrs := NoError;
    assert Causes(decodeErrs) == [] && Proper(decodeErrs);
    tprs, errs, asked, received, failed := QueryChaincode(setup, targets, signed, reply, v);
    DecodedOrNot(tprs, decode);
    responses, decodeErrs := DecodeAll(tprs, decodeErrs, decode);
    assert Causes(decodeErrs) == Undecodables(tprs, decode);
    AppendKeeps(errs, decodeErrs);
    errs := Append(errs, decodeErrs);
  }

  // ---- agreement on the configuration block -----------------------------------

  datatype Mismatch<E> =
    | MinimumNotPositive
    | TooFew(required: int, got: nat)
    | BadBlock(error: E)
    | NilData
    | NotOneTransaction
    | PayloadsDiffer

  ghost predicate Carries<P, T, E>(r: Response<P>, decode: Response<P> -> Decoded<Block<T>, E>, tx: T) {
    decode(r).Decodes? && decode(r).value.data == Some([tx])
  }

  ghost predicate AllCarry<P, T, E>(tprs: seq<Response<P>>, decode: Response<P> -> Decoded<Block<T>, E>, tx: T) {
    forall i :: 0 <= i < |tprs| ==> Carries(tprs[i], decode, tx)
  }

  /** Enough responses, and one transaction that every one of them carries alone. */
  ghost predicate Agreed<P, T(!new), E>(min: int, tprs: seq<Response<P>>, decode: Response<P> -> Decoded<Block<T>, E>) {
    0 < min <= |tprs| && exists tx :: AllCarry(tprs, decode, tx)
  }

  method Match<P, T(==, !new), E>(v: Verifier<P, E>, tprs: seq<Response<P>>,
                                  decode: Response<P> -> Decoded<Block<T>, E>)
    returns (r: Option<Mismatch<E>>)
    ensures v.Signature? ==> r.None?
    ensures v.ConfigBlock? ==> (r.None? <==> Agreed(v.minResponses, tprs, decode))
    ensures v.ConfigBlock? ==>
      && (r == Some(MinimumNotPositive) <==> v.minResponses <= 0)
      && (r == Some(TooFew(v.minResponses, |tprs|)) <==> 0 < v.minResponses && |tprs| < v.minResponses)
    ensures r.Some? && r.value.BadBlock? ==> exists i :: 0 <= i < |tprs| && decode(tprs[i]) == Fails(r.value.error)
    ensures r.Some? && (r.value.NilData? || r.value.NotOneTransaction?) ==>
      tprs != [] && decode(tprs[0]).Decodes? && forall tx :: decode(tprs[0]).value.data != Some([tx])
    ensures r.Some? && r.value.PayloadsDiffer? ==>
      exists i :: 0 <= i < |tprs| && decode(tprs[0]).Decodes? && decode(tprs[i]).Decodes?
                  && decode(tprs[0]).value.data != decode(tprs[i]).value.data
  {
    if v.Signature? {
      return None;
    }
    if v.minResponses <= 0 {
      return Some(MinimumNotPositive);
    }
    if |tprs| < v.minResponses {
      return Some(TooFew(v.minResponses, |tprs|));
    }
    var block := decode(tprs[0]);
    if block.Fails? {
      return Some(BadBlock(block.error));
    }
    if block.value.data.None? || block.value.data.value == [] {
      return Some(NilData);
    }
    if |block.value.data.value| != 1 {
      return Some(NotOneTransaction);
    }
    ghost var tx := block.value.data.value[0];
    assert block.value.data.value == [tx];
    assert Carries(tprs[0], decode, tx);
    for i := 1 to |tprs|
      invariant forall j :: 0 <= j < i ==> Carries(tprs[j], decode, tx)
    {
      var b := decode(tprs[i]);
      if b.Fails? {
        return Some(BadBlock(b.error));
      }
      if block.value.data != b.value.data {
        return Some(PayloadsDiffer);
      }
    }
    assert AllCarry(tprs, decode, tx);
    return None;
  }

  datatype ConfigResult<T, E> =
    | TargetsRequired
    | QueryFailed(errors: Error<Cause<E>>)
    | Mismatched(why: Mismatch<E>)
    | Undecoded(error: E)
    | Found(block: Block<T>)

  /** `kept` are the responses that passed status and verification. Element 0 is
      only read when there is one, whichever verifier is used. */
  method QueryConfigBlock<P, T(==, !new), E>(setup: Option<E>, targets: seq<Option<Proposal.Target>>,
                                             signed: Option<Cause<E>>,
                                             reply: nat -> Proposal.Reply<Response<P>, Cause<E>>, v: Verifier<P, E>,
                                             decode: Response<P> -> Decoded<Block<T>, E>)
    returns (r: ConfigResult<T, E>, ghost kept: seq<Response<P>>, ghost received: seq<Response<P>>)
    ensures r.TargetsRequired? <==> targets == []
    ensures r.QueryFailed? ==> kept == [] && !r.errors.NoError?
    ensures kept == Kept(Some(v), received)
    ensures forall i :: 0 <= i < |kept| ==> Accepts(Some(v), kept[i])
    ensures r.Found? ==> kept != [] && decode(kept[0]) == Decodes(r.block)
    ensures r.Found? && v.ConfigBlock? ==>
      Agreed(v.minResponses, kept, decode) && r.block.data.Some? && |r.block.data.value| == 1
    ensures v.ConfigBlock? && Agreed(v.minResponses, kept, decode) ==> r.Found?
    ensures v.Signature? && kept != [] && decode(kept[0]).Decodes? ==> r.Found?
    ensures CanAsk(setup, targets, signed) ==>
      exists failed :: AskedAll(targets, reply, |Proposal.Unique(Proposal.Processors(targets))|, received, failed)
  {
    kept, received := [], [];
    if |targets| == 0 {
      return TargetsRequired, kept, received;
    }
    var tprs, errs, _, rs, _ := QueryChaincode(setup, targets, signed, reply, Some(v));
    kept, received := tprs, rs;
    KeptCounts(Some(v), received);
    if !errs.NoError? && |tprs| == 0 {
      return QueryFailed(errs), kept, received;
    }
    var mismatch := Match(v, tprs, decode);
    if mismatch.Some? {
      return Mismatched(mismatch.value), kept, received;
    }
    match decode(tprs[0])
    case Decodes(b) =>
      r := Found(b);
      if v.ConfigBlock? {
        ghost var tx :| AllCarry(tprs, decode, tx);
        assert Carries(tprs[0], decode, tx);
      }
    case Fails(e) =>
      r := Undecoded(e);
      assert forall tx :: !Carries(tprs[0], decode, tx);
  }
}
