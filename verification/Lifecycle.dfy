/** Agreement of several peers on committed chaincode definitions
    (resmgmt/lifecycleprocessor.go). */
module Lifecycle {
  import opened Options
  import opened Sequences

  // ---- names, compared as Go compares strings ---------------------------------

  predicate Less(a: string, b: string) {
    b != [] && (a == [] || a[0] < b[0] || (a[0] == b[0] && Less(a[1..], b[1..])))
  }

  lemma {:induction false} LessIsTotal(a: string, b: string)
    ensures a == b || Less(a, b) || Less(b, a)
    ensures Less(a, b) ==> a != b && !Less(b, a)
  {
    if a != [] && b != [] {
      LessIsTotal(a[1..], b[1..]);
      assert a == [a[0]] + a[1..] && b == [b[0]] + b[1..];
    }
  }

  lemma {:induction false} LessIsTransitive(a: string, b: string, c: string)
    requires Less(a, b) && Less(b, c)
    ensures Less(a, c)
  {
    if a != [] && a[0] == b[0] == c[0] {
      LessIsTransitive(a[1..], b[1..], c[1..]);
    }
  }

  // ---- sorting definitions by name, descending --------------------------------

  datatype Definition<+B> = Definition(name: string, body: B)

  function Names<B>(s: seq<Definition<B>>): seq<string> {
    seq(|s|, i requires 0 <= i < |s| => s[i].name)
  }

  ghost predicate SortedNames(names: seq<string>) {
    forall i, j :: 0 <= i < j < |names| ==> !Less(names[i], names[j])
  }

  /** No element sorts before its predecessor under the comparison of the source. */
  ghost predicate Sorted<B>(s: seq<Definition<B>>) {
    forall i, j :: 0 <= i < j < |s| ==> !Less(s[i].name, s[j].name)
  }

  ghost predicate SortOf<B>(s: seq<Definition<B>>, t: seq<Definition<B>>) {
    Sorted(t) && multiset(t) == multiset(s)
  }

  ghost function Arrange<T>(s: seq<T>, p: seq<nat>): seq<T>
    requires forall i :: 0 <= i < |p| ==> p[i] < |s|
  {
    seq(|p|, i requires 0 <= i < |p| => s[p[i]])
  }

  ghost predicate OrdersWell(order: seq<string> -> seq<nat>, names: seq<string>) {
    IsPermutation(order(names), |names|) && SortedNames(Arrange(names, order(names)))
  }

  /** A sort by comparison: it learns about a list only how names compare, so where
      it moves the elements is a function of the names. This is all that is assumed
      of sort.Slice; it need not be stable. */
  ghost predicate SortsNames(order: seq<string> -> seq<nat>) {
    forall names :: OrdersWell(order, names)
  }

  ghost function InOrder<B>(order: seq<string> -> seq<nat>, s: seq<Definition<B>>): seq<Definition<B>>
    requires SortsNames(order)
  {
    assert OrdersWell(order, Names(s));
    Arrange(s, order(Names(s)))
  }

  lemma Without(p: seq<nat>, n: nat, k: nat)
    requires IsPermutation(p, n) && k < n && p[k] == n - 1
    ensures IsPermutation(p[..k] + p[k + 1..], n - 1)
  {
    var q := p[..k] + p[k + 1..];
    forall i | 0 <= i < n - 1 ensures q[i] < n - 1 {
      assert q[i] == p[if i < k then i else i + 1];
    }
  }

  lemma PutBack<T>(s: seq<T>, u: seq<T>, k: nat)
    requires s != [] && k <= |u| && multiset(u) == multiset(s[..|s| - 1])
    ensures multiset(u[..k] + [s[|s| - 1]] + u[k..]) == multiset(s)
  {
    assert u == u[..k] + u[k..] && s == s[..|s| - 1] + [s[|s| - 1]];
  }

  lemma {:induction false} ArrangePermutes<T>(s: seq<T>, p: seq<nat>)
    requires IsPermutation(p, |s|)
    ensures multiset(Arrange(s, p)) == multiset(s)
  {
    if s == [] {
      assert Arrange(s, p) == [];
    } else {
      var n := |s| - 1;
      PermutationCovers(p, |s|, n);
      hide Distinct, Arrange;
      var k :| 0 <= k < |s| && p[k] == n;
      var q := p[..k] + p[k + 1..];
      Without(p, |s|, k);
      ArrangeWithout(s, p, k);
      ArrangePermutes(s[..n], q);
      PutBack(s, Arrange(s[..n], q), k);
    }
  }

  lemma ArrangeWithout<T>(s: seq<T>, p: seq<nat>, k: nat)
    requires s != [] && IsPermutation(p, |s|) && k < |s| && p[k] == |s| - 1
    requires IsPermutation(p[..k] + p[k + 1..], |s| - 1)
    ensures var u := Arrange(s[..|s| - 1], p[..k] + p[k + 1..]);
            k <= |u| && Arrange(s, p) == u[..k] + [s[|s| - 1]] + u[k..]
  {
    hide Distinct;
    var q := p[..k] + p[k + 1..];
    forall i | 0 <= i < |q| ensures q[i] == p[if i < k then i else i + 1] {}
  }

  /** What is known about the arrangement of one list. */
  lemma OrderOf<B>(order: seq<string> -> seq<nat>, s: seq<Definition<B>>)
    requires SortsNames(order)
    ensures var p := order(Names(s)); IsPermutation(p, |s|) && InOrder(order, s) == Arrange(s, p)
    ensures Sorted(InOrder(order, s))
  {
    var p, t := order(Names(s)), InOrder(order, s);
    assert OrdersWell(order, Names(s));
    hide SortsNames, Less, Distinct;
    assert Names(t) == Arrange(Names(s), p);
    forall i, j | 0 <= i < j < |t| ensures !Less(t[i].name, t[j].name) {
      assert t[i].name == Names(t)[i] && t[j].name == Names(t)[j];
    }
  }

  lemma InOrderSorts<B>(order: seq<string> -> seq<nat>, s: seq<Definition<B>>)
    requires SortsNames(order)
    ensures SortOf(s, InOrder(order, s))
  {
    OrderOf(order, s);
    ArrangePermutes(s, order(Names(s)));
    hide SortsNames, InOrder, Arrange, Sorted;
  }

  /** Definitions of one name are the same definition. */
  ghost predicate NamesDetermine<B>(s: seq<Definition<B>>) {
    forall i, j :: 0 <= i < |s| && 0 <= j < |s| && s[i].name == s[j].name ==> s[i] == s[j]
  }

  lemma Membership<B>(s: seq<Definition<B>>, t: seq<Definition<B>>, k: nat)
    requires multiset(s) == multiset(t) && k < |s|
    ensures s[k] in t
  {
    assert s[k] in multiset(t);
  }

  /** The first elements of two sorted arrangements agree. */
  lemma SameHead<B>(t: seq<Definition<B>>, u: seq<Definition<B>>)
    requires Sorted(t) && Sorted(u) && multiset(t) == multiset(u) && NamesDetermine(t) && t != [] && u != []
    ensures t[0] == u[0]
  {
    Membership(t, u, 0);
    Membership(u, t, 0);
    var i :| 0 <= i < |u| && u[i] == t[0];
    var j :| 0 <= j < |t| && t[j] == u[0];
    LessIsTotal(t[0].name, u[0].name);
  }

  /** When names determine definitions, sorting has one possible outcome. */
  lemma {:induction false} CanonicalForm<B>(t: seq<Definition<B>>, u: seq<Definition<B>>)
    requires Sorted(t) && Sorted(u) && multiset(t) == multiset(u) && NamesDetermine(t)
    ensures t == u
  {
    SameLength(t, u);
    if t != [] {
      SameHead(t, u);
      Tail(t);
      Tail(u);
      hide *;
      SameTails(t, u);
      assert t == [t[0]] + t[1..] && u == [u[0]] + u[1..];
      CanonicalForm(t[1..], u[1..]);
    }
  }

  lemma SameLength<T>(t: seq<T>, u: seq<T>)
    requires multiset(t) == multiset(u)
    ensures |t| == |u|
  {
    assert |multiset(t)| == |multiset(u)|;
  }

  lemma SameTails<T>(t: seq<T>, u: seq<T>)
    requires t != [] && u != [] && t[0] == u[0] && multiset(t) == multiset(u)
    ensures multiset(t[1..]) == multiset(u[1..])
  {
    assert t == [t[0]] + t[1..] && u == [u[0]] + u[1..];
    assert multiset(t[1..]) == multiset(t) - multiset{t[0]};
    assert multiset(u[1..]) == multiset(u) - multiset{u[0]};
  }

  lemma Tail<B>(t: seq<Definition<B>>)
    requires t != []
    ensures Sorted(t) ==> Sorted(t[1..])
    ensures NamesDetermine(t) ==> NamesDetermine(t[1..])
  {
  }

  lemma NamesDeterminePermuted<B>(s: seq<Definition<B>>, t: seq<Definition<B>>)
    requires multiset(s) == multiset(t) && NamesDetermine(s)
    ensures NamesDetermine(t)
  {
    forall i, j | 0 <= i < |t| && 0 <= j < |t| && t[i].name == t[j].name
      ensures t[i] == t[j]
    {
      Membership(t, s, i);
      Membership(t, s, j);
    }
  }

  /** Sorting has a canonical outcome exactly when names determine definitions. */
  lemma CanonicalExactly<B>(s: seq<Definition<B>>, t: seq<Definition<B>>)
    requires SortOf(s, t)
    ensures NamesDetermine(s) <==> forall u :: SortOf(s, u) ==> u == t
  {
    if NamesDetermine(s) {
      NamesDeterminePermuted(s, t);
      forall u | SortOf(s, u) ensures u == t {
        CanonicalForm(t, u);
      }
    } else {
      if NamesDetermine(t) {
        NamesDeterminePermuted(t, s);
      }
      var u := Exchanged(t);
      assert SortOf(s, u) && u != t;
    }
  }

  /** Two different definitions of one name can change places. */
  lemma Exchanged<B>(t: seq<Definition<B>>) returns (u: seq<Definition<B>>)
    requires Sorted(t) && !NamesDetermine(t)
    ensures Sorted(u) && multiset(u) == multiset(t) && u != t
  {
    var i, j :| 0 <= i < |t| && 0 <= j < |t| && t[i].name == t[j].name && t[i] != t[j];
    u := t[i := t[j]][j := t[i]];
    assert u[i] != t[i];
    assert forall k :: 0 <= k < |t| ==> u[k].name == t[k].name;
  }

  // ---- agreement --------------------------------------------------------------

  datatype Response<+P> = Response(status: int, payload: P)

  datatype Verdict = Match | Undecodable | StatusesDiffer(last: int, next: int) | MessagesDiffer

  /** All responses decode, to one message, with one status. */
  ghost predicate AllAgree<P, M>(responses: seq<Response<P>>, unmarshal: P -> Option<M>) {
    && (forall i :: 0 <= i < |responses| ==> unmarshal(responses[i].payload).Some?)
    && (forall i, j :: 0 <= i < |responses| && 0 <= j < |responses| ==>
          && responses[i].status == responses[j].status
          && unmarshal(responses[i].payload) == unmarshal(responses[j].payload))
  }

  /** Each response is only compared with the one before it. */
  method VerifyResponsesMatch<P, M(==)>(responses: seq<Response<P>>, unmarshal: P -> Option<M>) returns (r: Verdict)
    ensures r.Match? <==> AllAgree(responses, unmarshal)
    ensures r.Undecodable? ==> exists i :: 0 <= i < |responses| && unmarshal(responses[i].payload).None?
    ensures r.MessagesDiffer? ==>
      exists i :: 0 < i < |responses| && unmarshal(responses[i - 1].payload) != unmarshal(responses[i].payload)
    ensures r.StatusesDiffer? ==>
      && r.last != r.next
      && exists i :: 0 < i < |responses| && responses[i - 1].status == r.last && responses[i].status == r.next
  {
    var lastStatus, lastResponse := 0, None;
    for i := 0 to |responses|
      invariant i > 0 ==>
        && lastStatus == responses[i - 1].status
        && lastResponse == unmarshal(responses[i - 1].payload)
        && lastResponse.Some?
      invariant i == 0 ==> lastResponse.None?
      invariant forall k :: 0 <= k < i ==>
        responses[k].status == lastStatus && unmarshal(responses[k].payload) == lastResponse
    {
      var m := unmarshal(responses[i].payload);
      if m.None? {
        return Undecodable;
      }
      if lastResponse.Some? {
        if lastStatus != responses[i].status {
          return StatusesDiffer(lastStatus, responses[i].status);
        }
        if lastResponse != m {
          return MessagesDiffer;
        }
      }
      lastResponse, lastStatus := m, responses[i].status;
    }
    return Match;
  }

  datatype Message<+B> = One(definition: Definition<B>) | Listing(definitions: seq<Definition<B>>)

  /** A query for one name decodes one definition; a query for all decodes a list
      and sorts it. The two decoders are foreign. */
  ghost function UnmarshalInOrder<P, B>(name: string, decodeOne: P -> Option<Definition<B>>,
                                        decodeAll: P -> Option<seq<Definition<B>>>,
                                        order: seq<string> -> seq<nat>): P -> Option<Message<B>>
    requires SortsNames(order)
  {
    payload =>
      if name != "" then
        match decodeOne(payload) case None => None case Some(d) => Some(One(d))
      else
        match decodeAll(payload) case None => None case Some(l) => Some(Listing(InOrder(order, l)))
  }

  /** All lists decode, with one status, and are rearrangements of each other. */
  ghost predicate SameDefinitions<P, B>(responses: seq<Response<P>>, decodeAll: P -> Option<seq<Definition<B>>>) {
    && (forall i :: 0 <= i < |responses| ==> decodeAll(responses[i].payload).Some?)
    && (forall i, j :: 0 <= i < |responses| && 0 <= j < |responses| ==>
          && responses[i].status == responses[j].status
          && multiset(decodeAll(responses[i].payload).value) == multiset(decodeAll(responses[j].payload).value))
  }

  ghost predicate EachNamesDetermine<P, B>(responses: seq<Response<P>>, decodeAll: P -> Option<seq<Definition<B>>>) {
    forall i :: 0 <= i < |responses| && decodeAll(responses[i].payload).Some? ==>
      NamesDetermine(decodeAll(responses[i].payload).value)
  }

  /** Peers that answer a query for all definitions are accepted only if their
      lists are rearrangements of each other; and always then, if no peer lists two
      different definitions under one name. */
  lemma AcceptedExactly<P, B>(responses: seq<Response<P>>, decodeOne: P -> Option<Definition<B>>,
                              decodeAll: P -> Option<seq<Definition<B>>>, order: seq<string> -> seq<nat>)
    requires SortsNames(order)
    ensures var accepted := AllAgree(responses, UnmarshalInOrder("", decodeOne, decodeAll, order));
            && (accepted ==> SameDefinitions(responses, decodeAll))
            && (EachNamesDetermine(responses, decodeAll) ==> (accepted <==> SameDefinitions(responses, decodeAll)))
  {
    var unmarshal := UnmarshalInOrder("", decodeOne, decodeAll, order);
    forall i, j | 0 <= i < |responses| && 0 <= j < |responses|
      && decodeAll(responses[i].payload).Some? && decodeAll(responses[j].payload).Some?
      ensures unmarshal(responses[i].payload) == unmarshal(responses[j].payload) ==>
        multiset(decodeAll(responses[i].payload).value) == multiset(decodeAll(responses[j].payload).value)
      ensures EachNamesDetermine(responses, decodeAll) ==>
        multiset(decodeAll(responses[i].payload).value) == multiset(decodeAll(responses[j].payload).value) ==>
        unmarshal(responses[i].payload) == unmarshal(responses[j].payload)
    {
      SortsEqually(decodeAll(responses[i].payload).value, decodeAll(responses[j].payload).value, order);
    }
  }

  lemma SortsEqually<B>(a: seq<Definition<B>>, b: seq<Definition<B>>, order: seq<string> -> seq<nat>)
    requires SortsNames(order)
    ensures InOrder(order, a) == InOrder(order, b) ==> multiset(a) == multiset(b)
    ensures multiset(a) == multiset(b) && NamesDetermine(a) ==> InOrder(order, a) == InOrder(order, b)
  {
    InOrderSorts(order, a);
    InOrderSorts(order, b);
    if multiset(a) == multiset(b) && NamesDetermine(a) {
      NamesDeterminePermuted(a, InOrder(order, a));
      CanonicalForm(InOrder(order, a), InOrder(order, b));
    }
  }

  /** A list with two definitions of one name has a rearrangement that every such
      sort tells from it: exchange the two, and each goes where the other went. */
  lemma RejectedRearrangement<B>(a: seq<Definition<B>>) returns (b: seq<Definition<B>>)
    requires !NamesDetermine(a)
    ensures multiset(a) == multiset(b)
    ensures forall order :: SortsNames(order) ==> InOrder(order, a) != InOrder(order, b)
  {
    var i, j :| 0 <= i < |a| && 0 <= j < |a| && a[i].name == a[j].name && a[i] != a[j];
    b := a[i := a[j]][j := a[i]];
    assert Names(b) == Names(a);
    forall order | SortsNames(order) ensures InOrder(order, a) != InOrder(order, b) {
      var p := order(Names(a));
      OrderOf(order, a);
      OrderOf(order, b);
      PermutationCovers(p, |a|, i);
      var k :| 0 <= k < |a| && p[k] == i;
      assert InOrder(order, a)[k] == a[i] && InOrder(order, b)[k] == a[j];
    }
  }

  /** Under any such sort, rearranging a list never changes the outcome, exactly
      when the list does not have two different definitions of one name. */
  lemma OrderIrrelevantExactly<B(!new)>(a: seq<Definition<B>>, order: seq<string> -> seq<nat>)
    requires SortsNames(order)
    ensures NamesDetermine(a) <==> forall b :: multiset(a) == multiset(b) ==> InOrder(order, a) == InOrder(order, b)
  {
    if NamesDetermine(a) {
      forall b | multiset(a) == multiset(b) ensures InOrder(order, a) == InOrder(order, b) {
        SortsEqually(a, b, order);
      }
    } else {
      var b := RejectedRearrangement(a);
    }
  }

  function EitherOrder<B>(d: Definition<B>, e: Definition<B>): bool -> Option<seq<Definition<B>>> {
    first => Some(if first then [d, e] else [e, d])
  }

  const TWO_PEERS := [Response(200, true), Response(200, false)]

  lemma SameTwoDefinitions<B>(d: Definition<B>, e: Definition<B>)
    ensures SameDefinitions(TWO_PEERS, EitherOrder(d, e))
  {
    assert multiset([d, e]) == multiset([e, d]);
  }

  lemma AgreeAt<P, M>(responses: seq<Response<P>>, unmarshal: P -> Option<M>, i: nat, j: nat)
    requires AllAgree(responses, unmarshal) && i < |responses| && j < |responses|
    ensures unmarshal(responses[i].payload) == unmarshal(responses[j].payload)
  {
  }

  lemma OppositeOrders<B>(d: Definition<B>, e: Definition<B>, order: seq<string> -> seq<nat>)
    requires d.name == e.name && d != e && SortsNames(order)
    ensures InOrder(order, [d, e]) != InOrder(order, [e, d])
  {
    assert Names([d, e]) == Names([e, d]);
    OrderOf(order, [d, e]);
    OrderOf(order, [e, d]);
    hide *;
    ArrangedApart(d, e, order(Names([d, e])));
  }

  lemma ArrangedApart<T>(d: T, e: T, p: seq<nat>)
    requires d != e && IsPermutation(p, 2)
    ensures Arrange([d, e], p) != Arrange([e, d], p)
  {
    hide Distinct;
    assert p[0] == 0 || p[0] == 1;
    assert Arrange([d, e], p)[0] != Arrange([e, d], p)[0];
  }

  /** Two peers listing the same two definitions of one name in opposite order are
      rejected, whatever the sort. */
  lemma SameNameRejected<B>(d: Definition<B>, e: Definition<B>, order: seq<string> -> seq<nat>)
    requires d.name == e.name && d != e && SortsNames(order)
    ensures SameDefinitions(TWO_PEERS, EitherOrder(d, e))
    ensures !AllAgree(TWO_PEERS, UnmarshalInOrder("", (first: bool) => None, EitherOrder(d, e), order))
  {
    OppositeOrders(d, e, order);
    SameTwoDefinitions(d, e);
    var unmarshal := UnmarshalInOrder("", (first: bool) => None, EitherOrder(d, e), order);
    assert unmarshal(true) == Some(Listing(InOrder(order, [d, e])));
    assert unmarshal(false) == Some(Listing(InOrder(order, [e, d])));
    hide *;
    if AllAgree(TWO_PEERS, unmarshal) {
      AgreeAt(TWO_PEERS, unmarshal, 0, 1);
    }
  }

  // ---- such a sort exists -----------------------------------------------------

  /** Insertion of index `i` into indexes already in order. */
  function Insert(p: seq<nat>, names: seq<string>, i: nat): (q: seq<nat>)
    requires i < |names| && forall k :: 0 <= k < |p| ==> p[k] < |names|
    ensures |q| == |p| + 1 && forall k :: 0 <= k < |q| ==> q[k] == i || q[k] in p
  {
    if p != [] && Less(names[p[|p| - 1]], names[i]) then Insert(p[..|p| - 1], names, i) + [p[|p| - 1]] else p + [i]
  }

  function InsertUpTo(names: seq<string>, n: nat): (p: seq<nat>)
    requires n <= |names|
    ensures |p| == n && forall k :: 0 <= k < |p| ==> p[k] < n
  {
    if n == 0 then [] else Insert(InsertUpTo(names, n - 1), names, n - 1)
  }

  function InsertionOrder(names: seq<string>): seq<nat> {
    InsertUpTo(names, |names|)
  }

  ghost predicate InDescent(p: seq<nat>, names: seq<string>) {
    && Distinct(p)
    && (forall k :: 0 <= k < |p| ==> p[k] < |names|)
    && (forall j, k :: 0 <= j < k < |p| ==> !Less(names[p[j]], names[p[k]]))
  }

  /** Going down twice goes down. */
  lemma NotLessTransitive(a: string, b: string, c: string)
    requires !Less(a, b) && !Less(b, c)
    ensures !Less(a, c)
  {
    if Less(a, c) {
      LessIsTotal(b, a);
      LessIsTotal(b, c);
      if Less(b, a) {
        LessIsTransitive(b, a, c);
      }
    }
  }

  lemma {:induction false} InsertDescends(p: seq<nat>, names: seq<string>, i: nat)
    requires InDescent(p, names) && i < |names| && i !in p
    ensures InDescent(Insert(p, names, i), names)
  {
    hide Less;
    if p != [] {
      var init, last := p[..|p| - 1], p[|p| - 1];
      if Less(names[last], names[i]) {
        InsertDescends(init, names, i);
        var q := Insert(init, names, i);
        forall k | 0 <= k < |q| ensures !Less(names[q[k]], names[last]) && q[k] != last {
          LessIsTotal(names[last], names[i]);
        }
      } else {
        forall k | 0 <= k < |p| ensures !Less(names[p[k]], names[i]) {
          if k < |p| - 1 { NotLessTransitive(names[p[k]], names[last], names[i]); }
        }
      }
    }
  }

  lemma {:induction false} InsertUpToDescends(names: seq<string>, n: nat)
    requires n <= |names|
    ensures InDescent(InsertUpTo(names, n), names)
  {
    if n > 0 {
      InsertUpToDescends(names, n - 1);
      InsertDescends(InsertUpTo(names, n - 1), names, n - 1);
    }
  }

  /** What is said of every such sort is said of one at least. */
  lemma InsertionSorts()
    ensures SortsNames(InsertionOrder)
  {
    forall names: seq<string>
      ensures OrdersWell(InsertionOrder, names)
    {
      InsertUpToDescends(names, |names|);
    }
  }
}
