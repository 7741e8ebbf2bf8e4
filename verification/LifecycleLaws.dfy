/** The order of names, and agreement on a single definition. */
module LifecycleLaws {
  import opened Options
  import opened Sequences
  import opened Lifecycle

  /** The names agree before position k and differ there, upwards. */
  ghost predicate DiffersUpAt(a: string, b: string, k: nat) {
    k < |a| && k < |b| && a[..k] == b[..k] && a[k] < b[k]
  }

  /** One name is less than another exactly when it is a proper beginning of it, or
      has the smaller character where they first differ. */
  lemma {:induction false} LessExactly(a: string, b: string)
    ensures Less(a, b) <==> (|a| < |b| && b[..|a|] == a) || exists k: nat :: DiffersUpAt(a, b, k)
  {
    if a != [] && b != [] {
      LessExactly(a[1..], b[1..]);
      assert a == [a[0]] + a[1..] && b == [b[0]] + b[1..];
      if a[0] < b[0] {
        assert DiffersUpAt(a, b, 0);
      }
      if a[0] == b[0] {
        if k: nat :| DiffersUpAt(a[1..], b[1..], k) {
          assert a[..k + 1] == [a[0]] + a[1..][..k] && b[..k + 1] == [b[0]] + b[1..][..k];
          assert DiffersUpAt(a, b, k + 1);
        }
        if k: nat :| DiffersUpAt(a, b, k) {
          assert k > 0;
          assert a[1..][..k - 1] == a[..k][1..] && b[1..][..k - 1] == b[..k][1..];
          assert DiffersUpAt(a[1..], b[1..], k - 1);
        }
        if |a| < |b| && b[1..][..|a| - 1] == a[1..] {
          assert b[..|a|] == [b[0]] + b[1..][..|a| - 1];
        }
        if |a| < |b| && b[..|a|] == a {
          assert b[1..][..|a| - 1] == b[..|a|][1..];
        }
      }
      if |a| < |b| && b[..|a|] == a { assert b[..|a|][0] == a[0]; }
    }
  }

  /** The sorted list goes from the greatest name down. */
  lemma SortedDownwards<B>(order: seq<string> -> seq<nat>, s: seq<Definition<B>>)
    requires SortsNames(order)
    ensures var t := InOrder(order, s);
            && multiset(t) == multiset(s)
            && forall i, j :: 0 <= i < j < |t| ==> t[i].name == t[j].name || Less(t[j].name, t[i].name)
  {
    InOrderSorts(order, s);
    var t := InOrder(order, s);
    forall i, j | 0 <= i < j < |t| ensures t[i].name == t[j].name || Less(t[j].name, t[i].name) {
      LessIsTotal(t[i].name, t[j].name);
    }
  }

  /** A query for one name sorts nothing: peers agree exactly when all decode to the
      same definition with the same status. */
  lemma OneDefinition<P, B>(name: string, responses: seq<Response<P>>, decodeOne: P -> Option<Definition<B>>,
                            decodeAll: P -> Option<seq<Definition<B>>>, order: seq<string> -> seq<nat>)
    requires name != "" && SortsNames(order)
    ensures AllAgree(responses, UnmarshalInOrder(name, decodeOne, decodeAll, order)) <==>
            && (forall i :: 0 <= i < |responses| ==> decodeOne(responses[i].payload).Some?)
            && (forall i, j :: 0 <= i < |responses| && 0 <= j < |responses| ==>
                  && responses[i].status == responses[j].status
                  && decodeOne(responses[i].payload) == decodeOne(responses[j].payload))
  {
    var unmarshal := UnmarshalInOrder(name, decodeOne, decodeAll, order);
    forall p ensures unmarshal(p) == match decodeOne(p) case None => None case Some(d) => Some(One(d)) {}
  }
}
