/** Sending to ordering service endpoints one by one in random order until one
    accepts: the loop of broadcastEnvelope and of SendPayload. */
module Broadcast {
  import opened Sequences

  datatype Reply<V, E> = Accepted(value: V) | Refused(error: E)
  datatype Result<V, E> = NoOrderers | Sent(value: V) | Exhausted(lastError: E)

  ghost predicate SomeAccepts<O, V, E>(orderers: seq<O>, send: O -> Reply<V, E>) {
    exists i :: 0 <= i < |orderers| && send(orderers[i]).Accepted?
  }

  /** `order` is what rand.Perm returned; `tried` lists the endpoints contacted.
      Success does not depend on the order. */
  method TryInOrder<O, V, E>(orderers: seq<O>, order: seq<nat>, send: O -> Reply<V, E>)
    returns (r: Result<V, E>, tried: seq<nat>)
    requires IsPermutation(order, |orderers|)
    ensures r.NoOrderers? <==> orderers == []
    ensures r.Sent? <==> SomeAccepts(orderers, send)
    ensures |tried| <= |order| && tried == order[..|tried|]
    ensures forall i :: 0 <= i < |tried| - 1 ==> tried[i] < |orderers| && send(orderers[tried[i]]).Refused?
    ensures !r.NoOrderers? ==> tried != [] && tried[|tried| - 1] < |orderers|
    ensures r.Sent? ==> send(orderers[tried[|tried| - 1]]) == Accepted(r.value)
    ensures r.Exhausted? ==> |tried| == |orderers| && send(orderers[tried[|tried| - 1]]) == Refused(r.lastError)
  {
    tried := [];
    if |orderers| == 0 {
      return NoOrderers, tried;
    }
    r := NoOrderers;
    for n := 0 to |order|
      invariant tried == order[..n]
      invariant forall i :: 0 <= i < n ==> send(orderers[order[i]]).Refused?
      invariant if n == 0 then r.NoOrderers? else r == Exhausted(send(orderers[order[n - 1]]).error)
    {
      var reply := send(orderers[order[n]]);
      tried := tried + [order[n]];
      match reply
      case Refused(e) => r := Exhausted(e);
      case Accepted(v) => return Sent(v), tried;
    }
    forall i | 0 <= i < |orderers|
      ensures send(orderers[i]).Refused?
    {
      PermutationCovers(order, |orderers|, i);
    }
  }
}
