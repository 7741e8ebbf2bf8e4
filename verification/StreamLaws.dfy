/** What the lists that a stream returns consist of. Each law splits a list
    anywhere and says what a single message contributes, which fixes the list and
    its order. */
module StreamLaws {
  import opened Options
  import opened OrdererStream

  lemma Associative<T>(a: seq<T>, b: seq<T>, c: seq<T>)
    ensures (a + b) + c == a + (b + c)
  {
  }

  lemma BadCodesFirst(a: seq<int>, b: seq<int>)
    requires a != []
    ensures BadCodes(a + b) == (if a[0] == STATUS_SUCCESS then [] else [ServerStatus(a[0])]) + BadCodes(a[1..] + b)
  {
    assert (a + b)[0] == a[0] && (a + b)[1..] == a[1..] + b;
  }

  lemma {:induction false} BadCodesSplit(a: seq<int>, b: seq<int>)
    ensures BadCodes(a + b) == BadCodes(a) + BadCodes(b)
  {
    if a == [] {
      assert a + b == b;
    } else {
      var one := (if a[0] == STATUS_SUCCESS then [] else [ServerStatus(a[0])]);
      assert BadCodes(a) == one + BadCodes(a[1..]);
      BadCodesFirst(a, b);
      hide *;
      BadCodesSplit(a[1..], b);
      Associative(one, BadCodes(a[1..]), BadCodes(b));
    }
  }

  lemma StatusCodesFirst<B>(a: seq<DeliverMessage<B>>, b: seq<DeliverMessage<B>>)
    requires a != []
    ensures StatusCodes(a + b) == (if a[0].Status? then [a[0].code] else []) + StatusCodes(a[1..] + b)
  {
    assert (a + b)[0] == a[0] && (a + b)[1..] == a[1..] + b;
  }

  lemma {:induction false} StatusCodesSplit<B>(a: seq<DeliverMessage<B>>, b: seq<DeliverMessage<B>>)
    ensures StatusCodes(a + b) == StatusCodes(a) + StatusCodes(b)
  {
    if a == [] {
      assert a + b == b;
    } else {
      var one := (if a[0].Status? then [a[0].code] else []);
      assert StatusCodes(a) == one + StatusCodes(a[1..]);
      StatusCodesFirst(a, b);
      hide *;
      StatusCodesSplit(a[1..], b);
      Associative(one, StatusCodes(a[1..]), StatusCodes(b));
    }
  }

  lemma BlocksFirst<B>(a: seq<DeliverMessage<B>>, b: seq<DeliverMessage<B>>)
    requires a != []
    ensures Blocks(a + b) == (if a[0].Block? then [a[0].block] else []) + Blocks(a[1..] + b)
  {
    assert (a + b)[0] == a[0] && (a + b)[1..] == a[1..] + b;
  }

  lemma {:induction false} BlocksSplit<B>(a: seq<DeliverMessage<B>>, b: seq<DeliverMessage<B>>)
    ensures Blocks(a + b) == Blocks(a) + Blocks(b)
  {
    if a == [] {
      assert a + b == b;
    } else {
      var one := (if a[0].Block? then [a[0].block] else []);
      assert Blocks(a) == one + Blocks(a[1..]);
      BlocksFirst(a, b);
      hide *;
      BlocksSplit(a[1..], b);
      Associative(one, Blocks(a[1..]), Blocks(b));
    }
  }

  /** One status: 200 is no error, any other code is that error. */
  lemma OneCode(c: int)
    ensures BadCodes([c]) == if c == 200 then [] else [ServerStatus(c)]
    ensures BadCodes([]) == []
  {
  }

  /** One delivery message: a status carries no block, a block no status, and
      anything else neither. */
  lemma OneMessage<B>(c: int, b: B)
    ensures StatusCodes<B>([Status(c)]) == [c] && Blocks<B>([Status(c)]) == []
    ensures StatusCodes([Block(b)]) == [] && Blocks([Block(b)]) == [b]
    ensures StatusCodes<B>([Unknown]) == [] && Blocks<B>([Unknown]) == []
    ensures StatusCodes<B>([]) == [] && Blocks<B>([]) == []
  {
  }

  /** A broadcast answered by one message and a clean end, and one that fails. */
  lemma OneAnswer(c: int, states: seq<State<int, StreamError>>, moves: seq<Move>, failed: bool)
    requires IsRun(BroadcastScript([c], if failed then Failed(RecvFailed) else Eof), 1, states, moves)
    requires states[|moves|].consumer.Returned?
    ensures states[|moves|].last == if c == 200 then Some(200) else None
    ensures states[|moves|].errs
         == (if c == 200 then [] else [ServerStatus(c)]) + (if failed then [RecvFailed] else [])
  {
    BroadcastReturns([c], if failed then Failed(RecvFailed) else Eof, states, moves);
    OneCode(c);
  }
}
