/** What a browse returns, block by block and transaction by transaction, and
    exactly when it fails. */
module BrowserLaws {
  import opened Options
  import opened ChannelBrowser

  /** A block info shows its block: number, hashes, and each transaction in turn. */
  ghost predicate Shows<D>(l: Ledger<D>, info: BlockInfo<D>, hash: Hash, number: nat, previous: Hash,
                           txs: seq<TxBytes>)
  {
    && info.blockNum == number && info.headerHash == hash && info.preBlockHeaderHash == previous
    && info.transCnt == |txs| % TWO_64
    && |info.transactionInfos| == |txs|
    && forall i :: 0 <= i < |txs| ==> info.transactionInfos[i] == TransactionInfo(number, l.decode(txs[i]))
  }

  lemma InfoShows<D>(l: Ledger<D>, hash: Hash, number: nat, previous: Hash, txs: seq<TxBytes>)
    ensures Shows(l, InfoOf(l, Link(hash, Block(number, previous, txs))), hash, number, previous, txs)
    ensures TWO_64 == 18446744073709551616
  {
  }

  /** The i-th info of a successful browse shows the i-th block from the top, with
      its own transactions, and links to the block below. */
  lemma VisitedBlock<D>(l: Ledger<D>, chain: seq<Link>, c: Config, i: nat)
    requires Describes(l, chain) && chain != [] && Expected(l, chain, c).Ok?
    requires i < |Expected(l, chain, c).info.blocks|
    ensures var n := |chain| - 1 - i;
            && 0 <= n && Expected(l, chain, c).info.blockHeight == |chain|
            && Shows(l, Expected(l, chain, c).info.blocks[i], chain[n].hash, n,
                     if n == 0 then [] else chain[n - 1].hash, chain[n].block.transactions)
  {
    var lo := Lowest(l, chain, c);
    DownNumbers(l, chain, lo);
    DownAt(l, chain, lo, |chain|, i);
    assert LinkOk(l, chain, |chain| - 1 - i);
  }

  /** The transaction infos of a browse are those of its blocks, in their order. */
  lemma AllTransactions<D>(a: seq<BlockInfo<D>>, b: BlockInfo<D>, height: nat)
    ensures Summary(height, a + [b]).transactionInfos == Summary(height, a).transactionInfos + b.transactionInfos
    ensures Summary(height, a + [b]).blocks == Summary(height, a).blocks + [b]
    ensures Summary<D>(height, []) == ChannelInfo(height, 0, [], [])
    ensures Summary(height, a).transTotal == |Summary(height, a).transactionInfos| % 18446744073709551616
  {
    assert (a + [b])[..|a|] == a;
  }

  /** The blocks that the limits ask for. */
  ghost predicate Wanted<D>(l: Ledger<D>, chain: seq<Link>, c: Config, i: nat)
    requires i < |chain|
  {
    && (c.limitType == 0 ==> c.blockCountLimit == 0 || i + c.blockCountLimit >= |chain|)
    && (c.limitType == 1 ==> forall k: nat :: IsLast(l, chain, c.lastBlockHeaderHash, k) ==> k < i)
    && (c.limitType == 2 ==> c.lastBlockNum < i)
  }

  lemma WantedExactly<D>(l: Ledger<D>, chain: seq<Link>, c: Config, i: nat)
    requires Describes(l, chain) && 0 <= c.limitType <= 2 && i < |chain|
    ensures Wanted(l, chain, c, i) <==> Lowest(l, chain, c) <= i
  {
    if c.limitType == 1 {
      if k: nat :| IsLast(l, chain, c.lastBlockHeaderHash, k) {
        LowestByHash(l, chain, c, k);
        forall j: nat | IsLast(l, chain, c.lastBlockHeaderHash, j) ensures j == k {
          LastIsUnique(l, chain, c.lastBlockHeaderHash, j, k);
        }
      }
    }
  }

  /** Whether the limits can be understood. */
  ghost predicate Understood<D>(l: Ledger<D>, c: Config) {
    || c.limitType == 0 || c.limitType == 2
    || (c.limitType == 1 && c.lastBlockHeaderHash != "" && l.hexDecode(c.lastBlockHeaderHash).Some?)
  }

  /** A browse succeeds exactly when its limits can be understood, the peers answer
      for the channel and for every wanted block, and there is a block at all;
      without one, only the largest block number as limit succeeds. */
  lemma SucceedsExactly<D>(l: Ledger<D>, chain: seq<Link>, c: Config)
    requires Describes(l, chain)
    ensures Expected(l, chain, c).Ok? <==>
            && Understood(l, c) && l.info.Some?
            && (chain == [] ==> c.limitType == 2 && c.lastBlockNum == 18446744073709551615)
            && forall i :: 0 <= i < |chain| && Wanted(l, chain, c, i) ==> l.fetch(chain[i].hash).Some?
  {
    if 0 <= c.limitType <= 2 {
      forall i | 0 <= i < |chain| ensures Wanted(l, chain, c, i) <==> Lowest(l, chain, c) <= i {
        WantedExactly(l, chain, c, i);
      }
    }
  }

  /** Which error is reported: the first that applies. */
  lemma FailsExactly<D>(l: Ledger<D>, chain: seq<Link>, c: Config)
    ensures var r := Expected(l, chain, c);
            && (r == Err(BadLimitType) <==> c.limitType < 0 || 2 < c.limitType)
            && (r == Err(NoLastHash) <==> c.limitType == 1 && c.lastBlockHeaderHash == "")
            && (r == Err(BadLastHash) <==>
                  c.limitType == 1 && c.lastBlockHeaderHash != "" && l.hexDecode(c.lastBlockHeaderHash).None?)
            && (r == Err(QueryInfoFailed) <==> Understood(l, c) && l.info.None?)
            && (r == Err(QueryBlockFailed) <==> Understood(l, c) && l.info.Some? && !r.Ok?)
  {
  }

  /** A channel with its first block only, holding two transactions. */
  lemma OneBlockChannel<D>(hash: Hash, t: TxBytes, u: TxBytes, decode: TxBytes -> D)
    returns (l: Ledger<D>, chain: seq<Link>)
    requires hash != []
    ensures Describes(l, chain) && |chain| == 1
    ensures Expected(l, chain, Config(0, 0, "", 0)).Ok?
    ensures Expected(l, chain, Config(0, 0, "", 0)).info.transactionInfos
         == [TransactionInfo(0, decode(t)), TransactionInfo(0, decode(u))]
  {
    var block := Block(0, [], [t, u]);
    chain := [Link(hash, block)];
    l := Ledger(Some((1, hash)), (h: Hash) => if h == hash then Some(block) else None, (s: string) => None, decode);
    assert LinkOk(l, chain, 0);
    FullBrowse(l, chain);
    var info := InfoOf(l, chain[0]);
    InfoShows(l, hash, 0, [], [t, u]);
    assert Down(l, chain, 0, 1) == [info];
    AllTransactions([], info, 1);
    assert [] + [info] == [info];
  }
}
