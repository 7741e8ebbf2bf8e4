/** Browsing a channel backwards along the header hashes of its blocks. */
module ChannelBrowser {
  import opened Options

  const TWO_64: nat := 0x1_0000_0000_0000_0000

  type Hash = seq<bv8>
  type TxBytes = seq<bv8>

  function Inc64(x: nat): nat { (x + 1) % TWO_64 }
  function Add64(x: nat, y: nat): nat { (x + y) % TWO_64 }
  function Dec64(x: nat): nat { if x == 0 then TWO_64 - 1 else x - 1 }

  datatype Block = Block(number: nat, previousHash: Hash, transactions: seq<TxBytes>)

  /** `body` is what the decoding pipeline found, an error message included. */
  datatype TransactionInfo<D> = TransactionInfo(blockNum: nat, body: D)
  datatype BlockInfo<D> = BlockInfo(
    blockNum: nat, headerHash: Hash, preBlockHeaderHash: Hash, transCnt: nat, transactionInfos: seq<TransactionInfo<D>>)
  datatype ChannelInfo<D> = ChannelInfo(
    blockHeight: nat, transTotal: nat, blocks: seq<BlockInfo<D>>, transactionInfos: seq<TransactionInfo<D>>)

  /** `limitType`: 0 by number of blocks, 1 by header hash, 2 by block number. */
  datatype Config = Config(limitType: int, blockCountLimit: nat, lastBlockHeaderHash: string, lastBlockNum: nat) {
    ghost predicate Uint64() { blockCountLimit < TWO_64 && lastBlockNum < TWO_64 }
  }

  datatype Error = BadLimitType | NoLastHash | BadLastHash | QueryInfoFailed | QueryBlockFailed
  datatype Result<D> = Ok(info: ChannelInfo<D>) | Err(error: Error)

  /** The peers as a client sees them: the answers to QueryInfo (height and
      current hash) and QueryBlockByHash, either of which may fail; the
      decoders for hex and for one transaction. */
  datatype Ledger<!D> = Ledger(
    info: Option<(nat, Hash)>,
    fetch: Hash -> Option<Block>,
    hexDecode: string -> Option<Hash>,
    decode: TxBytes -> D)

  // ---- the chain behind the answers ----

  datatype Link = Link(hash: Hash, block: Block)

  /** The header hash of the block below height `n`; the genesis block has no predecessor. */
  ghost function HashBelow(chain: seq<Link>, n: nat): Hash
    requires n <= |chain|
  {
    if n == 0 then [] else chain[n - 1].hash
  }

  /** The answers come from `chain`, genesis first.  A query may still fail. */
  ghost predicate Describes<D>(l: Ledger<D>, chain: seq<Link>) {
    && |chain| < TWO_64
    && (l.info.Some? ==> l.info.value.0 == |chain| && l.info.value.1 == HashBelow(chain, |chain|))
    && l.fetch([]).None?
    && (forall s :: s != "" && l.hexDecode(s).Some? ==> l.hexDecode(s).value != [])
    && (forall i :: 0 <= i < |chain| ==> LinkOk(l, chain, i))
    && DistinctHashes(chain)
  }

  ghost predicate LinkOk<D>(l: Ledger<D>, chain: seq<Link>, i: nat)
    requires i < |chain|
  {
    && chain[i].hash != [] && chain[i].block.number == i
    && chain[i].block.previousHash == HashBelow(chain, i)
    && (l.fetch(chain[i].hash).Some? ==> l.fetch(chain[i].hash).value == chain[i].block)
  }

  ghost predicate DistinctHashes(chain: seq<Link>) {
    forall i, j :: 0 <= i < j < |chain| ==> chain[i].hash != chain[j].hash
  }

  // ---- what a browse should return ----

  ghost function InfosOf<D>(l: Ledger<D>, number: nat, txs: seq<TxBytes>): seq<TransactionInfo<D>> {
    seq(|txs|, i requires 0 <= i < |txs| => TransactionInfo(number, l.decode(txs[i])))
  }

  ghost function InfoOf<D>(l: Ledger<D>, k: Link): BlockInfo<D> {
    BlockInfo(k.block.number, k.hash, k.block.previousHash, |k.block.transactions| % TWO_64,
              InfosOf(l, k.block.number, k.block.transactions))
  }

  /** Blocks hi-1 down to lo. */
  ghost function Down<D>(l: Ledger<D>, chain: seq<Link>, lo: nat, hi: nat): seq<BlockInfo<D>>
    requires lo <= hi <= |chain|
    decreases hi - lo
  {
    if lo == hi then [] else [InfoOf(l, chain[hi - 1])] + Down(l, chain, lo, hi - 1)
  }

  ghost function Flatten<D>(bs: seq<BlockInfo<D>>): seq<TransactionInfo<D>> {
    if bs == [] then [] else Flatten(bs[..|bs| - 1]) + bs[|bs| - 1].transactionInfos
  }

  ghost function Summary<D>(height: nat, bs: seq<BlockInfo<D>>): ChannelInfo<D> {
    ChannelInfo(height, |Flatten(bs)| % TWO_64, bs, Flatten(bs))
  }

  ghost predicate IsLast<D>(l: Ledger<D>, chain: seq<Link>, s: string, k: nat) {
    k < |chain| && l.hexDecode(s) == Some(chain[k].hash)
  }

  /** The lowest block a browse visits. */
  ghost function Lowest<D>(l: Ledger<D>, chain: seq<Link>, c: Config): (lo: nat)
    ensures lo <= |chain|
  {
    if c.limitType == 0 then
      (if c.blockCountLimit == 0 || c.blockCountLimit >= |chain| then 0 else |chain| - c.blockCountLimit)
    else if c.limitType == 1 then
      (if k: nat :| IsLast(l, chain, c.lastBlockHeaderHash, k) then k + 1 else 0)
    else
      (if c.lastBlockNum < |chain| then c.lastBlockNum + 1 else |chain|)
  }

  ghost predicate Fetched<D>(l: Ledger<D>, chain: seq<Link>, lo: nat, hi: nat)
    requires hi <= |chain|
  {
    forall i :: lo <= i < hi ==> l.fetch(chain[i].hash).Some?
  }

  ghost function Expected<D>(l: Ledger<D>, chain: seq<Link>, c: Config): Result<D> {
    if c.limitType < 0 || c.limitType > 2 then Err(BadLimitType)
    else if c.limitType == 1 && c.lastBlockHeaderHash == "" then Err(NoLastHash)
    else if c.limitType == 1 && l.hexDecode(c.lastBlockHeaderHash).None? then Err(BadLastHash)
    else if l.info.None? then Err(QueryInfoFailed)
    else if chain == [] && !(c.limitType == 2 && c.lastBlockNum == TWO_64 - 1) then Err(QueryBlockFailed)
    else
      var lo := Lowest(l, chain, c);
      if Fetched(l, chain, lo, |chain|) then Ok(Summary(|chain|, Down(l, chain, lo, |chain|)))
      else Err(QueryBlockFailed)
  }

  lemma LastIsUnique<D>(l: Ledger<D>, chain: seq<Link>, s: string, j: nat, k: nat)
    requires Describes(l, chain) && IsLast(l, chain, s, j) && IsLast(l, chain, s, k)
    ensures j == k
  {
    assert chain[j].hash == chain[k].hash;
  }

  lemma LowestByHash<D>(l: Ledger<D>, chain: seq<Link>, c: Config, k: nat)
    requires Describes(l, chain) && c.limitType == 1 && IsLast(l, chain, c.lastBlockHeaderHash, k)
    ensures Lowest(l, chain, c) == k + 1
  {
    var j: nat :| IsLast(l, chain, c.lastBlockHeaderHash, j) && Lowest(l, chain, c) == j + 1;
    LastIsUnique(l, chain, c.lastBlockHeaderHash, j, k);
  }

  // ---- the code ----

  /** One info per transaction, whatever decoding finds. */
  method UnmarshalBlockData<D>(l: Ledger<D>, block: Block, hash: Hash) returns (info: BlockInfo<D>)
    ensures info == InfoOf(l, Link(hash, block))
    ensures |info.transactionInfos| == |block.transactions|
  {
    var infos: seq<TransactionInfo<D>> := [];
    for i := 0 to |block.transactions|
      invariant infos == InfosOf(l, block.number, block.transactions[..i])
    {
      infos := infos + [TransactionInfo(block.number, l.decode(block.transactions[i]))];
    }
    assert block.transactions[..|block.transactions|] == block.transactions;
    info := BlockInfo(block.number, hash, block.previousHash, |block.transactions| % TWO_64, infos);
  }

  lemma DownSnoc<D>(l: Ledger<D>, chain: seq<Link>, lo: nat, hi: nat)
    requires lo < hi <= |chain|
    ensures Down(l, chain, lo, hi) == Down(l, chain, lo + 1, hi) + [InfoOf(l, chain[lo])]
    decreases hi - lo
  {
    if lo + 1 < hi {
      DownSnoc(l, chain, lo, hi - 1);
    }
  }

  /** The three stop rules, after `cnt` was incremented and `num` decremented. */
  predicate Stops(c: Config, lastHash: Hash, cnt: nat, num: nat, cur: Hash) {
    || (c.limitType == 0 && c.blockCountLimit > 0 && c.blockCountLimit < cnt)
    || (c.limitType == 1 && cur == lastHash)
    || (c.limitType == 2 && c.lastBlockNum >= num)
  }

  /** They fire exactly below the last block to visit; on an empty chain the
      decrement wraps around and only the largest block number stops. */
  lemma StopRule<D>(l: Ledger<D>, chain: seq<Link>, c: Config, lastHash: Hash, left: nat)
    requires Describes(l, chain) && c.Uint64() && 0 <= c.limitType <= 2 && Lowest(l, chain, c) <= left <= |chain|
    requires c.limitType == 1 ==> c.lastBlockHeaderHash != "" && l.hexDecode(c.lastBlockHeaderHash) == Some(lastHash)
    requires left == 0 ==> chain == []
    ensures Stops(c, lastHash, Inc64(|chain| - left), Dec64(left), HashBelow(chain, left))
            <==> Lowest(l, chain, c) == left && (left == 0 ==> c.limitType == 2 && c.lastBlockNum == TWO_64 - 1)
  {
    if left > 0 && c.limitType == 1 && chain[left - 1].hash == lastHash {
      assert IsLast(l, chain, c.lastBlockHeaderHash, left - 1);
      LowestByHash(l, chain, c, left - 1);
    }
  }

  /** What one turn of the loop learns about block `cur`. */
  lemma LoopTurn<D>(l: Ledger<D>, chain: seq<Link>, lo: nat, left: nat)
    requires Describes(l, chain) && left <= |chain|
    requires if left == 0 then chain == [] else lo < left && Fetched(l, chain, left, |chain|)
    ensures left == 0 ==> l.fetch(HashBelow(chain, 0)).None?
    ensures left > 0 ==>
            var cur := left - 1;
            var fetched, next := l.fetch(chain[cur].hash), HashBelow(chain, cur);
            && Fetched(l, chain, cur, |chain|) == fetched.Some?
            && (fetched.None? ==> !Fetched(l, chain, lo, |chain|))
            && (fetched.Some? ==> fetched.value == chain[cur].block && fetched.value.previousHash == next)
            && (next == [] <==> cur == 0)
    ensures left > 0 ==>
              Down(l, chain, left - 1, |chain|) == Down(l, chain, left, |chain|) + [InfoOf(l, chain[left - 1])]
  {
    if left > 0 {
      assert LinkOk(l, chain, left - 1);
      if left > 1 { assert LinkOk(l, chain, left - 2); }
      DownSnoc(l, chain, left - 1, |chain|);
    }
  }

  /** The variables of the loop when the blocks from `left` up are visited. */
  ghost predicate Browsed<D>(l: Ledger<D>, chain: seq<Link>, left: nat, cur: Hash,
                             blocks: seq<BlockInfo<D>>, infos: seq<TransactionInfo<D>>, total: nat)
  {
    && left <= |chain|
    && Fetched(l, chain, left, |chain|)
    && cur == HashBelow(chain, left)
    && blocks == Down(l, chain, left, |chain|)
    && infos == Flatten(blocks) && total == |infos| % TWO_64
  }

  lemma AppendInfo<D>(l: Ledger<D>, bs: seq<BlockInfo<D>>, k: Link)
    ensures var info := InfoOf(l, k);
            && Flatten(bs + [info]) == Flatten(bs) + info.transactionInfos
            && Add64(|Flatten(bs)| % TWO_64, info.transCnt) == |Flatten(bs + [info])| % TWO_64
  {
    assert (bs + [InfoOf(l, k)])[..|bs|] == bs;
  }

  /** One turn: the block below is fetched and appended, or the browse fails. */
  lemma BrowseTurn<D>(l: Ledger<D>, chain: seq<Link>, lo: nat, left: nat, cur: Hash,
                      blocks: seq<BlockInfo<D>>, infos: seq<TransactionInfo<D>>, total: nat)
    requires Describes(l, chain) && Browsed(l, chain, left, cur, blocks, infos, total)
    requires if left == 0 then chain == [] else lo < left
    ensures l.fetch(cur).None? ==> left == 0 || !Fetched(l, chain, lo, |chain|)
    ensures l.fetch(cur).Some? ==>
            var block := l.fetch(cur).value;
            var info := InfoOf(l, Link(cur, block));
            && left > 0 && (block.previousHash == [] <==> left == 1)
            && Browsed(l, chain, left - 1, block.previousHash, blocks + [info],
                       infos + info.transactionInfos, Add64(total, info.transCnt))
  {
    LoopTurn(l, chain, lo, left);
    if left > 0 {
      AppendInfo(l, blocks, chain[left - 1]);
    }
    hide Describes, Fetched, Down, InfoOf, Flatten;
  }

  /** The expected result when the browse stops before block `left - 1`. */
  lemma StopsAt<D>(l: Ledger<D>, chain: seq<Link>, c: Config)
    requires Describes(l, chain) && l.info.Some? && 0 <= c.limitType <= 2
    requires c.limitType == 1 ==> c.lastBlockHeaderHash != "" && l.hexDecode(c.lastBlockHeaderHash).Some?
    requires chain != [] || (c.limitType == 2 && c.lastBlockNum == TWO_64 - 1)
    ensures var lo := Lowest(l, chain, c);
            Expected(l, chain, c)
            == if Fetched(l, chain, lo, |chain|) then Ok(Summary(|chain|, Down(l, chain, lo, |chain|)))
               else Err(QueryBlockFailed)
  {
  }

  method BrowseChannelWithConfig<D>(l: Ledger<D>, c: Config, ghost chain: seq<Link>) returns (r: Result<D>)
    requires Describes(l, chain) && c.Uint64()
    ensures r == Expected(l, chain, c)
    ensures r.Ok? ==> r.info.transTotal == |r.info.transactionInfos| % TWO_64
  {
    if c.limitType < 0 || c.limitType > 2 {
      return Err(BadLimitType);
    }
    var lastHash: Hash := [];
    if c.limitType == 1 {
      if c.lastBlockHeaderHash == "" {
        return Err(NoLastHash);
      }
      var decoded := l.hexDecode(c.lastBlockHeaderHash);
      if decoded.None? {
        return Err(BadLastHash);
      }
      lastHash := decoded.value;
    }
    if l.info.None? {
      return Err(QueryInfoFailed);
    }
    r := BrowseFrom(l, c, lastHash, l.info.value.0, l.info.value.1, chain);
  }

  /** What the loop of a browse may rely on. */
  ghost predicate Ready<D>(l: Ledger<D>, chain: seq<Link>, c: Config, lastHash: Hash) {
    && Describes(l, chain) && c.Uint64() && l.info.Some? && 0 <= c.limitType <= 2
    && (c.limitType == 1 ==> c.lastBlockHeaderHash != "" && l.hexDecode(c.lastBlockHeaderHash) == Some(lastHash))
  }

  /** The variables of the loop before a turn. */
  ghost predicate Browsing<D>(l: Ledger<D>, chain: seq<Link>, c: Config, left: nat, cnt: nat, num: nat, cur: Hash,
                              blocks: seq<BlockInfo<D>>, infos: seq<TransactionInfo<D>>, total: nat)
  {
    && Lowest(l, chain, c) <= left <= |chain| && (left == 0 ==> chain == [])
    && cnt == |chain| - left && num == left
    && Browsed(l, chain, left, cur, blocks, infos, total)
  }

  lemma BrowseStarts<D>(l: Ledger<D>, chain: seq<Link>, c: Config, lastHash: Hash)
    requires Ready(l, chain, c, lastHash)
    ensures Browsing(l, chain, c, |chain|, 0, l.info.value.0, l.info.value.1, [], [], 0)
    ensures l.info.value.0 == |chain|
  {
  }

  /** When all wanted blocks are visited, the variables hold the result. */
  lemma BrowseEnds<D>(l: Ledger<D>, chain: seq<Link>, c: Config, lastHash: Hash, left: nat, cur: Hash,
                      blocks: seq<BlockInfo<D>>, infos: seq<TransactionInfo<D>>, total: nat)
    requires Ready(l, chain, c, lastHash) && Browsed(l, chain, left, cur, blocks, infos, total)
    requires left == Lowest(l, chain, c) && (chain != [] || (c.limitType == 2 && c.lastBlockNum == TWO_64 - 1))
    ensures Expected(l, chain, c) == Ok(ChannelInfo(|chain|, total, blocks, infos))
  {
    StopsAt(l, chain, c);
    hide Lowest, Describes, Fetched, Down, Flatten;
  }

  /** The stop rule fires when all wanted blocks are visited. */
  lemma BrowseStops<D>(l: Ledger<D>, chain: seq<Link>, c: Config, lastHash: Hash,
                       left: nat, cnt: nat, num: nat, cur: Hash,
                       blocks: seq<BlockInfo<D>>, infos: seq<TransactionInfo<D>>, total: nat)
    requires Ready(l, chain, c, lastHash) && Browsing(l, chain, c, left, cnt, num, cur, blocks, infos, total)
    requires Stops(c, lastHash, Inc64(cnt), Dec64(num), cur)
    ensures Expected(l, chain, c) == Ok(ChannelInfo(|chain|, total, blocks, infos))
  {
    StopRule(l, chain, c, lastHash, left);
    hide Lowest, Describes, Fetched, Down, Flatten, Stops, Expected;
    BrowseEnds(l, chain, c, lastHash, left, cur, blocks, infos, total);
  }

  lemma FetchFails<D>(l: Ledger<D>, chain: seq<Link>, c: Config, lastHash: Hash, left: nat)
    requires Ready(l, chain, c, lastHash)
    requires if left == 0 then chain == [] && !(c.limitType == 2 && c.lastBlockNum == TWO_64 - 1)
             else chain != [] && !Fetched(l, chain, Lowest(l, chain, c), |chain|)
    ensures Expected(l, chain, c) == Err(QueryBlockFailed)
  {
    hide Lowest, Describes, Fetched;
  }

  /** One turn that does not stop: the browse fails, goes on, or ends at the first block. */
  lemma BrowseGoesOn<D>(l: Ledger<D>, chain: seq<Link>, c: Config, lastHash: Hash,
                        left: nat, cnt: nat, num: nat, cur: Hash,
                        blocks: seq<BlockInfo<D>>, infos: seq<TransactionInfo<D>>, total: nat)
    requires Ready(l, chain, c, lastHash) && Browsing(l, chain, c, left, cnt, num, cur, blocks, infos, total)
    requires !Stops(c, lastHash, Inc64(cnt), Dec64(num), cur)
    ensures l.fetch(cur).None? ==> Expected(l, chain, c) == Err(QueryBlockFailed)
    ensures l.fetch(cur).Some? ==>
            var block := l.fetch(cur).value;
            var info := InfoOf(l, Link(cur, block));
            var blocks', infos', total' := blocks + [info], infos + info.transactionInfos, Add64(total, info.transCnt);
            && left > 0
            && if |block.previousHash| == 0
               then Expected(l, chain, c) == Ok(ChannelInfo(|chain|, total', blocks', infos'))
               else Browsing(l, chain, c, left - 1, Inc64(cnt), Dec64(num), block.previousHash, blocks', infos', total')
  {
    StopRule(l, chain, c, lastHash, left);
    var lo := Lowest(l, chain, c);
    assert Inc64(cnt) == cnt + 1;
    hide Lowest, Describes, Fetched, Down, Flatten, Stops, Expected, InfoOf, Add64, Inc64;
    BrowseTurn(l, chain, lo, left, cur, blocks, infos, total);
    if l.fetch(cur).None? {
      FetchFails(l, chain, c, lastHash, left);
    } else if left == 1 {
      var block := l.fetch(cur).value;
      var info := InfoOf(l, Link(cur, block));
      BrowseEnds(l, chain, c, lastHash, 0, block.previousHash, blocks + [info], infos + info.transactionInfos,
                 Add64(total, info.transCnt));
    }
  }

  /** The loop of BrowseChannelWithConfig, from the current block downwards. */
  method BrowseFrom<D>(l: Ledger<D>, c: Config, lastHash: Hash, height: nat, currentHash: Hash, ghost chain: seq<Link>)
    returns (r: Result<D>)
    requires Ready(l, chain, c, lastHash) && l.info == Some((height, currentHash))
    ensures r == Expected(l, chain, c)
  {
    hide *;
    var curHash := currentHash;
    var total: nat, blockCnt: nat, curBlockNum: nat := 0, 0, height;
    var blocks: seq<BlockInfo<D>>, infos: seq<TransactionInfo<D>> := [], [];
    ghost var left: nat := |chain|;
    BrowseStarts(l, chain, c, lastHash);
    while true
      invariant Browsing(l, chain, c, left, blockCnt, curBlockNum, curHash, blocks, infos, total)
      decreases left
    {
      ghost var cnt, num := blockCnt, curBlockNum;
      blockCnt := Inc64(blockCnt);
      curBlockNum := Dec64(curBlockNum);
      if Stops(c, lastHash, blockCnt, curBlockNum, curHash) {
        BrowseStops(l, chain, c, lastHash, left, cnt, num, curHash, blocks, infos, total);
        break;
      }
      BrowseGoesOn(l, chain, c, lastHash, left, cnt, num, curHash, blocks, infos, total);
      var fetched := l.fetch(curHash);
      if fetched.None? {
        return Err(QueryBlockFailed);
      }
      var info := UnmarshalBlockData(l, fetched.value, curHash);
      total := Add64(total, info.transCnt);
      blocks := blocks + [info];
      infos := infos + info.transactionInfos;
      curHash := fetched.value.previousHash;
      left := left - 1;
      if |curHash| == 0 {
        break;
      }
    }
    r := Ok(ChannelInfo(height, total, blocks, infos));
  }

  /** A channel without blocks: only the largest block number makes a browse succeed. */
  lemma EmptyChannel<D>(decode: TxBytes -> D) returns (l: Ledger<D>)
    ensures Describes(l, []) && l.info == Some((0, []))
    ensures Expected(l, [], Config(2, 0, "", TWO_64 - 1)) == Ok(ChannelInfo(0, 0, [], []))
    ensures Expected(l, [], Config(2, 0, "", TWO_64 - 2)) == Err(QueryBlockFailed)
    ensures Expected(l, [], Config(0, 0, "", 0)) == Err(QueryBlockFailed)
  {
    l := Ledger(Some((0, [])), (hash: Hash) => None, (s: string) => None, decode);
  }

  // ---- which blocks are visited ----

  lemma {:induction false} DownAt<D>(l: Ledger<D>, chain: seq<Link>, lo: nat, hi: nat, i: nat)
    requires lo <= hi <= |chain| && i < hi - lo
    ensures |Down(l, chain, lo, hi)| == hi - lo
    ensures Down(l, chain, lo, hi)[i] == InfoOf(l, chain[hi - 1 - i])
    decreases hi - lo
  {
    if hi - lo > 1 {
      DownAt(l, chain, lo, hi - 1, if i == 0 then 0 else i - 1);
    }
  }

  lemma DownNumbers<D>(l: Ledger<D>, chain: seq<Link>, lo: nat)
    requires Describes(l, chain) && lo <= |chain|
    ensures var bs := Down(l, chain, lo, |chain|);
            && |bs| == |chain| - lo
            && forall i :: 0 <= i < |bs| ==>
                 bs[i].blockNum == |chain| - 1 - i && bs[i].headerHash == chain[|chain| - 1 - i].hash
  {
    if lo < |chain| { DownAt(l, chain, lo, |chain|, 0); }
    forall i | 0 <= i < |Down(l, chain, lo, |chain|)|
      ensures Down(l, chain, lo, |chain|)[i].blockNum == |chain| - 1 - i
      ensures Down(l, chain, lo, |chain|)[i].headerHash == chain[|chain| - 1 - i].hash
    {
      DownAt(l, chain, lo, |chain|, i);
      assert LinkOk(l, chain, |chain| - 1 - i);
    }
  }

  /** A successful browse of a chain of height H >= 1 visits H-1 downwards:
      min(L, H) blocks under a count limit L > 0, all without a limit, and
      exactly k+1..H-1 when the limit is block k, given by number or by hash. */
  lemma VisitsExactly<D>(l: Ledger<D>, chain: seq<Link>, c: Config, k: nat)
    requires Describes(l, chain) && chain != [] && Expected(l, chain, c).Ok?
    ensures var bs := Expected(l, chain, c).info.blocks;
            && |bs| <= |chain|
            && (forall i :: 0 <= i < |bs| ==>
                  bs[i].blockNum == |chain| - 1 - i && bs[i].headerHash == chain[|chain| - 1 - i].hash)
            && (c.limitType == 0 ==>
                  |bs| == if c.blockCountLimit > 0 && c.blockCountLimit < |chain| then c.blockCountLimit else |chain|)
            && (c.limitType == 1 && IsLast(l, chain, c.lastBlockHeaderHash, k) ==> |bs| == |chain| - 1 - k)
            && (c.limitType == 1 && (forall j: nat :: !IsLast(l, chain, c.lastBlockHeaderHash, j)) ==> |bs| == |chain|)
            && (c.limitType == 2 ==> |bs| == if c.lastBlockNum < |chain| then |chain| - 1 - c.lastBlockNum else 0)
  {
    var lo := Lowest(l, chain, c);
    if c.limitType == 1 && IsLast(l, chain, c.lastBlockHeaderHash, k) {
      LowestByHash(l, chain, c, k);
    }
    DownNumbers(l, chain, lo);
    hide Describes, Down, Flatten;
  }

  // ---- incremental browsing ----

  lemma {:induction false} DownSplit<D>(l: Ledger<D>, chain: seq<Link>, lo: nat, mid: nat, hi: nat)
    requires lo <= mid <= hi <= |chain|
    ensures Down(l, chain, lo, hi) == Down(l, chain, mid, hi) + Down(l, chain, lo, mid)
    decreases hi - mid
  {
    if mid < hi {
      DownSplit(l, chain, lo, mid, hi - 1);
    }
  }

  lemma {:induction false} FlattenConcat<D>(a: seq<BlockInfo<D>>, b: seq<BlockInfo<D>>)
    ensures Flatten(a + b) == Flatten(a) + Flatten(b)
  {
    if b == [] {
      assert a + b == a;
    } else {
      var init, last := b[..|b| - 1], b[|b| - 1];
      assert (a + b)[..|a + b| - 1] == a + init && (a + b)[|a + b| - 1] == last;
      FlattenConcat(a, init);
      hide *;
      assert (Flatten(a) + Flatten(init)) + last.transactionInfos
          == Flatten(a) + (Flatten(init) + last.transactionInfos);
    }
  }

  lemma {:induction false} DownPrefix<D>(l: Ledger<D>, chain: seq<Link>, k: nat, hi: nat)
    requires hi <= k <= |chain|
    ensures Down(l, chain, 0, hi) == Down(l, chain[..k], 0, hi)
  {
    if hi > 0 {
      DownPrefix(l, chain, k, hi - 1);
    }
  }

  lemma DescribesPrefix<D>(l: Ledger<D>, chain: seq<Link>, k: nat)
    requires Describes(l, chain) && 0 < k <= |chain|
    ensures Describes(l.(info := Some((k, chain[k - 1].hash))), chain[..k])
  {
    var p := chain[..k];
    var earlier := l.(info := Some((k, chain[k - 1].hash)));
    forall i | 0 <= i < k
      ensures LinkOk(earlier, p, i)
    {
      assert LinkOk(l, chain, i);
    }
  }

  /** Browsing down to block k and, at the time the height was k+1, browsing
      everything, give together what one full browse gives. */
  lemma IncrementalBrowse<D>(l: Ledger<D>, chain: seq<Link>, k: nat)
    requires Describes(l, chain) && l.info.Some? && k < |chain|
    ensures var earlier := l.(info := Some((k + 1, chain[k].hash)));
            var full := Expected(l, chain, Config(0, 0, "", 0));
            var recent := Expected(l, chain, Config(2, 0, "", k));
            var before := Expected(earlier, chain[..k + 1], Config(0, 0, "", 0));
            && Describes(earlier, chain[..k + 1])
            && (full.Ok? <==> recent.Ok? && before.Ok?)
            && (full.Ok? ==>
                  && full.info.blocks == recent.info.blocks + before.info.blocks
                  && full.info.transactionInfos == recent.info.transactionInfos + before.info.transactionInfos
                  && full.info.transTotal == (recent.info.transTotal + before.info.transTotal) % TWO_64)
  {
    hide *;
    var earlier := l.(info := Some((k + 1, chain[k].hash)));
    var p := chain[..k + 1];
    var recent, before := Down(l, chain, k + 1, |chain|), Down(l, chain, 0, k + 1);
    DescribesPrefix(l, chain, k + 1);
    FullBrowse(l, chain);
    FullBrowse(earlier, p);
    StopsAt(l, chain, Config(2, 0, "", k));
    LowestByNumber(l, chain, k);
    DownSplit(l, chain, 0, k + 1, |chain|);
    DownPrefix(l, chain, k + 1, k + 1);
    SameDecoder(l, earlier, p, 0, k + 1);
    FlattenConcat(recent, before);
    SummaryConcat(|chain|, k + 1, recent, before);
    FetchedSplit(l, earlier, chain, k + 1);
  }

  lemma FullBrowse<D>(l: Ledger<D>, chain: seq<Link>)
    requires Describes(l, chain) && l.info.Some? && chain != []
    ensures Expected(l, chain, Config(0, 0, "", 0))
            == if Fetched(l, chain, 0, |chain|) then Ok(Summary(|chain|, Down(l, chain, 0, |chain|)))
               else Err(QueryBlockFailed)
  {
  }

  lemma LowestByNumber<D>(l: Ledger<D>, chain: seq<Link>, k: nat)
    requires k < |chain|
    ensures Lowest(l, chain, Config(2, 0, "", k)) == k + 1
  {
  }

  lemma SumModulo(a: nat, b: nat)
    ensures (a + b) % TWO_64 == (a % TWO_64 + b % TWO_64) % TWO_64
  {
  }

  lemma SummaryConcat<D>(h: nat, m: nat, a: seq<BlockInfo<D>>, b: seq<BlockInfo<D>>)
    ensures Summary(h, a).blocks == a && Summary(m, b).blocks == b && Summary(h, a + b).blocks == a + b
    ensures Summary(h, a + b).transactionInfos == Summary(h, a).transactionInfos + Summary(m, b).transactionInfos
    ensures Summary(h, a + b).transTotal == (Summary(h, a).transTotal + Summary(m, b).transTotal) % TWO_64
  {
    FlattenConcat(a, b);
    SumModulo(|Flatten(a)|, |Flatten(b)|);
  }

  lemma FetchedSplit<D>(l: Ledger<D>, earlier: Ledger<D>, chain: seq<Link>, m: nat)
    requires m <= |chain| && l.fetch == earlier.fetch
    ensures Fetched(l, chain, 0, |chain|) <==> Fetched(l, chain, m, |chain|) && Fetched(earlier, chain[..m], 0, m)
  {
    assert forall i :: 0 <= i < m ==> chain[..m][i].hash == chain[i].hash;
  }

  lemma {:induction false} SameDecoder<D>(l: Ledger<D>, m: Ledger<D>, chain: seq<Link>, lo: nat, hi: nat)
    requires lo <= hi <= |chain| && l.decode == m.decode
    ensures Down(l, chain, lo, hi) == Down(m, chain, lo, hi)
    decreases hi - lo
  {
    if lo < hi {
      SameDecoder(l, m, chain, lo, hi - 1);
      assert InfosOf(l, chain[hi - 1].block.number, chain[hi - 1].block.transactions)
          == InfosOf(m, chain[hi - 1].block.number, chain[hi - 1].block.transactions);
    }
  }
}
