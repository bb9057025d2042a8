/** What becomes of a delivered block, decided by its own hash and parent; and what a wrong
    genesis block costs.
 */
module Outcomes {
  import opened Types
  import opened WireFormat
  import opened Ledger
  import opened Chain
  import opened Runs
  import Compact

  /** A block that is valid on top of the tip. */
  ghost predicate TipTakes(c: Crypto, params: Params, s: State, blk: Block)
    requires Compact.SaneParams(params)
  {
    && s.tipHash in s.blocks
    && (var tip := s.blocks[s.tipHash].header;
        && Compact.CheckProofOfWork(BlockHash(c, blk), blk.header.bits)
        && blk.header.timestamp > tip.timestamp
        && blk.header.bits == ExpectedBits(params, s.byHeight, s.blocks, tip, s.height))
    && ConnectBlock(c, blk, s.height + 1, s.view).Some?
  }

  /** A new block on a known parent other than the tip. */
  predicate Side(c: Crypto, s: State, blk: Block) {
    BlockHash(c, blk) !in s.index && blk.header.prevBlockHash in s.index && blk.header.prevBlockHash != s.tipHash
  }

  predicate Heavier(s: State, blk: Block)
    requires blk.header.prevBlockHash in s.index
  {
    AddWork(s.index[blk.header.prevBlockHash].chainWork, Compact.BlockWork(blk.header.bits)) > s.chainWork
  }

  /** A block that is valid on top of the active block at height f. Its bits are not checked,
      but the header of the genesis block is. */
  ghost predicate ForkTakes(c: Crypto, params: Params, s: State, blk: Block, f: nat) {
    && f < |s.byHeight| && Stored(s.blocks, s.byHeight[..f + 1])
    && HeaderOk(c, params, s.blocks[s.byHeight[..f + 1][0]].header, None)
    && blk.header.prevBlockHash == s.byHeight[..f + 1][f]
    && Compact.CheckProofOfWork(BlockHash(c, blk), blk.header.bits)
    && blk.header.timestamp > s.blocks[s.byHeight[..f + 1][f]].header.timestamp
    && (var before := Replay(c, BlocksOf(s.blocks, s.byHeight[..f + 1]));
        before.Some? && ConnectBlock(c, blk, f + 1, before.value).Some?)
  }

  /** Each outcome, if and only if. */
  ghost predicate Classified(c: Crypto, params: Params, s: State, blk: Block, o: Outcome)
    requires Compact.SaneParams(params)
  {
    var hash, prev := BlockHash(c, blk), blk.header.prevBlockHash;
    && (o.AlreadyKnown? <==> hash in s.index)
    && (o.UnknownPrev? <==> hash !in s.index && prev !in s.index)
    && (o.Extended? <==> hash !in s.index && prev == s.tipHash && TipTakes(c, params, s, blk))
    && (o.LessWork? <==> Side(c, s, blk) && !Heavier(s, blk))
    && (o.Unreadable? <==> Side(c, s, blk) && Heavier(s, blk) && s.index[prev].height > s.height)
    && (o.Reorganised? <==> Side(c, s, blk) && Heavier(s, blk) && ForkTakes(c, params, s, blk, s.index[prev].height))
    && (o.Reorganised? ==> o.forkHeight == s.index[prev].height)
    && (o.Invalid? <==> || (hash !in s.index && prev == s.tipHash && !TipTakes(c, params, s, blk))
                        || (Side(c, s, blk) && Heavier(s, blk) && s.index[prev].height <= s.height
                            && !ForkTakes(c, params, s, blk, s.index[prev].height)))
  }

  lemma TipOutcome(c: Crypto, params: Params, g: Hash, s: State, blk: Block)
    requires Compact.SaneParams(params) && Inv(c, params, g, s)
    requires BlockHash(c, blk) !in s.index && blk.header.prevBlockHash == s.tipHash
    ensures TryAccept(c, params, s, blk).1 == if TipTakes(c, params, s, blk) then Extended else Invalid
  {
    hide Inv, ConnectBlock, HeaderHash, Compact.CheckProofOfWork, Compact.BlockWork, AddWork, ExpectedBits;
    ActiveTip(c, params, g, s);
    TipHash(c, params, g, s);
  }

  lemma TipHash(c: Crypto, params: Params, g: Hash, s: State)
    requires Inv(c, params, g, s)
    ensures s.tipHash in s.blocks && HeaderHash(c, s.blocks[s.tipHash].header) == s.tipHash
  {
    hide LinksOk, Replay, HeaderHash;
    ActiveTip(c, params, g, s);
    assert EntryOk(c, s.index, s.blocks, g, s.tipHash);
  }

  lemma ActiveBlock(c: Crypto, params: Params, g: Hash, s: State, h: nat)
    requires Inv(c, params, g, s) && h < |s.byHeight|
    ensures s.byHeight[h] in s.blocks && HeaderHash(c, s.blocks[s.byHeight[h]].header) == s.byHeight[h]
    ensures h > 0 ==> s.byHeight[h - 1] in s.blocks
                      && HeaderOk(c, params, s.blocks[s.byHeight[h]].header, Some(s.blocks[s.byHeight[h - 1]].header))
  {
    hide Replay, HeaderHash, HeaderOk;
    assert LinkOk(c, params, s.index, s.blocks, s.byHeight, h);
    assert EntryOk(c, s.index, s.blocks, g, s.byHeight[h]);
  }

  /** Of the headers of a fork only the first and the last are in doubt. */
  lemma ForkHeaders(c: Crypto, params: Params, g: Hash, s: State, blk: Block, f: nat)
    requires Inv(c, params, g, s) && f < |s.byHeight| && Stored(s.blocks, s.byHeight[..f + 1])
    ensures HeadersOk(c, params, BlocksOf(s.blocks, s.byHeight[..f + 1]) + [blk])
       <==> && HeaderOk(c, params, s.blocks[s.byHeight[..f + 1][0]].header, None)
            && HeaderOk(c, params, blk.header, Some(s.blocks[s.byHeight[..f + 1][f]].header))
  {
    hide Inv, HeaderOk, HeaderHash;
    var pre := s.byHeight[..f + 1];
    var fork := BlocksOf(s.blocks, pre) + [blk];
    assert fork[0] == s.blocks[pre[0]] && fork[f] == s.blocks[pre[f]] && fork[f + 1] == blk;
    forall i | 0 < i <= f
      ensures HeaderOk(c, params, fork[i].header, HeaderBefore(fork, i))
    {
      ActiveBlock(c, params, g, s, i);
      assert fork[i] == s.blocks[s.byHeight[i]] && fork[i - 1] == s.blocks[s.byHeight[i - 1]];
    }
    EndsDecide(c, params, fork);
  }

  lemma EndsDecide(c: Crypto, params: Params, bs: seq<Block>)
    requires |bs| > 1 && forall i :: 0 < i < |bs| - 1 ==> HeaderOk(c, params, bs[i].header, HeaderBefore(bs, i))
    ensures HeadersOk(c, params, bs)
       <==> && HeaderOk(c, params, bs[0].header, None)
            && HeaderOk(c, params, bs[|bs| - 1].header, Some(bs[|bs| - 2].header))
  {
    hide HeaderOk;
    assert HeaderBefore(bs, 0) == None && HeaderBefore(bs, |bs| - 1) == Some(bs[|bs| - 2].header);
    if HeadersOk(c, params, bs) {
      assert HeaderOk(c, params, bs[0].header, HeaderBefore(bs, 0));
      assert HeaderOk(c, params, bs[|bs| - 1].header, HeaderBefore(bs, |bs| - 1));
    }
  }

  lemma ForkReplays(c: Crypto, params: Params, g: Hash, s: State, blk: Block, f: nat)
    requires Inv(c, params, g, s) && f < |s.byHeight|
    ensures Stored(s.blocks, s.byHeight[..f + 1])
    ensures var pre := BlocksOf(s.blocks, s.byHeight[..f + 1]);
            && Replay(c, pre).Some?
            && (Replay(c, pre + [blk]).Some? <==> ConnectBlock(c, blk, f + 1, Replay(c, pre).value).Some?)
  {
    hide ConnectBlock, Replay, LinksOk, IndexOk, HeaderHash;
    ChainPrefix(c, params, s.index, s.blocks, g, s.byHeight, s.view, f + 1);
    ReplaySnoc(c, BlocksOf(s.blocks, s.byHeight[..f + 1]), blk);
  }

  lemma ForkOutcome(c: Crypto, params: Params, g: Hash, s: State, blk: Block)
    requires Compact.SaneParams(params) && Inv(c, params, g, s) && Side(c, s, blk) && Heavier(s, blk)
    ensures var f := s.index[blk.header.prevBlockHash].height;
            TryAccept(c, params, s, blk).1
            == if f > s.height then Unreadable else if ForkTakes(c, params, s, blk, f) then Reorganised(f) else Invalid
  {
    hide Inv, ConnectBlock, HeaderHash, HeadersOk, Replay, Compact.CheckProofOfWork, Compact.BlockWork, AddWork;
    var f := s.index[blk.header.prevBlockHash].height;
    HeightMatches(c, params, g, s);
    if f <= s.height {
      ForkReplays(c, params, g, s, blk, f);
      ForkHeaders(c, params, g, s, blk, f);
      ActiveBlock(c, params, g, s, f);
    }
  }

  /** In every consistent state the outcome is decided by these conditions. */
  lemma OutcomeIff(c: Crypto, params: Params, g: Hash, s: State, blk: Block)
    requires Compact.SaneParams(params) && Inv(c, params, g, s)
    ensures Classified(c, params, s, blk, TryAccept(c, params, s, blk).1)
  {
    hide Inv, TipTakes, ForkTakes, HeaderHash, AcceptBlock, HeadersOk, Replay, ForkChain, Compact.BlockWork, AddWork;
    ActiveTip(c, params, g, s);
    if BlockHash(c, blk) !in s.index && blk.header.prevBlockHash == s.tipHash {
      TipOutcome(c, params, g, s, blk);
    } else if Side(c, s, blk) && Heavier(s, blk) {
      ForkOutcome(c, params, g, s, blk);
      HeightMatches(c, params, g, s);
      TakesWithin(c, params, s, blk, s.index[blk.header.prevBlockHash].height);
    }
  }

  lemma TakesWithin(c: Crypto, params: Params, s: State, blk: Block, f: nat)
    ensures ForkTakes(c, params, s, blk, f) ==> f < |s.byHeight|
  {
  }

  // ------------------------------------------------------------ the genesis block

  /** A node whose genesis block fails the header check, as one with another hash than the
      configured one does, extends its chain like any other but never reorganises it. */
  lemma WrongGenesisNeverReorganises(c: Crypto, params: Params, g: Block, events: seq<Event>, blk: Block)
    requires Compact.SaneParams(params) && GenesisState(c, g).Some? && !HeaderOk(c, params, g.header, None)
    ensures !TryAccept(c, params, Run(c, params, g, events), blk).1.Reorganised?
  {
    hide Inv, HeaderOk, HeaderHash, TryAccept, GenesisState, Run, TipTakes, ForkTakes, Compact.BlockWork;
    RunInv(c, params, g, events);
    RunKeepsGenesis(c, params, g, events);
    var s, gh := Run(c, params, g, events), BlockHash(c, g);
    OutcomeIff(c, params, gh, s, blk);
    if Side(c, s, blk) && ForkTakes(c, params, s, blk, s.index[blk.header.prevBlockHash].height) {
      NeedsGenesis(c, params, gh, s, blk, s.index[blk.header.prevBlockHash].height);
    }
  }

  lemma NeedsGenesis(c: Crypto, params: Params, g: Hash, s: State, blk: Block, f: nat)
    requires Inv(c, params, g, s) && ForkTakes(c, params, s, blk, f)
    ensures g in s.blocks && HeaderOk(c, params, s.blocks[g].header, None)
  {
    hide HeaderOk, HeaderHash, LinksOk, IndexOk, Replay, ConnectBlock;
  }
}
