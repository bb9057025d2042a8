/** The blockchain object: the fields of the active chain and its storage, updated in
    place. Every method is proved to take the step the state machine prescribes.
 */
module Blockchain {
  import opened Types
  import opened WireFormat
  import opened Ledger
  import opened Chain
  import Compact
  import Rewards
  import Runs

  /** The view of a consistent state is within the limits CheckBlock relies on. */
  lemma ViewBounded(c: Crypto, params: Params, g: Hash, s: State)
    requires Inv(c, params, g, s)
    ensures SaneView(s.view) && Total(s.view) <= MAX_MONEY
  {
    hide HeaderOk, Replay, HeaderHash, EntryOk, Total, Rewards.SupplyBefore;
    ReplayBounded(c, BlocksOf(s.blocks, s.byHeight));
  }

  lemma ReplayBounded(c: Crypto, bs: seq<Block>)
    requires Replay(c, bs).Some?
    ensures SaneView(Replay(c, bs).value) && Total(Replay(c, bs).value) <= MAX_MONEY
  {
    hide Replay, Total, Rewards.SupplyBefore;
    Runs.ReplaySupply(c, bs);
    Rewards.SupplyCap(|bs|);
  }

  lemma {:induction false} HeadersPrefix(c: Crypto, params: Params, bs: seq<Block>, k: nat)
    requires k < |bs| && !HeaderOk(c, params, bs[k].header, HeaderBefore(bs, k))
    ensures !HeadersOk(c, params, bs)
  {
  }

  class ChainManager {
    const c: Crypto
    const params: Params
    // what the genesis search found for this network
    const genesisBlock: Block

    var view: View
    var index: map<Hash, BlockIndex>
    var byHeight: seq<Hash>
    var height: nat
    var tipHash: Hash
    var chainWork: Hash
    // storage: the block store and the chainstate file
    var blocks: map<Hash, Block>
    var saved: Snapshot

    ghost function Abstract(): State
      reads this
    {
      State(view, index, byHeight, height, tipHash, chainWork, blocks, saved)
    }

    ghost predicate Valid()
      reads this
    {
      && Compact.SaneParams(params) && GenesisState(c, genesisBlock).Some?
      && Inv(c, params, BlockHash(c, genesisBlock), Abstract())
    }

    constructor (c: Crypto, params: Params, g: Block)
      requires Compact.SaneParams(params) && GenesisState(c, g).Some?
      ensures Valid() && this.c == c && this.params == params && genesisBlock == g
      ensures Abstract() == GenesisState(c, g).value
    {
      var r := ConnectBlock(c, g, 0, map[]).value;
      var hash, work := BlockHash(c, g), Compact.BlockWork(g.header.bits);
      this.c, this.params, genesisBlock := c, params, g;
      view, height, tipHash, byHeight := r.view, 0, hash, [hash];
      index, chainWork := map[hash := Entry(hash, g, 0, work)], work;
      blocks := map[hash := g];
      saved := Snapshot(r.view, 0, hash, [hash]);
      new;
      GenesisInv(c, params, g);
    }

    /** ApplyGenesis: the configured genesis block if its header passes, otherwise the
        first nonce that meets the target; then its coinbase becomes the first coin.
        Fails when no nonce works or the block is invalid. */
    static method ApplyGenesis(c: Crypto, params: Params, candidate: Block) returns (r: Option<ChainManager>)
      requires Compact.SaneParams(params)
      ensures r.Some? == (var g := GenesisBlock(c, params, candidate); g.Some? && GenesisState(c, g.value).Some?)
      ensures r.Some? ==> fresh(r.value) && r.value.Valid() && r.value.c == c && r.value.params == params
      ensures r.Some? ==> r.value.Abstract() == GenesisState(c, GenesisBlock(c, params, candidate).value).value
      ensures r.Some? && params.genesisHash.Some? ==>
                (r.value.tipHash == params.genesisHash.value <==> GenesisMatches(c, params, candidate))
    {
      hide HeaderOk, HeaderHash, ConnectBlock, Compact.BlockWork, Inv, GenesisMatches, GenesisBlock;
      GenesisEnforcedIff(c, params, candidate);
      var g := MineGenesis(c, params, candidate);
      if g.None? || ConnectBlock(c, g.value, 0, map[]).None? { return None; }
      var chain := new ChainManager(c, params, g.value);
      r := Some(chain);
    }

    method GetBlockByHeight(h: nat) returns (r: Option<Block>)
      requires Valid()
      ensures h <= height ==> h < |byHeight| && byHeight[h] in blocks && r == Some(blocks[byHeight[h]])
      ensures h > height ==> r == None
    {
      if h > height { return None; }
      assert LinkOk(c, params, index, blocks, byHeight, h);
      r := Some(blocks[byHeight[h]]);
    }

    /** Called by TryAcceptBlock for a block on top of the tip. */
    method AcceptBlock(blk: Block, newHeight: nat) returns (ok: bool)
      requires Valid() && blk.header.prevBlockHash == tipHash && newHeight == height + 1
      requires BlockHash(c, blk) !in index
      modifies this
      ensures Valid()
      ensures (Abstract(), ok) == Chain.AcceptBlock(c, params, old(Abstract()), blk, newHeight)
      ensures !ok ==> Abstract() == old(Abstract())
    {
      hide HeaderOk, ConnectBlock, HeaderHash, Compact.BlockWork, AddWork, ExpectedBits, Inv, Total;
      ghost var s := Abstract();
      ExtensionKeepsInv(c, params, BlockHash(c, genesisBlock), s, blk);
      ViewBounded(c, params, BlockHash(c, genesisBlock), s);
      var prevHash := blk.header.prevBlockHash;
      if prevHash !in index || prevHash !in blocks { return false; }
      var prev := blocks[prevHash].header;
      if !HeaderOk(c, params, blk.header, Some(prev)) { return false; }
      if blk.header.bits != ExpectedBits(params, byHeight, blocks, prev, index[prevHash].height) { return false; }
      var r := CheckBlock(c, blk, newHeight, view);
      if r.None? { return false; }
      var hash := BlockHash(c, blk);
      var work := AddWork(index[prevHash].chainWork, Compact.BlockWork(blk.header.bits));
      view := r.value.view;
      height := newHeight;
      tipHash := hash;
      byHeight := byHeight + [hash];
      index := index[hash := Entry(hash, blk, newHeight, work).(isGenesis := false)];
      chainWork := work;
      blocks := blocks[hash := blk];
      saved := Snapshot(view, height, tipHash, byHeight);
      ok := true;
    }

    /** The blocks of the active chain up to the fork height, then the new block. */
    method CollectFork(forkHeight: nat, blk: Block) returns (fork: Option<seq<Block>>)
      requires Valid()
      ensures fork == ForkChain(Abstract(), forkHeight, blk)
    {
      hide HeaderOk, Replay, HeaderHash, EntryOk;
      var bs := [];
      var h := 0;
      while h <= forkHeight
        invariant 0 <= h <= forkHeight + 1 && h <= |byHeight|
        invariant Stored(blocks, byHeight[..h]) && bs == BlocksOf(blocks, byHeight[..h])
      {
        var b := GetBlockByHeight(h);
        if b.None? { return None; }
        bs := bs + [b.value];
        h := h + 1;
      }
      fork := Some(bs + [blk]);
    }

    /** Validation of a whole chain from genesis on a fresh view. */
    method Revalidate(fork: seq<Block>) returns (r: Option<View>)
      ensures r == if HeadersOk(c, params, fork) then Replay(c, fork) else None
    {
      hide HeaderOk, ConnectBlock, Total;
      var freshView := map[];
      for i := 0 to |fork|
        invariant HeadersOk(c, params, fork[..i])
        invariant Replay(c, fork[..i]) == Some(freshView)
      {
        assert fork[..i + 1] == fork[..i] + [fork[i]];
        if !HeaderOk(c, params, fork[i].header, HeaderBefore(fork, i)) {
          HeadersPrefix(c, params, fork, i);
          return None;
        }
        ReplayBounded(c, fork[..i]);
        ReplaySnoc(c, fork[..i], fork[i]);
        var out := CheckBlock(c, fork[i], i, freshView);
        if out.None? {
          if Replay(c, fork).Some? {
            ReplayPrefix(c, fork, i + 1);
          }
          return None;
        }
        freshView := out.value.view;
        PrefixHeaders(c, params, fork, i);
      }
      assert fork[..|fork|] == fork;
      r := Some(freshView);
    }

    /** TryAcceptBlock: a known block, an unknown parent, an extension of the tip, or a
        fork. Anything rejected leaves every field as it was. */
    method TryAcceptBlock(blk: Block) returns (o: Outcome)
      requires Valid()
      modifies this
      ensures Valid()
      ensures (Abstract(), o) == TryAccept(c, params, old(Abstract()), blk)
      ensures !o.Extended? && !o.Reorganised? ==> Abstract() == old(Abstract())
    {
      hide HeaderOk, ConnectBlock, HeaderHash, Compact.BlockWork, AddWork, ForkChain, HeadersOk, Replay, Inv,
           Chain.AcceptBlock;
      ghost var s := Abstract();
      TryAcceptKeepsInv(c, params, BlockHash(c, genesisBlock), s, blk);
      var hash, prevHash := BlockHash(c, blk), blk.header.prevBlockHash;
      if hash in index { return AlreadyKnown; }
      if prevHash !in index { return UnknownPrev; }
      if prevHash == tipHash {
        ActiveTip(c, params, BlockHash(c, genesisBlock), s);
        var ok := AcceptBlock(blk, index[prevHash].height + 1);
        return if ok then Extended else Invalid;
      }
      var forkWork := AddWork(index[prevHash].chainWork, Compact.BlockWork(blk.header.bits));
      if forkWork <= chainWork { return LessWork; }
      var forkHeight := index[prevHash].height;
      var fork := CollectFork(forkHeight, blk);
      if fork.None? { return Unreadable; }
      var replayed := Revalidate(fork.value);
      if replayed.None? { return Invalid; }
      ForkHeightInRange(s, forkHeight, blk);
      view := replayed.value;
      byHeight := byHeight[..forkHeight + 1] + [hash];
      height := forkHeight + 1;
      tipHash := hash;
      index := index[hash := Entry(hash, blk, height, forkWork)];
      blocks := blocks[hash := blk];
      o := Reorganised(forkHeight);
    }

    /** LoadFromStorage in a new process: fields from the chainstate file, the index
        rebuilt from the stored blocks; or genesis again, when the files do not load. */
    method Reload()
      requires Valid()
      modifies this
      ensures Valid() && Abstract() == Restarted(c, genesisBlock, old(Abstract()))
    {
      hide Inv, Compact.BlockWork, AddWork, GenesisState, HeaderHash, Reloadable, Restarted;
      RestartKeepsInv(c, params, genesisBlock, Abstract());
      if !Reloadable(State(view, index, byHeight, height, tipHash, chainWork, blocks, saved)) {
        StartOver();
        return;
      }
      view, height, tipHash, byHeight := saved.view, saved.height, saved.tipHash, saved.byHeight;
      index := map[];
      for i := 0 to |saved.byHeight|
        invariant view == saved.view && height == saved.height && tipHash == saved.tipHash
        invariant byHeight == saved.byHeight && saved == old(saved) && blocks == old(blocks)
        invariant i <= |byHeight| && index == RebuildIndex(blocks, byHeight, i)
      {
        if byHeight[i] in blocks {
          var blk := blocks[byHeight[i]];
          var own, prevHash := Compact.BlockWork(blk.header.bits), blk.header.prevBlockHash;
          var work :=
            if i == 0 then own else AddWork(if prevHash in index then index[prevHash].chainWork else 0, own);
          index := index[byHeight[i] := Entry(byHeight[i], blk, i, work)];
        }
      }
      chainWork := if tipHash in index then index[tipHash].chainWork else 0;
    }

    /** ApplyGenesis on an object that holds something else, and on a store nobody has read. */
    method StartOver()
      requires GenesisState(c, genesisBlock).Some?
      modifies this
      ensures Abstract() == GenesisState(c, genesisBlock).value
    {
      hide ConnectBlock, HeaderHash, Compact.BlockWork;
      var r := ConnectBlock(c, genesisBlock, 0, map[]).value;
      var hash, work := BlockHash(c, genesisBlock), Compact.BlockWork(genesisBlock.header.bits);
      view, height, tipHash, byHeight := r.view, 0, hash, [hash];
      index, chainWork := map[hash := Entry(hash, genesisBlock, 0, work)], work;
      blocks := map[hash := genesisBlock];
      saved := Snapshot(view, height, tipHash, byHeight);
    }
  }

  lemma PrefixHeaders(c: Crypto, params: Params, bs: seq<Block>, i: nat)
    requires i < |bs| && HeadersOk(c, params, bs[..i]) && HeaderOk(c, params, bs[i].header, HeaderBefore(bs, i))
    ensures HeadersOk(c, params, bs[..i + 1])
  {
    hide HeaderOk;
    var pre := bs[..i + 1];
    forall k | 0 <= k < |pre|
      ensures HeaderOk(c, params, pre[k].header, HeaderBefore(pre, k))
    {
      if k < i {
        assert HeaderOk(c, params, bs[..i][k].header, HeaderBefore(bs[..i], k));
      }
    }
  }

  lemma ForkHeightInRange(s: State, f: nat, blk: Block)
    requires ForkChain(s, f, blk).Some?
    ensures f < |s.byHeight|
  {
  }

  // ------------------------------------------------------------ the genesis block

  /** The first nonce at or after n that meets the target, below 2^32 - 1. */
  function FirstNonce(c: Crypto, hdr: BlockHeader, n: nat): (r: Option<uint32>)
    requires n <= 0xffff_ffff
    ensures r.Some? ==> Compact.CheckProofOfWork(HeaderHash(c, hdr.(nonce := r.value)), hdr.bits)
    ensures r.None? ==> forall k: uint32 :: n <= k < 0xffff_ffff ==> !Compact.CheckProofOfWork(HeaderHash(c, hdr.(nonce := k)), hdr.bits)
    decreases 0xffff_ffff - n
  {
    if n == 0xffff_ffff then None
    else if Compact.CheckProofOfWork(HeaderHash(c, hdr.(nonce := n)), hdr.bits) then Some(n)
    else FirstNonce(c, hdr, n + 1)
  }

  /** The block ApplyGenesis uses, if any. */
  function GenesisBlock(c: Crypto, params: Params, candidate: Block): Option<Block> {
    if HeaderOk(c, params, candidate.header, None) then Some(candidate)
    else
      match FirstNonce(c, candidate.header, 0)
      case None => None
      case Some(n) => Some(candidate.(header := candidate.header.(nonce := n)))
  }

  /** The configured hash, with enough work, is the hash of the block as configured; or, that
      block failing its header check, of the first nonce that meets the target. */
  predicate GenesisMatches(c: Crypto, params: Params, candidate: Block)
    requires params.genesisHash.Some?
  {
    var expected, hdr := params.genesisHash.value, candidate.header;
    || (Compact.CheckProofOfWork(HeaderHash(c, hdr), hdr.bits) && HeaderHash(c, hdr) == expected)
    || (FirstNonce(c, hdr, 0).Some? && HeaderHash(c, hdr.(nonce := FirstNonce(c, hdr, 0).value)) == expected)
  }

  /** A configured genesis hash is not enforced: the search that replaces a failing block
      looks at the target alone. The chain starts from the configured hash if and only if
      the block as configured has it, or the search happens to. */
  lemma GenesisEnforcedIff(c: Crypto, params: Params, candidate: Block)
    ensures var g := GenesisBlock(c, params, candidate);
            g.Some? && params.genesisHash.Some? ==>
              (BlockHash(c, g.value) == params.genesisHash.value <==> GenesisMatches(c, params, candidate))
  {
    hide FirstNonce, HeaderHash, Compact.CheckProofOfWork;
  }

  method MineGenesis(c: Crypto, params: Params, candidate: Block) returns (r: Option<Block>)
    ensures r == GenesisBlock(c, params, candidate)
  {
    hide Compact.CheckProofOfWork, HeaderHash;
    if HeaderOk(c, params, candidate.header, None) { return Some(candidate); }
    var nonce := 0;
    while nonce < 0xffff_ffff
      invariant 0 <= nonce <= 0xffff_ffff
      invariant FirstNonce(c, candidate.header, 0) == FirstNonce(c, candidate.header, nonce)
    {
      var hdr := candidate.header.(nonce := nonce);
      if Compact.CheckProofOfWork(HeaderHash(c, hdr), hdr.bits) { return Some(candidate.(header := hdr)); }
      nonce := nonce + 1;
    }
    r := None;
  }
}
