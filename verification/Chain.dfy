/** The chain state machine: genesis, extension, reorganisation by replay, restart from
    disk; and what holds in every state a run can reach.
 */
module Chain {
  import opened Types
  import opened WireFormat
  import opened Ledger
  import Compact

  datatype BlockIndex = BlockIndex(hash: Hash, prevHash: Hash, height: nat, bits: uint32, timestamp: uint32,
                                   chainWork: Hash, merkleRoot: Hash, isGenesis: bool)

  /** The saved chainstate. */
  datatype Snapshot = Snapshot(view: View, height: nat, tipHash: Hash, byHeight: seq<Hash>)

  /** The block store, as a map, and the last saved chainstate. */
  datatype State = State(view: View, index: map<Hash, BlockIndex>, byHeight: seq<Hash>, height: nat,
                         tipHash: Hash, chainWork: Hash, blocks: map<Hash, Block>, saved: Snapshot)

  datatype Outcome = AlreadyKnown | UnknownPrev | Extended | Reorganised(forkHeight: nat)
                   | LessWork | Unreadable | Invalid

  predicate Accepted(o: Outcome) {
    o.Extended? || o.Reorganised?
  }

  /** CheckBlockHeader. */
  predicate HeaderOk(c: Crypto, params: Params, hdr: BlockHeader, prev: Option<BlockHeader>) {
    && Compact.CheckProofOfWork(HeaderHash(c, hdr), hdr.bits)
    && (match prev
        case Some(p) => hdr.prevBlockHash == HeaderHash(c, p) && hdr.timestamp > p.timestamp
        case None => params.genesisHash.Some? ==> HeaderHash(c, hdr) == params.genesisHash.value)
  }

  function AddWork(a: Hash, b: Hash): Hash {
    (a + b) % TWO_256
  }

  function Entry(hash: Hash, blk: Block, height: nat, work: Hash): BlockIndex {
    BlockIndex(hash, blk.header.prevBlockHash, height, blk.header.bits, blk.header.timestamp, work,
               blk.header.merkleRoot, height == 0)
  }

  /** The bits the next block must carry. The height looked up at an interval boundary is
      one past the end of byHeight; that read finds nothing. */
  function ExpectedBits(params: Params, byHeight: seq<Hash>, blocks: map<Hash, Block>, prev: BlockHeader,
                        prevHeight: nat): uint32
    requires Compact.SaneParams(params)
  {
    var start := (prevHeight + 1) / params.difficultyInterval * params.difficultyInterval;
    var firstTime :=
      if 0 < start < |byHeight| && byHeight[start] in blocks then blocks[byHeight[start]].header.timestamp
      else prev.timestamp;
    Compact.GetNextWorkRequired(prev.timestamp, prevHeight, prev.bits, firstTime, params)
  }

  // ------------------------------------------------------------ transitions

  /** AcceptBlock, called for a block on top of the tip. */
  function AcceptBlock(c: Crypto, params: Params, s: State, blk: Block, height: nat): (State, bool)
    requires Compact.SaneParams(params)
  {
    var prevHash := blk.header.prevBlockHash;
    if prevHash !in s.index || prevHash !in s.blocks then (s, false)
    else
      var prev := s.blocks[prevHash].header;
      if !HeaderOk(c, params, blk.header, Some(prev)) then (s, false)
      else if blk.header.bits != ExpectedBits(params, s.byHeight, s.blocks, prev, s.index[prevHash].height)
      then (s, false)
      else
        match ConnectBlock(c, blk, height, s.view)
        case None => (s, false)
        case Some(r) =>
          var hash := BlockHash(c, blk);
          var work := AddWork(s.index[prevHash].chainWork, Compact.BlockWork(blk.header.bits));
          var byHeight := s.byHeight + [hash];
          (State(r.view, s.index[hash := Entry(hash, blk, height, work).(isGenesis := false)], byHeight, height,
                 hash, work, s.blocks[hash := blk], Snapshot(r.view, height, hash, byHeight)), true)
  }

  /** Replays blocks from the empty view. */
  function Replay(c: Crypto, bs: seq<Block>): Option<View> {
    if bs == [] then Some(map[])
    else
      match Replay(c, bs[..|bs| - 1])
      case None => None
      case Some(v) =>
        match ConnectBlock(c, bs[|bs| - 1], |bs| - 1, v)
        case None => None
        case Some(r) => Some(r.view)
  }

  function HeaderBefore(bs: seq<Block>, i: nat): Option<BlockHeader>
    requires i < |bs|
  {
    if i == 0 then None else Some(bs[i - 1].header)
  }

  predicate HeadersOk(c: Crypto, params: Params, bs: seq<Block>) {
    forall i :: 0 <= i < |bs| ==> HeaderOk(c, params, bs[i].header, HeaderBefore(bs, i))
  }

  predicate Stored(blocks: map<Hash, Block>, chain: seq<Hash>) {
    forall i :: 0 <= i < |chain| ==> chain[i] in blocks
  }

  function BlocksOf(blocks: map<Hash, Block>, chain: seq<Hash>): (bs: seq<Block>)
    requires Stored(blocks, chain)
    ensures |bs| == |chain|
    ensures forall i :: 0 <= i < |chain| ==> bs[i] == blocks[chain[i]]
  {
    seq(|chain|, i requires 0 <= i < |chain| => blocks[chain[i]])
  }

  /** The chain a reorganisation builds: the active chain up to the fork height, then blk. */
  function ForkChain(s: State, forkHeight: nat, blk: Block): Option<seq<Block>> {
    if forkHeight > s.height || forkHeight >= |s.byHeight| || !Stored(s.blocks, s.byHeight[..forkHeight + 1])
    then None
    else Some(BlocksOf(s.blocks, s.byHeight[..forkHeight + 1]) + [blk])
  }

  /** The state after a successful reorganisation. The recorded work and the saved
      chainstate are left as they were. */
  function Reorganised'(c: Crypto, s: State, blk: Block, forkHeight: nat, view: View): State
    requires blk.header.prevBlockHash in s.index && forkHeight < |s.byHeight|
  {
    var hash := BlockHash(c, blk);
    var work := AddWork(s.index[blk.header.prevBlockHash].chainWork, Compact.BlockWork(blk.header.bits));
    State(view, s.index[hash := Entry(hash, blk, forkHeight + 1, work)],
          s.byHeight[..forkHeight + 1] + [hash], forkHeight + 1, hash, s.chainWork,
          s.blocks[hash := blk], s.saved)
  }

  /** TryAcceptBlock. */
  function TryAccept(c: Crypto, params: Params, s: State, blk: Block): (State, Outcome)
    requires Compact.SaneParams(params)
  {
    var prevHash := blk.header.prevBlockHash;
    if BlockHash(c, blk) in s.index then (s, AlreadyKnown)
    else if prevHash !in s.index then (s, UnknownPrev)
    else if prevHash == s.tipHash then
      var (t, ok) := AcceptBlock(c, params, s, blk, s.index[prevHash].height + 1);
      (t, if ok then Extended else Invalid)
    else if AddWork(s.index[prevHash].chainWork, Compact.BlockWork(blk.header.bits)) <= s.chainWork then
      (s, LessWork)
    else
      var forkHeight := s.index[prevHash].height;
      match ForkChain(s, forkHeight, blk)
      case None => (s, Unreadable)
      case Some(fork) =>
        if !HeadersOk(c, params, fork) then (s, Invalid)
        else
          match Replay(c, fork)
          case None => (s, Invalid)
          case Some(view) => (Reorganised'(c, s, blk, forkHeight, view), Reorganised(forkHeight))
  }

  /** The index rebuilt at start-up from the first k saved hashes; a block that cannot be
      read is skipped. */
  function RebuildIndex(blocks: map<Hash, Block>, byHeight: seq<Hash>, k: nat): map<Hash, BlockIndex>
    requires k <= |byHeight|
  {
    if k == 0 then map[]
    else
      var index := RebuildIndex(blocks, byHeight, k - 1);
      if byHeight[k - 1] !in blocks then index
      else
        var blk := blocks[byHeight[k - 1]];
        var own := Compact.BlockWork(blk.header.bits);
        var prevHash := blk.header.prevBlockHash;
        var work :=
          if k == 1 then own else AddWork(if prevHash in index then index[prevHash].chainWork else 0, own);
        index[byHeight[k - 1] := Entry(byHeight[k - 1], blk, k - 1, work)]
  }

  predicate ShortScript(coin: Coin) {
    |coin.scriptPubKey| <= MAX_SCRIPT
  }

  /** The chainstates LoadChainState accepts. */
  predicate WithinCaps(snap: Snapshot) {
    && |snap.byHeight| <= MAX_HEIGHTS && |snap.view| <= MAX_COINS
    && forall o :: o in snap.view ==> ShortScript(snap.view[o])
  }

  /** What is on disk can be loaded: the chainstate file and the index of the block store. */
  predicate Reloadable(s: State) {
    WithinCaps(s.saved) && |s.blocks| <= MAX_ENTRIES
  }

  /** The state with the saved chainstate and the index rebuilt from it. */
  function Restored(s: State): State {
    var index := RebuildIndex(s.blocks, s.saved.byHeight, |s.saved.byHeight|);
    State(s.saved.view, index, s.saved.byHeight, s.saved.height, s.saved.tipHash,
          if s.saved.tipHash in index then index[s.saved.tipHash].chainWork else 0, s.blocks, s.saved)
  }

  /** A new process: LoadFromStorage. If the files do not load it starts from genesis; the
      store has not been read then, so writing genesis leaves nothing else in its index. */
  function Restarted(c: Crypto, g: Block, s: State): State
    requires GenesisState(c, g).Some?
  {
    if !Reloadable(s) then GenesisState(c, g).value
    else if Restored(s).index == map[] then GenesisState(c, g).value.(blocks := s.blocks[BlockHash(c, g) := g])
    else Restored(s)
  }

  /** ApplyGenesis with the block that was finally used. */
  function GenesisState(c: Crypto, g: Block): Option<State> {
    match ConnectBlock(c, g, 0, map[])
    case None => None
    case Some(r) =>
      var hash, work := BlockHash(c, g), Compact.BlockWork(g.header.bits);
      Some(State(r.view, map[hash := Entry(hash, g, 0, work)], [hash], 0, hash, work, map[hash := g],
                 Snapshot(r.view, 0, hash, [hash])))
  }

  // ------------------------------------------------------------ the invariant

  ghost predicate EntryOk(c: Crypto, index: map<Hash, BlockIndex>, blocks: map<Hash, Block>, g: Hash, x: Hash)
    requires x in index
  {
    var e := index[x];
    && x in blocks && BlockHash(c, blocks[x]) == x
    && e == Entry(x, blocks[x], e.height, e.chainWork)
    && (if e.height == 0 then x == g && e.chainWork == Compact.BlockWork(e.bits)
        else e.prevHash in index && e.height == index[e.prevHash].height + 1
             && e.chainWork == AddWork(index[e.prevHash].chainWork, Compact.BlockWork(e.bits)))
  }

  ghost predicate IndexOk(c: Crypto, index: map<Hash, BlockIndex>, blocks: map<Hash, Block>, g: Hash) {
    forall x :: x in index ==> EntryOk(c, index, blocks, g, x)
  }

  /** Position h of a chain of hashes: indexed at that height, linked to its predecessor,
      later than it, with enough work. */
  ghost predicate LinkOk(c: Crypto, params: Params, index: map<Hash, BlockIndex>, blocks: map<Hash, Block>,
                         chain: seq<Hash>, h: nat)
    requires h < |chain|
  {
    && chain[h] in index && index[chain[h]].height == h && chain[h] in blocks
    && (h > 0 ==>
          && chain[h - 1] in blocks
          && blocks[chain[h]].header.prevBlockHash == chain[h - 1]
          && HeaderOk(c, params, blocks[chain[h]].header, Some(blocks[chain[h - 1]].header)))
  }

  ghost predicate LinksOk(c: Crypto, params: Params, index: map<Hash, BlockIndex>, blocks: map<Hash, Block>,
                          chain: seq<Hash>)
  {
    forall h :: 0 <= h < |chain| ==> LinkOk(c, params, index, blocks, chain, h)
  }

  /** A chain of hashes whose replay is a view. */
  ghost predicate ChainOk(c: Crypto, params: Params, index: map<Hash, BlockIndex>, blocks: map<Hash, Block>,
                          g: Hash, chain: seq<Hash>, view: View)
  {
    && |chain| > 0 && chain[0] == g
    && LinksOk(c, params, index, blocks, chain)
    && Stored(blocks, chain)
    && Replay(c, BlocksOf(blocks, chain)) == Some(view)
  }

  /** In every reachable state: the index is consistent; the active chain is linked and
      its replay is the view; so is the saved chain; and the recorded work is the work of
      the saved tip. */
  ghost predicate Inv(c: Crypto, params: Params, g: Hash, s: State) {
    && IndexOk(c, s.index, s.blocks, g)
    && ChainOk(c, params, s.index, s.blocks, g, s.byHeight, s.view)
    && s.height == |s.byHeight| - 1 && s.tipHash == s.byHeight[s.height]
    && ChainOk(c, params, s.index, s.blocks, g, s.saved.byHeight, s.saved.view)
    && s.saved.height == |s.saved.byHeight| - 1 && s.saved.tipHash == s.saved.byHeight[s.saved.height]
    && s.saved.tipHash in s.index && s.chainWork == s.index[s.saved.tipHash].chainWork
  }

  // ------------------------------------------------------------ preservation

  lemma ReplaySnoc(c: Crypto, bs: seq<Block>, b: Block)
    ensures Replay(c, bs + [b]) ==
            match Replay(c, bs)
            case None => None
            case Some(v) =>
              match ConnectBlock(c, b, |bs|, v)
              case None => None
              case Some(r) => Some(r.view)
  {
    hide ConnectBlock;
    assert (bs + [b])[..|bs|] == bs;
  }

  /** Storing a block under a hash not yet indexed leaves every indexed chain as it was. */
  lemma ChainFrame(c: Crypto, params: Params, index: map<Hash, BlockIndex>, blocks: map<Hash, Block>, g: Hash,
                   chain: seq<Hash>, view: View, hash: Hash, e: BlockIndex, blk: Block)
    requires ChainOk(c, params, index, blocks, g, chain, view) && hash !in index
    ensures ChainOk(c, params, index[hash := e], blocks[hash := blk], g, chain, view)
  {
    hide HeaderOk, Replay;
    var index', blocks' := index[hash := e], blocks[hash := blk];
    forall h | 0 <= h < |chain|
      ensures LinkOk(c, params, index', blocks', chain, h) && chain[h] != hash
    {
      assert LinkOk(c, params, index, blocks, chain, h);
      if h > 0 {
        assert LinkOk(c, params, index, blocks, chain, h - 1);
      }
    }
    assert BlocksOf(blocks', chain) == BlocksOf(blocks, chain);
  }

  /** A consistent new entry keeps the index consistent. */
  lemma IndexGrows(c: Crypto, index: map<Hash, BlockIndex>, blocks: map<Hash, Block>, g: Hash, blk: Block)
    requires IndexOk(c, index, blocks, g)
    requires BlockHash(c, blk) !in index && blk.header.prevBlockHash in index
    ensures var hash, prev := BlockHash(c, blk), index[blk.header.prevBlockHash];
            var e := Entry(hash, blk, prev.height + 1, AddWork(prev.chainWork, Compact.BlockWork(blk.header.bits)));
            IndexOk(c, index[hash := e], blocks[hash := blk], g)
  {
    hide HeaderHash, Compact.BlockWork, AddWork;
    var hash, prev := BlockHash(c, blk), index[blk.header.prevBlockHash];
    var e := Entry(hash, blk, prev.height + 1, AddWork(prev.chainWork, Compact.BlockWork(blk.header.bits)));
    var index', blocks' := index[hash := e], blocks[hash := blk];
    forall x | x in index'
      ensures EntryOk(c, index', blocks', g, x)
    {
      if x != hash {
        assert EntryOk(c, index, blocks, g, x);
      }
    }
  }

  /** Appending a validated block to a consistent chain. */
  lemma ChainGrows(c: Crypto, params: Params, index: map<Hash, BlockIndex>, blocks: map<Hash, Block>, g: Hash,
                   chain: seq<Hash>, view: View, blk: Block, view': View)
    requires ChainOk(c, params, index, blocks, g, chain, view)
    requires var hash := BlockHash(c, blk); hash in index && index[hash].height == |chain|
                                            && hash in blocks && blocks[hash] == blk
    requires blk.header.prevBlockHash == chain[|chain| - 1]
    requires HeaderOk(c, params, blk.header, Some(blocks[chain[|chain| - 1]].header))
    requires ConnectBlock(c, blk, |chain|, view).Some? && ConnectBlock(c, blk, |chain|, view).value.view == view'
    ensures ChainOk(c, params, index, blocks, g, chain + [BlockHash(c, blk)], view')
  {
    hide HeaderOk, ConnectBlock, Replay, HeaderHash;
    var hash := BlockHash(c, blk);
    var chain' := chain + [hash];
    forall h | 0 <= h < |chain'|
      ensures LinkOk(c, params, index, blocks, chain', h)
    {
      if h < |chain| {
        assert LinkOk(c, params, index, blocks, chain, h);
      } else {
        assert LinkOk(c, params, index, blocks, chain, h - 1);
      }
    }
    ReplaySnoc(c, BlocksOf(blocks, chain), blk);
    assert BlocksOf(blocks, chain') == BlocksOf(blocks, chain) + [blk];
  }

  lemma {:induction false} ReplayPrefix(c: Crypto, bs: seq<Block>, k: nat)
    requires k <= |bs| && Replay(c, bs).Some?
    ensures Replay(c, bs[..k]).Some?
  {
    hide ConnectBlock;
    if k == |bs| {
      assert bs[..k] == bs;
    } else {
      var init := bs[..|bs| - 1];
      assert init[..k] == bs[..k];
      ReplayPrefix(c, init, k);
    }
  }

  /** A prefix of a consistent chain is a consistent chain. */
  lemma ChainPrefix(c: Crypto, params: Params, index: map<Hash, BlockIndex>, blocks: map<Hash, Block>, g: Hash,
                    chain: seq<Hash>, view: View, k: nat)
    requires ChainOk(c, params, index, blocks, g, chain, view) && 0 < k <= |chain|
    ensures Stored(blocks, chain[..k]) && Replay(c, BlocksOf(blocks, chain[..k])).Some?
    ensures ChainOk(c, params, index, blocks, g, chain[..k], Replay(c, BlocksOf(blocks, chain[..k])).value)
  {
    hide HeaderOk, Replay;
    var pre := chain[..k];
    forall h | 0 <= h < k
      ensures LinkOk(c, params, index, blocks, pre, h)
    {
      assert LinkOk(c, params, index, blocks, chain, h);
    }
    ReplayPrefix(c, BlocksOf(blocks, chain), k);
    assert BlocksOf(blocks, pre) == BlocksOf(blocks, chain)[..k];
  }

  lemma ExtensionKeepsInv(c: Crypto, params: Params, g: Hash, s: State, blk: Block)
    requires Compact.SaneParams(params) && Inv(c, params, g, s)
    requires BlockHash(c, blk) !in s.index && blk.header.prevBlockHash == s.tipHash
    ensures s.tipHash in s.index && s.index[s.tipHash].height == s.height
    ensures var (t, ok) := AcceptBlock(c, params, s, blk, s.height + 1);
            Inv(c, params, g, t)
  {
    hide HeaderOk, ConnectBlock, Replay, HeaderHash, Compact.BlockWork, AddWork, ExpectedBits, EntryOk, ChainOk;
    ActiveTip(c, params, g, s);
    var (t, ok) := AcceptBlock(c, params, s, blk, s.height + 1);
    if ok {
      var hash := BlockHash(c, blk);
      var e := t.index[hash];
      IndexGrows(c, s.index, s.blocks, g, blk);
      ChainFrame(c, params, s.index, s.blocks, g, s.byHeight, s.view, hash, e, blk);
      StoredTip(c, params, g, s, hash, blk);
      ChainGrows(c, params, t.index, t.blocks, g, s.byHeight, s.view, blk, t.view);
      assert t.byHeight == s.byHeight + [hash];
      hide IndexOk;
    }
  }

  lemma ActiveTip(c: Crypto, params: Params, g: Hash, s: State)
    requires Inv(c, params, g, s)
    ensures |s.byHeight| > 0 && s.tipHash in s.index && s.index[s.tipHash].height == s.height
    ensures s.tipHash in s.blocks && s.saved.tipHash in s.index
    ensures |s.saved.byHeight| > 0 && s.index[s.saved.tipHash].height == s.saved.height
  {
    hide HeaderOk, Replay, EntryOk;
    assert LinkOk(c, params, s.index, s.blocks, s.byHeight, s.height);
    assert LinkOk(c, params, s.index, s.blocks, s.saved.byHeight, s.saved.height);
  }

  lemma HeightMatches(c: Crypto, params: Params, g: Hash, s: State)
    requires Inv(c, params, g, s)
    ensures s.height == |s.byHeight| - 1
  {
  }

  lemma StoredTip(c: Crypto, params: Params, g: Hash, s: State, hash: Hash, blk: Block)
    requires Inv(c, params, g, s) && hash !in s.index
    ensures s.tipHash in s.blocks && s.blocks[hash := blk][s.tipHash] == s.blocks[s.tipHash]
  {
    hide HeaderOk, Replay, EntryOk;
    ActiveTip(c, params, g, s);
  }

  /** A fork block whose header check passed names the active block at the fork height. */
  lemma ForkPoint(c: Crypto, params: Params, g: Hash, s: State, blk: Block, f: nat)
    requires Inv(c, params, g, s) && ForkChain(s, f, blk).Some?
    requires HeadersOk(c, params, ForkChain(s, f, blk).value)
    ensures f < |s.byHeight| && s.byHeight[f] in s.blocks
    ensures HeaderOk(c, params, blk.header, Some(s.blocks[s.byHeight[f]].header))
    ensures blk.header.prevBlockHash == s.byHeight[f]
  {
    hide Compact.CheckProofOfWork, Replay, HeaderHash;
    var fork := ForkChain(s, f, blk).value;
    assert HeaderOk(c, params, fork[f + 1].header, HeaderBefore(fork, f + 1));
    assert fork[f] == s.blocks[s.byHeight[f]];
    assert LinkOk(c, params, s.index, s.blocks, s.byHeight, f);
    assert EntryOk(c, s.index, s.blocks, g, s.byHeight[f]);
  }

  lemma ReorgKeepsInv(c: Crypto, params: Params, g: Hash, s: State, blk: Block, f: nat)
    requires Inv(c, params, g, s) && BlockHash(c, blk) !in s.index && blk.header.prevBlockHash in s.index
    requires f == s.index[blk.header.prevBlockHash].height && ForkChain(s, f, blk).Some?
    requires var fork := ForkChain(s, f, blk).value; HeadersOk(c, params, fork) && Replay(c, fork).Some?
    ensures f < |s.byHeight|
    ensures Inv(c, params, g, Reorganised'(c, s, blk, f, Replay(c, ForkChain(s, f, blk).value).value))
  {
    hide HeaderOk, ConnectBlock, Replay, HeaderHash, Compact.BlockWork, AddWork, EntryOk, ChainOk, HeadersOk, IndexOk;
    ForkPoint(c, params, g, s, blk, f);
    var pre := s.byHeight[..f + 1];
    var hash := BlockHash(c, blk);
    ChainPrefix(c, params, s.index, s.blocks, g, s.byHeight, s.view, f + 1);
    var preView := Replay(c, BlocksOf(s.blocks, pre)).value;
    var t := Reorganised'(c, s, blk, f, Replay(c, ForkChain(s, f, blk).value).value);
    var e := t.index[hash];
    ReplaySnoc(c, BlocksOf(s.blocks, pre), blk);
    IndexGrows(c, s.index, s.blocks, g, blk);
    ChainFrame(c, params, s.index, s.blocks, g, pre, preView, hash, e, blk);
    ChainFrame(c, params, s.index, s.blocks, g, s.saved.byHeight, s.saved.view, hash, e, blk);
    assert s.byHeight[f] != hash;
    assert pre[|pre| - 1] == s.byHeight[f];
    ChainGrows(c, params, t.index, t.blocks, g, pre, preView, blk, t.view);
  }

  lemma TryAcceptKeepsInv(c: Crypto, params: Params, g: Hash, s: State, blk: Block)
    requires Compact.SaneParams(params) && Inv(c, params, g, s)
    ensures Inv(c, params, g, TryAccept(c, params, s, blk).0)
  {
    hide Inv, AcceptBlock, HeadersOk, Replay, HeaderHash, Compact.BlockWork, AddWork, ForkChain, Reorganised';
    var prevHash := blk.header.prevBlockHash;
    if BlockHash(c, blk) !in s.index && prevHash in s.index {
      if prevHash == s.tipHash {
        ExtensionKeepsInv(c, params, g, s, blk);
      } else if AddWork(s.index[prevHash].chainWork, Compact.BlockWork(blk.header.bits)) > s.chainWork {
        var f := s.index[prevHash].height;
        var fork := ForkChain(s, f, blk);
        if fork.Some? && HeadersOk(c, params, fork.value) && Replay(c, fork.value).Some? {
          ReorgKeepsInv(c, params, g, s, blk, f);
        }
      }
    }
  }

  // ------------------------------------------------------------ restart

  /** The index rebuilt from a consistent chain is the old index restricted to it. */
  lemma {:induction false} RebuiltIndex(c: Crypto, params: Params, index: map<Hash, BlockIndex>,
                                        blocks: map<Hash, Block>, g: Hash, chain: seq<Hash>, view: View, k: nat)
    requires ChainOk(c, params, index, blocks, g, chain, view) && IndexOk(c, index, blocks, g) && k <= |chain|
    ensures var r := RebuildIndex(blocks, chain, k);
            (forall x :: x in r <==> x in chain[..k]) && (forall x :: x in r ==> x in index && r[x] == index[x])
  {
    hide ChainOk, IndexOk, HeaderHash, Compact.BlockWork, AddWork;
    if k != 0 {
      RebuiltIndex(c, params, index, blocks, g, chain, view, k - 1);
      var x := chain[k - 1];
      assert chain[..k] == chain[..k - 1] + [x];
      EntryRebuilt(c, params, index, blocks, g, chain, view, k - 1);
      if k > 1 {
        assert chain[k - 2] == chain[..k - 1][k - 2];
      }
    }
  }

  /** What an indexed block of a consistent chain is recorded as. */
  lemma EntryRebuilt(c: Crypto, params: Params, index: map<Hash, BlockIndex>, blocks: map<Hash, Block>, g: Hash,
                     chain: seq<Hash>, view: View, h: nat)
    requires ChainOk(c, params, index, blocks, g, chain, view) && IndexOk(c, index, blocks, g) && h < |chain|
    ensures chain[h] in index && chain[h] in blocks
    ensures h > 0 ==> chain[h - 1] in index && blocks[chain[h]].header.prevBlockHash == chain[h - 1]
    ensures var own := Compact.BlockWork(blocks[chain[h]].header.bits);
            index[chain[h]] == Entry(chain[h], blocks[chain[h]], h,
                                     if h == 0 then own else AddWork(index[chain[h - 1]].chainWork, own))
  {
    hide HeaderOk, Replay, HeaderHash, Compact.BlockWork, AddWork;
    assert LinkOk(c, params, index, blocks, chain, h);
    assert EntryOk(c, index, blocks, g, chain[h]);
  }

  lemma RestoredKeepsInv(c: Crypto, params: Params, g: Hash, s: State)
    requires Inv(c, params, g, s)
    ensures Inv(c, params, g, Restored(s))
    ensures Restored(s).chainWork == s.chainWork && g in Restored(s).index
  {
    hide LinkOk, Replay, EntryOk, RebuildIndex;
    var chain, t := s.saved.byHeight, Restored(s);
    RebuiltIndex(c, params, s.index, s.blocks, g, chain, s.saved.view, |chain|);
    assert chain[..|chain|] == chain;
    assert s.saved.tipHash in chain && chain[0] in chain;
    forall h | 0 <= h < |chain|
      ensures LinkOk(c, params, t.index, t.blocks, chain, h)
    {
      assert chain[h] in t.index;
      LinkRestored(c, params, s.index, t.index, s.blocks, chain, h);
    }
    forall x | x in t.index
      ensures EntryOk(c, t.index, t.blocks, g, x)
    {
      var h :| 0 <= h < |chain| && chain[h] == x;
      assert h > 0 ==> chain[h - 1] in t.index;
      EntryRestored(c, params, s.index, t.index, s.blocks, g, chain, s.saved.view, h);
    }
  }

  lemma GenesisInv(c: Crypto, params: Params, g: Block)
    requires GenesisState(c, g).Some?
    ensures Inv(c, params, BlockHash(c, g), GenesisState(c, g).value)
  {
    hide HeaderOk, ConnectBlock, HeaderHash, Compact.BlockWork, Replay, AddWork;
    var s, hash := GenesisState(c, g).value, BlockHash(c, g);
    assert BlocksOf(s.blocks, [hash]) == [g];
    ReplayOne(c, g);
    assert LinkOk(c, params, s.index, s.blocks, s.byHeight, 0);
  }

  lemma ReplayOne(c: Crypto, g: Block)
    requires ConnectBlock(c, g, 0, map[]).Some?
    ensures Replay(c, [g]) == Some(ConnectBlock(c, g, 0, map[]).value.view)
  {
    hide ConnectBlock;
    assert Replay(c, []) == Some(map[]);
    ReplaySnoc(c, [], g);
    assert [] + [g] == [g];
  }

  /** A restart keeps the invariant; it restores the saved chainstate, and with it the
      recorded work, if what is on disk can be loaded, and starts over otherwise. */
  lemma RestartKeepsInv(c: Crypto, params: Params, g: Block, s: State)
    requires GenesisState(c, g).Some? && Inv(c, params, BlockHash(c, g), s)
    ensures Inv(c, params, BlockHash(c, g), Restarted(c, g, s))
    ensures Restarted(c, g, s) == if Reloadable(s) then Restored(s) else GenesisState(c, g).value
    ensures Reloadable(s) ==> Restarted(c, g, s).chainWork == s.chainWork
  {
    hide Inv, HeaderHash, GenesisState, Restored, Reloadable;
    RestoredKeepsInv(c, params, BlockHash(c, g), s);
    GenesisInv(c, params, g);
  }

  lemma LinkRestored(c: Crypto, params: Params, index: map<Hash, BlockIndex>, part: map<Hash, BlockIndex>,
                     blocks: map<Hash, Block>, chain: seq<Hash>, h: nat)
    requires h < |chain| && LinkOk(c, params, index, blocks, chain, h)
    requires chain[h] in part && part[chain[h]] == index[chain[h]]
    ensures LinkOk(c, params, part, blocks, chain, h)
  {
    hide HeaderOk;
  }

  lemma EntryRestored(c: Crypto, params: Params, index: map<Hash, BlockIndex>, part: map<Hash, BlockIndex>,
                      blocks: map<Hash, Block>, g: Hash, chain: seq<Hash>, view: View, h: nat)
    requires ChainOk(c, params, index, blocks, g, chain, view) && IndexOk(c, index, blocks, g) && h < |chain|
    requires chain[h] in part && chain[h] in index && part[chain[h]] == index[chain[h]]
    requires h > 0 ==> chain[h - 1] in part && chain[h - 1] in index && part[chain[h - 1]] == index[chain[h - 1]]
    ensures EntryOk(c, part, blocks, g, chain[h])
  {
    hide HeaderOk, Replay, HeaderHash, Compact.BlockWork, AddWork;
    assert LinkOk(c, params, index, blocks, chain, h);
    assert EntryOk(c, index, blocks, g, chain[h]);
  }
}
