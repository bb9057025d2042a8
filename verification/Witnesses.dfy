/** Concrete runs: a reorganisation that succeeds and what a restart makes of it, and an
    extension after which the node cannot load its own files.
 */
module Witnesses {
  import opened Types
  import opened Bytes
  import opened WireFormat
  import opened Ledger
  import opened Chain
  import opened Runs
  import Arith
  import Blockchain
  import ChainState
  import Compact
  import Framing
  import Merkle
  import Sync

  /** A hash that shows the low byte of the nonce of a header, and zero for anything else;
      every script verifies. */
  const TOY: Crypto := Crypto((x: seq<byte>) => if |x| == 80 then x[76] else 0, (a, b, h) => true)

  /** A network without retargeting. */
  const PARAMS: Params := Params(None, 0, 0, 600, 2016, 4, true, EASY)

  const EASY: uint32 := 0x207f_ffff
  const HARD: uint32 := 0x1d00_ffff

  function Reward(script: seq<byte>): Transaction {
    Transaction(1, [TxIn(OutPoint(0, NULL_INDEX), [0, 0], 0)], [TxOut(0, script)], 0)
  }

  function Blk(prev: Hash, time: uint32, bits: uint32, nonce: byte, script: seq<byte>): Block {
    Block(BlockHeader(1, prev, 0, time, bits, nonce), [Reward(script)])
  }

  const GENESIS: Block := Blk(0, 1, EASY, 1, [0x51])

  // ------------------------------------------------------------ what the toy hash gives

  lemma HashIsNonce(b: Block)
    requires b.header.nonce < 256
    ensures BlockHash(TOY, b) == b.header.nonce
  {
    hide LE;
    assert SerHeader(b.header)[76] == LE(b.header.nonce, 4)[0];
    LowByte(b.header.nonce);
  }

  predicate Usable(script: seq<byte>) {
    |script| == 1 || 100 < |script| < TWO_32
  }

  lemma RewardId(script: seq<byte>)
    requires Usable(script)
    ensures TxId(TOY, Reward(script)) == 0
  {
    hide LE;
    var tx := Reward(script);
    SerInsSnoc([], tx.vin[0]);
    SerOutsSnoc([], tx.vout[0]);
    assert [] + [tx.vin[0]] == tx.vin && [] + [tx.vout[0]] == tx.vout;
    assert |SerIn(tx.vin[0])| == 43;
    assert |SerOut(tx.vout[0])| == 8 + |VarInt(|script|)| + |script|;
    assert |SerTx(tx)| != 80;
  }

  /** Such a block connects anywhere and leaves one worthless coin. */
  lemma Connects(b: Block, script: seq<byte>, height: nat, view: View)
    requires Usable(script) && b.vtx == [Reward(script)] && b.header.merkleRoot == 0
    ensures ConnectBlock(TOY, b, height, view)
         == Some(Connected(view[OutPoint(0, 0) := Coin(0, script, height, true)], 0))
  {
    hide SerTx, HeaderHash;
    RewardId(script);
    var cb := Reward(script);
    assert Merkle.TxIds(TOY, b.vtx) == [0];
    assert b.vtx[1..] == [];
    assert cb.vout == [] + [cb.vout[0]];
    SumOutSnoc([], cb.vout[0]);
    SumOutNone();
  }

  lemma Targets()
    ensures Compact.SetCompact(EASY) >= 256 && Compact.SetCompact(HARD) >= 256
    ensures Compact.BlockWork(EASY) == 2 && 4 < Compact.BlockWork(HARD) < TWO_256 / 2
  {
    hide Pow256;
    EasyTarget();
    Compact.MaxTargetValue();
    PowGrows(1, 26);
    Pow256Values();
    var t := Compact.SetCompact(HARD);
    assert t == 0xffff * Pow256(26) < TWO_256 / 0x1_0000;
    Arith.DivUnique(TWO_256, t + 1, TWO_256 / (t + 1), TWO_256 % (t + 1));
    SmallDivisor(t + 1);
  }

  lemma SmallDivisor(d: nat)
    requires 2 < d <= TWO_256 / 0x1_0000
    ensures 4 < TWO_256 / d < TWO_256 / 2
  {
    var q := TWO_256 / d;
    assert TWO_256 == d * q + TWO_256 % d;
    if q <= 4 {
      Arith.MulMono(d, q, 4);
    }
    if q >= TWO_256 / 2 {
      Arith.MulMono(d, TWO_256 / 2, q);
    }
  }

  lemma EasyTarget()
    ensures Compact.SetCompact(EASY) >= 256 && Compact.BlockWork(EASY) == 2
  {
    hide Pow256;
    Pow256Values();
    Pow256Add(29, 3);
    assert Pow256(3) == 0x100_0000 by { PowThree(); }
    var p := Pow256(29);
    assert p * 0x100_0000 == TWO_256;
    assert Compact.SetCompact(EASY) == 0x7f_ffff * p;
    Arith.DivUnique(TWO_256, 0x7f_ffff * p + 1, 2, 2 * p - 2);
  }

  // ------------------------------------------------------------ the states

  function OneCoin(script: seq<byte>, height: nat): View {
    map[OutPoint(0, 0) := Coin(0, script, height, true)]
  }

  function Begin(): State {
    var v := OneCoin([0x51], 0);
    State(v, map[1 := Entry(1, GENESIS, 0, 2)], [1], 0, 1, 2, map[1 := GENESIS], Snapshot(v, 0, 1, [1]))
  }

  lemma GenesisWorks()
    ensures Compact.SaneParams(PARAMS) && GenesisState(TOY, GENESIS) == Some(Begin())
  {
    hide ConnectBlock, Compact.BlockWork, HeaderHash;
    Connects(GENESIS, [0x51], 0, map[]);
    HashIsNonce(GENESIS);
    Targets();
    assert map[][OutPoint(0, 0) := Coin(0, [0x51], 0, true)] == OneCoin([0x51], 0);
  }

  /** A block on genesis: hash 2, or 3 for the fork. */
  function Next(bits: uint32, nonce: byte, script: seq<byte>): Block {
    Blk(1, 2, bits, nonce, script)
  }

  lemma NextHeaderOk(bits: uint32, nonce: byte, script: seq<byte>)
    requires bits == EASY || bits == HARD
    ensures HeaderOk(TOY, PARAMS, Next(bits, nonce, script).header, Some(GENESIS.header))
    ensures HeaderOk(TOY, PARAMS, GENESIS.header, None)
    ensures BlockHash(TOY, Next(bits, nonce, script)) == nonce && BlockHash(TOY, GENESIS) == 1
  {
    hide HeaderHash, Compact.SetCompact;
    Targets();
    HashIsNonce(GENESIS);
    HashIsNonce(Next(bits, nonce, script));
  }

  function Second(script: seq<byte>): State {
    var v, b := OneCoin(script, 1), Next(EASY, 2, script);
    State(v, map[1 := Entry(1, GENESIS, 0, 2), 2 := Entry(2, b, 1, 4)], [1, 2], 1, 2, 4,
          map[1 := GENESIS, 2 := b], Snapshot(v, 1, 2, [1, 2]))
  }

  lemma Extends(script: seq<byte>)
    requires Usable(script)
    ensures Compact.SaneParams(PARAMS)
    ensures TryAccept(TOY, PARAMS, Begin(), Next(EASY, 2, script)) == (Second(script), Extended)
  {
    hide ConnectBlock, Compact.BlockWork, HeaderHash, HeaderOk;
    var b, s := Next(EASY, 2, script), Begin();
    NextHeaderOk(EASY, 2, script);
    Connects(b, script, 1, s.view);
    Targets();
    assert s.view[OutPoint(0, 0) := Coin(0, script, 1, true)] == OneCoin(script, 1);
    assert ExpectedBits(PARAMS, s.byHeight, s.blocks, GENESIS.header, 0) == EASY;
    assert [1] + [2] == [1, 2];
    assert s.index[2 := Entry(2, b, 1, 4)] == Second(script).index;
    assert s.blocks[2 := b] == Second(script).blocks;
  }

  /** A fork block on genesis with one hard target outweighs two easy ones. */
  const FORK: Block := Next(HARD, 3, [0x51])

  lemma Forks()
    ensures Compact.SaneParams(PARAMS)
    ensures var (t, o) := TryAccept(TOY, PARAMS, Second([0x51]), FORK);
            o == Reorganised(0) && t.byHeight == [1, 3] && t.tipHash == 3 && t.chainWork == 4
            && t.saved == Second([0x51]).saved && t.blocks == Second([0x51]).blocks[3 := FORK]
  {
    hide TryAccept, Compact.BlockWork, BlockHash, HeaderHash, HeaderOk, HeadersOk, Replay, ForkChain, AddWork, OneCoin, Reward;
    var s := Second([0x51]);
    NextHeaderOk(HARD, 3, [0x51]);
    ForkWork();
    ForkBlocks();
    ReplayFork();
    assert s.byHeight[..1] + [3] == [1, 3];
    ForkAccepted(TOY, PARAMS, s, FORK, [GENESIS, FORK], OneCoin([0x51], 1));
  }

  lemma ForkWork()
    ensures AddWork(2, Compact.BlockWork(HARD)) > 4
  {
    hide Compact.BlockWork, Compact.SetCompact;
    Targets();
    SmallSum(2, Compact.BlockWork(HARD));
  }

  lemma SmallSum(a: Hash, b: Hash)
    requires a + b < TWO_256
    ensures AddWork(a, b) == a + b
  {
    Arith.DivUnique(a + b, TWO_256, 0, a + b);
  }

  /** When a fork block is taken. */
  lemma ForkAccepted(c: Crypto, params: Params, s: State, blk: Block, fork: seq<Block>, view: View)
    requires Compact.SaneParams(params) && BlockHash(c, blk) !in s.index
    requires blk.header.prevBlockHash in s.index && blk.header.prevBlockHash != s.tipHash
    requires AddWork(s.index[blk.header.prevBlockHash].chainWork, Compact.BlockWork(blk.header.bits)) > s.chainWork
    requires ForkChain(s, s.index[blk.header.prevBlockHash].height, blk) == Some(fork)
    requires HeadersOk(c, params, fork) && Replay(c, fork) == Some(view)
    ensures var f := s.index[blk.header.prevBlockHash].height;
            && f < |s.byHeight|
            && TryAccept(c, params, s, blk) == (Reorganised'(c, s, blk, f, view), Reorganised(f))
  {
    hide AcceptBlock, Compact.BlockWork, HeaderHash, HeadersOk, Replay, BlocksOf;
  }

  lemma ForkBlocks()
    ensures ForkChain(Second([0x51]), 0, FORK) == Some([GENESIS, FORK]) && HeadersOk(TOY, PARAMS, [GENESIS, FORK])
  {
    hide HeaderHash, HeaderOk;
    var s, fork := Second([0x51]), [GENESIS, FORK];
    NextHeaderOk(HARD, 3, [0x51]);
    assert s.byHeight[..1] == [1];
    assert BlocksOf(s.blocks, s.byHeight[..1]) + [FORK] == fork;
  }

  lemma ReplayFork()
    ensures Replay(TOY, [GENESIS, FORK]) == Some(OneCoin([0x51], 1))
  {
    hide ConnectBlock, HeaderHash;
    Connects(GENESIS, [0x51], 0, map[]);
    var v := map[OutPoint(0, 0) := Coin(0, [0x51], 0, true)];
    assert map[][OutPoint(0, 0) := Coin(0, [0x51], 0, true)] == v;
    Connects(FORK, [0x51], 1, v);
    assert v[OutPoint(0, 0) := Coin(0, [0x51], 1, true)] == OneCoin([0x51], 1);
    assert Replay(TOY, []) == Some(map[]);
    ReplaySnoc(TOY, [], GENESIS);
    ReplaySnoc(TOY, [GENESIS], FORK);
    assert [] + [GENESIS] == [GENESIS] && [GENESIS] + [FORK] == [GENESIS, FORK];
  }

  // ------------------------------------------------------------ the runs

  /** A reorganisation that happens: after it the recorded work is below the work of the
      tip, and a restart goes back to the replaced block and forgets the new one. */
  lemma ReorgThenRestart()
    ensures Compact.SaneParams(PARAMS) && GenesisState(TOY, GENESIS).Some?
    ensures var first := Next(EASY, 2, [0x51]);
            var s := Run(TOY, PARAMS, GENESIS, [Deliver(first), Deliver(FORK)]);
            var t := Run(TOY, PARAMS, GENESIS, [Deliver(first), Deliver(FORK), Restart]);
            && s.byHeight == [1, 3] && s.tipHash in s.index && s.chainWork < s.index[s.tipHash].chainWork
            && t.byHeight == [1, 2] && 3 !in t.index
  {
    hide TryAccept, Restarted, GenesisState, HeaderHash, Reloadable, Inv;
    GenesisWorks();
    var first := Next(EASY, 2, [0x51]);
    var one, two, three := [Deliver(first)], [Deliver(first), Deliver(FORK)], [Deliver(first), Deliver(FORK), Restart];
    assert one[..0] == [] && two[..1] == one && three[..2] == two;
    Extends([0x51]);
    assert Run(TOY, PARAMS, GENESIS, one) == Second([0x51]);
    Forks();
    var s := Run(TOY, PARAMS, GENESIS, two);
    assert s == TryAccept(TOY, PARAMS, Second([0x51]), FORK).0;
    RecordedWorkExact(TOY, PARAMS, GENESIS, two);
    WorkNotAbove(two);
    HashIsNonce(GENESIS);
    RunInv(TOY, PARAMS, GENESIS, two);
    RestartKeepsInv(TOY, PARAMS, GENESIS, s);
    SmallIsReloadable(s);
    RestoredIndex(s);
  }

  /** The recorded work never exceeds the work of the tip. */
  lemma WorkNotAbove(events: seq<Event>)
    requires Compact.SaneParams(PARAMS) && GenesisState(TOY, GENESIS).Some?
    ensures var s := Run(TOY, PARAMS, GENESIS, events);
            s.tipHash in s.index && s.chainWork <= s.index[s.tipHash].chainWork
  {
    hide Run, GenesisState, TryAccept, HeaderHash, LinksOk, IndexOk;
    RunNearSaved(TOY, PARAMS, GENESIS, events);
    RunInv(TOY, PARAMS, GENESIS, events);
    RecordedWorkExact(TOY, PARAMS, GENESIS, events);
    var s := Run(TOY, PARAMS, GENESIS, events);
    if s.byHeight == s.saved.byHeight {
      assert s.tipHash == s.saved.tipHash;
    }
  }

  lemma SmallIsReloadable(s: State)
    requires s.saved == Second([0x51]).saved && s.blocks == Second([0x51]).blocks[3 := FORK]
    ensures Reloadable(s)
  {
    assert s.saved.view == OneCoin([0x51], 1);
    assert |s.saved.view| == 1;
    assert s.blocks.Keys == {1, 2, 3};
    assert |s.blocks| == |s.blocks.Keys|;
  }

  lemma RestoredIndex(s: State)
    requires s.saved.byHeight == [1, 2]
    ensures Restored(s).byHeight == [1, 2] && 3 !in Restored(s).index
  {
    hide Compact.BlockWork, AddWork;
    var chain := s.saved.byHeight;
    assert RebuildIndex(s.blocks, chain, 0) == map[];
    assert 3 !in RebuildIndex(s.blocks, chain, 1);
    assert 3 !in RebuildIndex(s.blocks, chain, 2);
  }

  /** A valid chain the node cannot load again: its coinbase pays 100,001 bytes of script,
      the chainstate it saves is refused on loading, and the restart is back at genesis. */
  lemma LongScriptRun()
    ensures Compact.SaneParams(PARAMS) && GenesisState(TOY, GENESIS).Some?
    ensures var long := Next(EASY, 2, ZeroBytes(100_001));
            var t := Run(TOY, PARAMS, GENESIS, [Deliver(long)]);
            && t.height == 1 && t.saved.tipHash == t.tipHash
            && ChainState.Writable(t.saved, [OutPoint(0, 0)])
            && ChainState.Loaded(ChainState.Saved(t.saved, [OutPoint(0, 0)])) == None
            && Run(TOY, PARAMS, GENESIS, [Deliver(long), Restart]).height == 0
  {
    hide TryAccept, Restarted, GenesisState, HeaderHash, Inv, ChainState.Saved, ChainState.Loaded, ChainState.Writable;
    GenesisWorks();
    var script := ZeroBytes(100_001);
    var long := Next(EASY, 2, script);
    Extends(script);
    var none: seq<Event> := [];
    assert Run(TOY, PARAMS, GENESIS, none) == Begin();
    LongScriptIsNotReloaded(TOY, PARAMS, GENESIS, none, long);
    assert none + [Deliver(long)] == [Deliver(long)] && none + [Deliver(long), Restart] == [Deliver(long), Restart];
    var one := [Deliver(long)];
    assert one[..0] == [];
    var t := Run(TOY, PARAMS, GENESIS, one);
    assert t == Second(script);
    assert !ShortScript(t.saved.view[OutPoint(0, 0)]);
    OneCoinWritable(script);
    ChainState.SavedIsLoaded(t.saved, [OutPoint(0, 0)]);
  }

  lemma OneCoinWritable(script: seq<byte>)
    requires Usable(script)
    ensures ChainState.Writable(Second(script).saved, [OutPoint(0, 0)])
  {
    var view := OneCoin(script, 1);
    assert view.Keys == {OutPoint(0, 0)};
    assert |view| == |view.Keys|;
  }

  // ------------------------------------------------------------ a block no message carries

  lemma OneBlockHistory(script: seq<byte>)
    requires Usable(script)
    ensures Sync.History(TOY, PARAMS, GENESIS, [Next(EASY, 2, script)])
    ensures Sync.After(TOY, PARAMS, GENESIS, [Next(EASY, 2, script)], 0) == Begin()
    ensures Sync.After(TOY, PARAMS, GENESIS, [Next(EASY, 2, script)], 1) == Second(script)
  {
    hide TryAccept, GenesisState;
    GenesisWorks();
    Extends(script);
    var bs := [Next(EASY, 2, script)];
    assert bs[..0] == [] && bs[..1] == bs;
    assert Sync.Grown(TOY, PARAMS, Begin(), bs[..0]) == Begin();
    assert Sync.ExtendsAt(TOY, PARAMS, Begin(), bs, 0);
  }

  lemma BlockHoldsScript(script: seq<byte>)
    requires Usable(script)
    ensures |SerBlock(Next(EASY, 2, script))| > |script|
  {
    hide LE, SerHeader, SerIns, VarInt;
    var b, tx := Next(EASY, 2, script), Reward(script);
    SerOutsSnoc([], tx.vout[0]);
    assert [] + [tx.vout[0]] == tx.vout;
    assert |SerTx(tx)| >= |SerOut(tx.vout[0])| >= |script|;
    assert SerTxs(b.vtx) == SerTxs([]) + SerTx(tx) by { assert b.vtx[..0] == []; }
  }

  /** A valid chain a follower never gets: the payload of its one block is over 4 MiB, so it is
      not sent, and no number of rounds moves the follower. */
  lemma LargeBlockNeverArrives(n: nat)
    ensures var large := Next(EASY, 2, ZeroBytes(Framing.MAX_MESSAGE_SIZE));
            && Sync.History(TOY, PARAMS, GENESIS, [large])
            && |SerBlock(large)| > Framing.MAX_MESSAGE_SIZE
            && var a, b := Sync.After(TOY, PARAMS, GENESIS, [large], 1), Sync.After(TOY, PARAMS, GENESIS, [large], 0);
               a.height == 1 && b.height == 0 && a.height < |a.byHeight| && Sync.Rounds(TOY, PARAMS, a, b, n) == b
  {
    hide TryAccept, GenesisState, SerBlock, Sync.Rounds, Sync.OnlyExtends, Sync.After;
    var script := ZeroBytes(Framing.MAX_MESSAGE_SIZE);
    var large := Next(EASY, 2, script);
    OneBlockHistory(script);
    BlockHoldsScript(script);
    Sync.RoundsReach(TOY, PARAMS, GENESIS, [large], 0, n);
    assert !Sync.BlockSent(large);
  }

  // ------------------------------------------------------------ another genesis block

  /** A node configured for genesis hash 5 starts from a block with hash 0. */
  lemma WrongGenesisStarts()
    ensures var params := PARAMS.(genesisHash := Some(5));
            var g := Blockchain.GenesisBlock(TOY, params, GENESIS);
            && g.Some? && BlockHash(TOY, g.value) == 0 && GenesisState(TOY, g.value).Some?
            && !Blockchain.GenesisMatches(TOY, params, GENESIS)
  {
    hide HeaderHash, ConnectBlock, Compact.SetCompact, Compact.BlockWork;
    var params, zero := PARAMS.(genesisHash := Some(5)), GENESIS.(header := GENESIS.header.(nonce := 0));
    HashIsNonce(GENESIS);
    HashIsNonce(zero);
    Targets();
    assert Blockchain.FirstNonce(TOY, GENESIS.header, 0) == Some(0);
    Connects(zero, [0x51], 0, map[]);
  }
}
