/** Whole runs of a node: blocks delivered in any order, valid or not, and restarts. */
module Runs {
  import opened Types
  import opened WireFormat
  import opened Ledger
  import opened Chain
  import Arith
  import Compact
  import Rewards

  datatype Event = Deliver(blk: Block) | Restart

  function Step(c: Crypto, params: Params, g: Block, s: State, e: Event): State
    requires Compact.SaneParams(params) && GenesisState(c, g).Some?
  {
    match e
    case Deliver(blk) => TryAccept(c, params, s, blk).0
    case Restart => Restarted(c, g, s)
  }

  /** The state after the events, from genesis block g. */
  function Run(c: Crypto, params: Params, g: Block, events: seq<Event>): State
    requires Compact.SaneParams(params) && GenesisState(c, g).Some?
  {
    if events == [] then GenesisState(c, g).value
    else Step(c, params, g, Run(c, params, g, events[..|events| - 1]), events[|events| - 1])
  }

  /** Incremental equals replay: in every state a run from genesis reaches, the view is the
      replay of the active chain's blocks from nothing, the chain is hash-linked with
      matching heights and valid headers, and the saved chain is too. */
  lemma {:induction false} RunInv(c: Crypto, params: Params, g: Block, events: seq<Event>)
    requires Compact.SaneParams(params) && GenesisState(c, g).Some?
    ensures Inv(c, params, BlockHash(c, g), Run(c, params, g, events))
  {
    hide Inv, TryAccept, Restarted, GenesisState, HeaderHash;
    if events == [] {
      GenesisInv(c, params, g);
    } else {
      var init := events[..|events| - 1];
      RunInv(c, params, g, init);
      var s := Run(c, params, g, init);
      match events[|events| - 1]
      case Deliver(blk) => TryAcceptKeepsInv(c, params, BlockHash(c, g), s, blk);
      case Restart => RestartKeepsInv(c, params, g, s);
    }
  }

  /** The index describes the stored blocks: in every reachable state each entry holds the
      fields of the header of its block, and only genesis is marked as such. */
  lemma IndexDescribes(c: Crypto, params: Params, g: Block, events: seq<Event>, x: Hash)
    requires Compact.SaneParams(params) && GenesisState(c, g).Some? && x in Run(c, params, g, events).index
    ensures var s := Run(c, params, g, events);
            && x in s.blocks
            && (var e, hdr := s.index[x], s.blocks[x].header;
                && HeaderHash(c, hdr) == x == e.hash && e.prevHash == hdr.prevBlockHash && e.bits == hdr.bits
                && e.timestamp == hdr.timestamp && e.merkleRoot == hdr.merkleRoot
                && (e.isGenesis <==> e.height == 0) && (e.isGenesis <==> x == BlockHash(c, g)))
  {
    hide HeaderHash, TryAccept, GenesisState, Run, LinksOk, Replay, Compact.BlockWork;
    RunInv(c, params, g, events);
    RunKeepsGenesis(c, params, g, events);
    var s := Run(c, params, g, events);
    assert EntryOk(c, s.index, s.blocks, BlockHash(c, g), x);
  }

  // ------------------------------------------------------------ supply

  /** Replaying n blocks never creates more than the first n subsidies. */
  lemma {:induction false} ReplaySupply(c: Crypto, bs: seq<Block>)
    requires Replay(c, bs).Some?
    ensures SaneView(Replay(c, bs).value) && Total(Replay(c, bs).value) <= Rewards.SupplyBefore(|bs|)
  {
    hide ConnectBlock, Rewards.Subsidy, BlockReplaced, SumOut;
    if bs != [] {
      var init := bs[..|bs| - 1];
      ReplaySupply(c, init);
      SupplyStep(c, bs[|bs| - 1], |bs| - 1, Replay(c, init).value);
    }
  }

  /** The supply cap over every run: all coins are in the money range, and together they
      never exceed the subsidies of the heights up to the tip, nor the final supply, 2310 base
      units short of 21 million coins. */
  lemma SupplyCapOverRuns(c: Crypto, params: Params, g: Block, events: seq<Event>)
    requires Compact.SaneParams(params) && GenesisState(c, g).Some?
    ensures var s := Run(c, params, g, events);
            SaneView(s.view) && 0 <= Total(s.view) <= Rewards.SupplyBefore(s.height + 1) <= 2_099_999_997_690_000
  {
    hide ConnectBlock, Rewards.SupplyBefore, Total, Replay, TryAccept, HeaderHash, GenesisState, Run, Step, HeaderOk;
    RunInv(c, params, g, events);
    var s := Run(c, params, g, events);
    ReplaySupply(c, BlocksOf(s.blocks, s.byHeight));
    TotalNonNegative(s.view);
    Rewards.FinalSupply(s.height + 1);
  }

  // ------------------------------------------------------------ order

  /** Block times strictly increase along the active chain. */
  lemma {:induction false} TimesIncrease(c: Crypto, params: Params, g: Hash, s: State, i: nat, j: nat)
    requires Inv(c, params, g, s) && i < j <= s.height
    ensures s.byHeight[i] in s.blocks && s.byHeight[j] in s.blocks
    ensures s.blocks[s.byHeight[i]].header.timestamp < s.blocks[s.byHeight[j]].header.timestamp
  {
    hide Replay, HeaderHash, EntryOk, Compact.CheckProofOfWork;
    assert LinkOk(c, params, s.index, s.blocks, s.byHeight, i);
    assert LinkOk(c, params, s.index, s.blocks, s.byHeight, j);
    if i + 1 < j {
      TimesIncrease(c, params, g, s, i, j - 1);
    }
  }

  /** A rejected or repeated block changes nothing. */
  lemma RejectionIsAtomic(c: Crypto, params: Params, s: State, blk: Block)
    requires Compact.SaneParams(params)
    ensures var (t, o) := TryAccept(c, params, s, blk);
            t != s ==> o.Extended? || o.Reorganised?
  {
    hide HeaderOk, ConnectBlock, HeaderHash, Compact.BlockWork, AddWork, ExpectedBits, HeadersOk, Replay, ForkChain, Reorganised';
  }

  // ------------------------------------------------------------ work

  /** No addition of work has wrapped around 2^256. */
  ghost predicate NoWrap(index: map<Hash, BlockIndex>) {
    forall x :: x in index && index[x].height > 0 && index[x].prevHash in index ==>
      index[index[x].prevHash].chainWork + Compact.BlockWork(index[x].bits) < TWO_256
  }

  /** The active chain differs from the saved one at most in its last block and is never
      longer; if they differ, the active tip has more than the recorded work. */
  ghost predicate NearSaved(s: State) {
    && |s.byHeight| > 0 && s.height == |s.byHeight| - 1 && |s.byHeight| <= |s.saved.byHeight|
    && s.tipHash == s.byHeight[s.height]
    && s.byHeight[..s.height] == s.saved.byHeight[..s.height]
    && (s.byHeight == s.saved.byHeight
        || (s.height > 0 && s.tipHash in s.index && s.index[s.tipHash].chainWork > s.chainWork))
  }

  /** A reorganisation succeeds only onto a block whose parent is a strict ancestor of the
      tip on the active chain and whose total work exceeds the recorded work; it leaves
      the recorded work and never makes the chain longer. */
  lemma ReorgShape(c: Crypto, params: Params, g: Hash, s: State, blk: Block)
    requires Compact.SaneParams(params) && Inv(c, params, g, s)
    ensures var (t, o) := TryAccept(c, params, s, blk);
            o.Reorganised? ==>
              && o.forkHeight < s.height && s.byHeight[o.forkHeight] == blk.header.prevBlockHash
              && t.byHeight == s.byHeight[..o.forkHeight + 1] + [BlockHash(c, blk)]
              && t.height == o.forkHeight + 1 <= s.height
              && t.tipHash in t.index && t.index[t.tipHash].chainWork > s.chainWork == t.chainWork
              && t.saved == s.saved
  {
    hide AcceptBlock, HeaderOk, ConnectBlock, HeaderHash, Compact.BlockWork, AddWork, HeadersOk, Replay, EntryOk;
    var (t, o) := TryAccept(c, params, s, blk);
    if o.Reorganised? {
      ForkPoint(c, params, g, s, blk, o.forkHeight);
    }
  }

  lemma StepNearSaved(c: Crypto, params: Params, g: Block, s: State, e: Event)
    requires Compact.SaneParams(params) && GenesisState(c, g).Some? && Inv(c, params, BlockHash(c, g), s) && NearSaved(s)
    ensures NearSaved(Step(c, params, g, s, e))
  {
    hide Inv, HeaderHash, TryAccept, Restarted, Reloadable, NearSaved, GenesisState, Restored;
    match e
    case Restart =>
      RestartKeepsInv(c, params, g, s);
      RestoredKeepsInv(c, params, BlockHash(c, g), s);
      SavedIsNear(c, params, BlockHash(c, g), Restored(s));
      GenesisSaved(c, g, s);
      SavedIsNear(c, params, BlockHash(c, g), Restarted(c, g, s));
    case Deliver(blk) =>
      TryAcceptKeepsInv(c, params, BlockHash(c, g), s, blk);
      RejectionIsAtomic(c, params, s, blk);
      if TryAccept(c, params, s, blk).1.Reorganised? {
        ReorgNearSaved(c, params, BlockHash(c, g), s, blk);
      } else if TryAccept(c, params, s, blk).1.Extended? {
        ExtensionIsSaved(c, params, s, blk);
        SavedIsNear(c, params, BlockHash(c, g), TryAccept(c, params, s, blk).0);
      }
  }

  /** A state that is its own saved one is near it. */
  lemma SavedIsNear(c: Crypto, params: Params, g: Hash, s: State)
    requires Inv(c, params, g, s)
    ensures s.saved.byHeight == s.byHeight ==> NearSaved(s)
  {
    hide LinksOk, IndexOk, Replay;
  }

  lemma GenesisSaved(c: Crypto, g: Block, s: State)
    requires GenesisState(c, g).Some?
    ensures GenesisState(c, g).value.saved.byHeight == GenesisState(c, g).value.byHeight
    ensures Restored(s).saved.byHeight == Restored(s).byHeight
  {
    hide ConnectBlock, HeaderHash, Compact.BlockWork, RebuildIndex;
  }

  lemma ReorgNearSaved(c: Crypto, params: Params, g: Hash, s: State, blk: Block)
    requires Compact.SaneParams(params) && Inv(c, params, g, s) && NearSaved(s)
    requires TryAccept(c, params, s, blk).1.Reorganised?
    ensures NearSaved(TryAccept(c, params, s, blk).0)
  {
    hide Inv, HeaderHash, TryAccept;
    ReorgShape(c, params, g, s, blk);
    TryAcceptKeepsInv(c, params, g, s, blk);
    var (t, o) := TryAccept(c, params, s, blk);
    var f := o.forkHeight;
    assert s.byHeight[..f + 1] == s.byHeight[..s.height][..f + 1];
    assert s.saved.byHeight[..f + 1] == s.saved.byHeight[..s.height][..f + 1];
    assert t.byHeight[..f + 1] == s.byHeight[..f + 1];
    TipIsLast(c, params, g, t);
  }

  lemma TipIsLast(c: Crypto, params: Params, g: Hash, s: State)
    requires Inv(c, params, g, s)
    ensures |s.byHeight| > 0 && s.height == |s.byHeight| - 1 && s.tipHash == s.byHeight[s.height]
  {
    hide LinksOk, IndexOk, Replay;
  }

  lemma {:induction false} RunNearSaved(c: Crypto, params: Params, g: Block, events: seq<Event>)
    requires Compact.SaneParams(params) && GenesisState(c, g).Some?
    ensures NearSaved(Run(c, params, g, events))
  {
    hide Inv, Step, HeaderHash, ConnectBlock, Compact.BlockWork;
    if events != [] {
      var init := events[..|events| - 1];
      RunNearSaved(c, params, g, init);
      RunInv(c, params, g, init);
      StepNearSaved(c, params, g, Run(c, params, g, init), events[|events| - 1]);
    }
  }

  /** Along a consistent chain the work never decreases, while it does not wrap. */
  lemma {:induction false} WorkGrows(c: Crypto, params: Params, index: map<Hash, BlockIndex>,
                                     blocks: map<Hash, Block>, g: Hash, chain: seq<Hash>, i: nat, j: nat)
    requires LinksOk(c, params, index, blocks, chain) && IndexOk(c, index, blocks, g) && NoWrap(index)
    requires i <= j < |chain|
    ensures chain[i] in index && chain[j] in index && index[chain[i]].chainWork <= index[chain[j]].chainWork
  {
    hide HeaderOk, HeaderHash, Compact.BlockWork, BlockHash, LinksOk, IndexOk;
    LinkedAt(c, params, index, blocks, g, chain, i);
    LinkedAt(c, params, index, blocks, g, chain, j);
    if i < j {
      WorkGrows(c, params, index, blocks, g, chain, i, j - 1);
    }
  }

  lemma LinkedAt(c: Crypto, params: Params, index: map<Hash, BlockIndex>, blocks: map<Hash, Block>, g: Hash,
                 chain: seq<Hash>, h: nat)
    requires LinksOk(c, params, index, blocks, chain) && IndexOk(c, index, blocks, g) && h < |chain|
    ensures LinkOk(c, params, index, blocks, chain, h) && EntryOk(c, index, blocks, g, chain[h])
  {
    hide LinkOk, EntryOk;
    assert LinkOk(c, params, index, blocks, chain, h) && chain[h] in index by { LinkIndexed(c, params, index, blocks, chain, h); }
  }

  lemma LinkIndexed(c: Crypto, params: Params, index: map<Hash, BlockIndex>, blocks: map<Hash, Block>,
                    chain: seq<Hash>, h: nat)
    requires LinksOk(c, params, index, blocks, chain) && h < |chain|
    ensures LinkOk(c, params, index, blocks, chain, h) && chain[h] in index
  {
  }

  /** The recorded work lies between the work of the tip's parent and that of the tip. */
  ghost predicate Sandwich(s: State) {
    && s.height < |s.byHeight|
    && s.tipHash in s.index && s.chainWork <= s.index[s.tipHash].chainWork
    && (s.height > 0 ==>
          var parent := s.byHeight[s.height - 1];
          parent in s.index && s.index[parent].chainWork <= s.chainWork)
  }

  /** The work sandwich over every run: while no sum of work wraps, the recorded work is at
      least the work of the tip's parent and at most the work of the tip. */
  lemma WorkSandwich(c: Crypto, params: Params, g: Block, events: seq<Event>)
    requires Compact.SaneParams(params) && GenesisState(c, g).Some?
    requires NoWrap(Run(c, params, g, events).index)
    ensures Sandwich(Run(c, params, g, events))
  {
    hide HeaderOk, ConnectBlock, HeaderHash, Compact.BlockWork, Replay, Run, GenesisState, NoWrap, IndexOk;
    RunInv(c, params, g, events);
    RunNearSaved(c, params, g, events);
    var s := Run(c, params, g, events);
    ActiveTip(c, params, BlockHash(c, g), s);
    if s.height > 0 {
      var k := s.height - 1;
      assert s.byHeight[..s.height][k] == s.saved.byHeight[..s.height][k];
      WorkGrows(c, params, s.index, s.blocks, BlockHash(c, g), s.saved.byHeight, k, s.saved.height);
    }
  }

  /** The recorded work of the saved chain is at least that of genesis. */
  lemma WorkAtLeastGenesis(c: Crypto, params: Params, g: Block, events: seq<Event>)
    requires Compact.SaneParams(params) && GenesisState(c, g).Some? && NoWrap(Run(c, params, g, events).index)
    ensures Compact.BlockWork(g.header.bits) <= Run(c, params, g, events).chainWork
  {
    hide HeaderOk, ConnectBlock, HeaderHash, Compact.BlockWork, Replay, GenesisState, NoWrap, Run, EntryOk;
    RunInv(c, params, g, events);
    RunKeepsGenesis(c, params, g, events);
    var s := Run(c, params, g, events);
    WorkGrows(c, params, s.index, s.blocks, BlockHash(c, g), s.saved.byHeight, 0, s.saved.height);
  }

  /** While no sum of work wraps, a step leaves the recorded work or raises it if and only
      if it is not a restart that finds its files too large, or nothing was built on
      genesis anyway. */
  lemma RecordedWorkMonotone(c: Crypto, params: Params, g: Block, events: seq<Event>, e: Event)
    requires Compact.SaneParams(params) && GenesisState(c, g).Some?
    requires NoWrap(Run(c, params, g, events).index) && NoWrap(Run(c, params, g, events + [e]).index)
    ensures var s := Run(c, params, g, events);
            s.chainWork <= Run(c, params, g, events + [e]).chainWork
            <==> e.Deliver? || Reloadable(s) || s.chainWork == Compact.BlockWork(g.header.bits)
  {
    hide HeaderOk, ConnectBlock, HeaderHash, Compact.BlockWork, Replay, HeadersOk, EntryOk, ExpectedBits, NearSaved, Reloadable,
         Restarted, NoWrap, Inv;
    assert (events + [e])[..|events|] == events;
    var gh, s := BlockHash(c, g), Run(c, params, g, events);
    RunInv(c, params, g, events);
    RunNearSaved(c, params, g, events);
    match e
    case Restart =>
      RestartKeepsInv(c, params, g, s);
      WorkAtLeastGenesis(c, params, g, events);
    case Deliver(blk) =>
      var (t, o) := TryAccept(c, params, s, blk);
      ReorgShape(c, params, gh, s, blk);
      RejectionIsAtomic(c, params, s, blk);
      if o.Extended? {
        ExtendedWork(c, params, gh, s, blk);
      }
  }

  lemma ExtendedWork(c: Crypto, params: Params, g: Hash, s: State, blk: Block)
    requires Compact.SaneParams(params) && Inv(c, params, g, s) && NearSaved(s)
    requires TryAccept(c, params, s, blk).1.Extended? && NoWrap(TryAccept(c, params, s, blk).0.index)
    ensures s.chainWork <= TryAccept(c, params, s, blk).0.chainWork
  {
    hide HeaderOk, ConnectBlock, HeaderHash, Compact.BlockWork, Replay, HeadersOk, EntryOk, ExpectedBits;
    ActiveTip(c, params, g, s);
    var t := TryAccept(c, params, s, blk).0;
    assert t.tipHash in t.index && t.index[t.tipHash].prevHash == s.tipHash && s.tipHash in t.index;
  }

  /** The recorded work is the work of the tip if and only if the tip is the saved one, in
      every reachable state. */
  lemma RecordedWorkExact(c: Crypto, params: Params, g: Block, events: seq<Event>)
    requires Compact.SaneParams(params) && GenesisState(c, g).Some?
    ensures var s := Run(c, params, g, events);
            s.tipHash in s.index
            && (s.chainWork == s.index[s.tipHash].chainWork <==> s.saved.tipHash == s.tipHash)
  {
    hide HeaderOk, ConnectBlock, HeaderHash, Compact.BlockWork, Replay, Run, GenesisState, IndexOk, LinksOk;
    RunInv(c, params, g, events);
    RunNearSaved(c, params, g, events);
    ActiveTip(c, params, BlockHash(c, g), Run(c, params, g, events));
  }

  // ------------------------------------------------------------ retargeting

  /** The first height of the interval the next block falls in. */
  function IntervalStart(params: Params, s: State): int
    requires Compact.SaneParams(params)
  {
    (s.height + 1) / params.difficultyInterval * params.difficultyInterval
  }

  lemma StartOfInterval(n: nat, d: nat)
    requires d > 0
    ensures n / d * d == n - n % d
    ensures 0 < n / d * d <==> n >= d
  {
    var q := n / d;
    assert n == d * q + n % d;
    if n >= d {
      Arith.MulMono(d, 1, q);
    }
  }

  /** The time of the interval's first block is read if and only if the next block is not
      that first block and the interval is not the first one. At a boundary, the only place
      where the time matters, nothing is ever read. */
  lemma FirstTimeRead(c: Crypto, params: Params, g: Hash, s: State)
    requires Compact.SaneParams(params) && Inv(c, params, g, s)
    ensures var n, start := s.height + 1, IntervalStart(params, s);
            (0 < start < |s.byHeight| && s.byHeight[start] in s.blocks)
            <==> n >= params.difficultyInterval && n % params.difficultyInterval != 0
  {
    hide LinksOk, IndexOk, Replay;
    StartOfInterval(s.height + 1, params.difficultyInterval);
    TipIsLast(c, params, g, s);
  }

  /** What the node demands of the block on top of the tip: the same bits within an interval,
      and at a boundary the retarget for no elapsed time at all, whatever the times were. */
  lemma NextBits(c: Crypto, params: Params, g: Hash, s: State)
    requires Compact.SaneParams(params) && Inv(c, params, g, s)
    ensures s.tipHash in s.blocks
    ensures var tip := s.blocks[s.tipHash].header;
            ExpectedBits(params, s.byHeight, s.blocks, tip, s.height)
            == if params.powNoRetarget || (s.height + 1) % params.difficultyInterval != 0 then tip.bits
               else Compact.GetNextWorkRequired(tip.timestamp, s.height, tip.bits, tip.timestamp, params)
  {
    hide Inv, Compact.NextTarget, Compact.GetCompact;
    ActiveTip(c, params, g, s);
    FirstTimeRead(c, params, g, s);
  }

  /** At a boundary the next target is an 8064th, or, where the old one is above the maximum,
      what is left of 150 times it in 256 bits over two weeks, limited to the maximum. */
  predicate Shrinks(params: Params, s: State)
    requires Compact.SaneParams(params)
  {
    s.tipHash in s.blocks
    && (var tip := s.blocks[s.tipHash].header;
        (s.height + 1) % params.difficultyInterval == 0 ==>
          ExpectedBits(params, s.byHeight, s.blocks, tip, s.height)
          == Compact.GetCompact(Compact.AfterNoTime(Compact.SetCompact(tip.bits), Compact.SetCompact(params.minDifficultyBits))))
  }

  /** On mainnet and testnet every retarget of every run is the one for no elapsed time: it
      divides the target by 8064, whatever the times were. */
  lemma EveryRetarget(c: Crypto, params: Params, g: Block, events: seq<Event>)
    requires Compact.RetargetingNetwork(params) && GenesisState(c, g).Some?
    ensures Shrinks(params, Run(c, params, g, events))
  {
    hide Inv, Compact.SetCompact, Compact.GetCompact, Compact.GetNextWorkRequired, Compact.AfterNoTime, Run, GenesisState,
         ExpectedBits, HeaderHash;
    RunInv(c, params, g, events);
    var s := Run(c, params, g, events);
    NextBits(c, params, BlockHash(c, g), s);
    var tip := s.blocks[s.tipHash].header;
    if (s.height + 1) % params.difficultyInterval == 0 {
      Compact.NoTimeElapsed(tip.timestamp, s.height, tip.bits, params);
    }
  }

  // ------------------------------------------------------------ restart

  /** The genesis block stays stored and indexed. */
  lemma {:induction false} RunKeepsGenesis(c: Crypto, params: Params, g: Block, events: seq<Event>)
    requires Compact.SaneParams(params) && GenesisState(c, g).Some?
    ensures var s, gh := Run(c, params, g, events), BlockHash(c, g);
            && gh in s.blocks && s.blocks[gh] == g
            && gh in s.index && s.index[gh] == Entry(gh, g, 0, Compact.BlockWork(g.header.bits))
  {
    hide ConnectBlock, HeaderHash, Compact.BlockWork, TryAccept, Restarted, Inv;
    if events != [] {
      var init, e, gh := events[..|events| - 1], events[|events| - 1], BlockHash(c, g);
      RunKeepsGenesis(c, params, g, init);
      RunInv(c, params, g, init);
      var s := Run(c, params, g, init);
      match e
      case Restart =>
        RestartKeepsInv(c, params, g, s);
        RestoredGenesis(c, params, gh, s);
      case Deliver(blk) =>
        KnownStays(c, params, s, blk, gh);
    }
  }

  lemma RestoredGenesis(c: Crypto, params: Params, g: Hash, s: State)
    requires Inv(c, params, g, s)
    ensures var t := Restored(s);
            t.blocks == s.blocks && g in t.index && g in s.index && t.index[g] == s.index[g]
  {
    hide HeaderOk, HeaderHash, RebuildIndex, LinkOk, Replay, EntryOk;
    var chain := s.saved.byHeight;
    RebuiltIndex(c, params, s.index, s.blocks, g, chain, s.saved.view, |chain|);
    assert chain[..|chain|] == chain && chain[0] in chain;
  }

  /** Delivery never touches what is already indexed. */
  lemma KnownStays(c: Crypto, params: Params, s: State, blk: Block, x: Hash)
    requires Compact.SaneParams(params) && x in s.index && x in s.blocks
    ensures var t := TryAccept(c, params, s, blk).0;
            x in t.index && t.index[x] == s.index[x] && x in t.blocks && t.blocks[x] == s.blocks[x]
  {
    hide HeaderOk, ConnectBlock, HeaderHash, Compact.BlockWork, AddWork, ExpectedBits, HeadersOk, Replay, ForkChain;
  }

  /** A restart brings back the active chain and its view if and only if no reorganisation
      happened since the last extension and what is on disk can be loaded, or there is
      nothing but genesis. It never indexes anything new; it keeps the recorded work if the
      files load and otherwise starts over from genesis. */
  lemma RestartRecovers(c: Crypto, params: Params, g: Block, events: seq<Event>)
    requires Compact.SaneParams(params) && GenesisState(c, g).Some?
    ensures var s, t := Run(c, params, g, events), Run(c, params, g, events + [Restart]);
            && (t.byHeight == s.byHeight && t.view == s.view && t.height == s.height && t.tipHash == s.tipHash
                <==> s.saved.tipHash == s.tipHash && (Reloadable(s) || s.height == 0))
            && (forall x :: x in t.index ==> x in s.index && t.index[x] == s.index[x])
            && (if Reloadable(s) then t.chainWork == s.chainWork else t == GenesisState(c, g).value)
  {
    hide HeaderOk, ConnectBlock, HeaderHash, Compact.BlockWork, EntryOk, IndexOk, TryAccept, Restarted, Reloadable, Inv,
         NearSaved, Restored;
    assert (events + [Restart])[..|events|] == events;
    var gh, s := BlockHash(c, g), Run(c, params, g, events);
    RunInv(c, params, g, events);
    RestartKeepsInv(c, params, g, s);
    if Reloadable(s) {
      RestoredChain(c, params, g, events);
    } else {
      RunKeepsGenesis(c, params, g, events);
      if s.height == 0 {
        GenesisOnly(c, params, g, events);
      }
    }
  }

  /** Restoring gives back the active chain if and only if it is the saved one. */
  lemma RestoredChain(c: Crypto, params: Params, g: Block, events: seq<Event>)
    requires Compact.SaneParams(params) && GenesisState(c, g).Some?
    ensures var s := Run(c, params, g, events);
            var t := Restored(s);
            && (t.byHeight == s.byHeight && t.view == s.view && t.height == s.height && t.tipHash == s.tipHash
                <==> s.saved.tipHash == s.tipHash)
            && (forall x :: x in t.index ==> x in s.index && t.index[x] == s.index[x])
  {
    hide HeaderOk, ConnectBlock, HeaderHash, Compact.BlockWork, GenesisState, EntryOk, IndexOk, TryAccept, RebuildIndex, Run,
         Restarted, Reloadable;
    var gh, s := BlockHash(c, g), Run(c, params, g, events);
    RunInv(c, params, g, events);
    RunNearSaved(c, params, g, events);
    var chain := s.saved.byHeight;
    RebuiltIndex(c, params, s.index, s.blocks, gh, chain, s.saved.view, |chain|);
    if s.saved.tipHash == s.tipHash {
      ActiveTip(c, params, gh, s);
      assert s.byHeight == s.byHeight[..s.height] + [s.tipHash];
      assert chain == chain[..s.height] + [s.tipHash];
    }
  }

  /** At height zero the active chain, the saved one and their view are those of genesis. */
  lemma GenesisOnly(c: Crypto, params: Params, g: Block, events: seq<Event>)
    requires Compact.SaneParams(params) && GenesisState(c, g).Some? && Run(c, params, g, events).height == 0
    ensures var s, t := Run(c, params, g, events), GenesisState(c, g).value;
            s.byHeight == t.byHeight && s.view == t.view && s.tipHash == t.tipHash == s.saved.tipHash
  {
    hide HeaderOk, ConnectBlock, HeaderHash, Compact.BlockWork, EntryOk, IndexOk, Run, LinksOk;
    var gh, s := BlockHash(c, g), Run(c, params, g, events);
    RunInv(c, params, g, events);
    RunNearSaved(c, params, g, events);
    RunKeepsGenesis(c, params, g, events);
    assert s.byHeight == [gh];
    assert BlocksOf(s.blocks, s.byHeight) == [] + [g];
    assert Replay(c, []) == Some(map[]);
    ReplaySnoc(c, [], g);
  }

  /** After an accepted extension the saved tip is the tip. */
  lemma ExtensionIsSaved(c: Crypto, params: Params, s: State, blk: Block)
    requires Compact.SaneParams(params) && TryAccept(c, params, s, blk).1.Extended?
    ensures var t := TryAccept(c, params, s, blk).0;
            t.saved == Snapshot(t.view, t.height, t.tipHash, t.byHeight)
  {
    hide HeaderOk, ConnectBlock, HeaderHash, Compact.BlockWork, AddWork, ExpectedBits, HeadersOk, Replay, ForkChain, Reorganised';
  }

  /** A chain that cannot be reloaded: after an extension whose coinbase pays a script longer
      than the loader takes, the saved tip is the tip, and still a restart goes back to
      genesis. Validation sets no limit on the script. */
  lemma LongScriptIsNotReloaded(c: Crypto, params: Params, g: Block, events: seq<Event>, blk: Block)
    requires Compact.SaneParams(params) && GenesisState(c, g).Some?
    requires TryAccept(c, params, Run(c, params, g, events), blk).1.Extended?
    requires |blk.vtx| > 0 && |blk.vtx[0].vout| > 0 && |blk.vtx[0].vout[0].scriptPubKey| > MAX_SCRIPT
    ensures var s, t := Run(c, params, g, events), Run(c, params, g, events + [Deliver(blk)]);
            && t.height == s.height + 1 && t.saved.tipHash == t.tipHash && !Reloadable(t)
            && Run(c, params, g, events + [Deliver(blk), Restart]) == GenesisState(c, g).value
  {
    hide HeaderHash, GenesisState, TryAccept, Inv, Restarted, Reloadable, Restored;
    var s := Run(c, params, g, events);
    assert (events + [Deliver(blk)])[..|events|] == events;
    assert (events + [Deliver(blk), Restart])[..|events| + 1] == events + [Deliver(blk)];
    RunInv(c, params, g, events + [Deliver(blk)]);
    RunInv(c, params, g, events);
    ExtendedByOne(c, params, BlockHash(c, g), s, blk);
    ExtensionIsSaved(c, params, s, blk);
    RestartKeepsInv(c, params, g, Run(c, params, g, events + [Deliver(blk)]));
  }

  lemma ExtendedByOne(c: Crypto, params: Params, g: Hash, s: State, blk: Block)
    requires Compact.SaneParams(params) && Inv(c, params, g, s) && TryAccept(c, params, s, blk).1.Extended?
    requires |blk.vtx| > 0 && |blk.vtx[0].vout| > 0 && |blk.vtx[0].vout[0].scriptPubKey| > MAX_SCRIPT
    ensures var t := TryAccept(c, params, s, blk).0;
            t.height == s.height + 1 && !Reloadable(t)
  {
    hide HeaderOk, HeaderHash, Compact.BlockWork, AddWork, ExpectedBits, HeadersOk, Replay, ForkChain, Reorganised', Inv,
         ConnectTxs, StructureOk;
    ActiveTip(c, params, g, s);
    var r := ConnectBlock(c, blk, s.height + 1, s.view).value;
    var o := OutPoint(TxId(c, blk.vtx[0]), 0);
    assert o in r.view && !ShortScript(r.view[o]);
  }
}
