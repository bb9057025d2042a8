/** The chain on top of the block store: after any run of a node whose disk takes every
    write, the bytes on disk answer every read as the map in the chain's model does.
 */
module Disk {
  import opened Types
  import opened WireFormat
  import opened Ledger
  import opened Chain
  import Compact
  import Runs
  import Store

  // ------------------------------------------------------------ every stored block reads back

  lemma {:induction false} ConnectedCounts(c: Crypto, txs: seq<Transaction>, height: nat, view: View)
    requires ConnectTxs(c, txs, height, view).Some?
    ensures forall tx <- txs :: WithinCounts(tx)
  {
    hide InputsOk, ApplyTx, Fee, SumOut, DistinctInputs;
    if txs != [] {
      var init, last := txs[..|txs| - 1], txs[|txs| - 1];
      ConnectedCounts(c, init, height, view);
      assert txs == init + [last];
    }
  }

  /** Validation admits 10,000 of anything where the reader admits 100,000. */
  lemma ConnectedWithinCounts(c: Crypto, blk: Block, height: nat, view: View)
    requires ConnectBlock(c, blk, height, view).Some?
    ensures BlockWithinCounts(blk)
  {
    hide ConnectTxs, SumOut, DistinctInputs;
    ConnectedCounts(c, blk.vtx[1..], height, view);
    assert blk.vtx == [blk.vtx[0]] + blk.vtx[1..];
  }

  /** What is stored was connected, as an extension or at the end of a replay. */
  lemma AcceptedIs(c: Crypto, params: Params, s: State, blk: Block)
    requires Compact.SaneParams(params)
    ensures var (t, o) := TryAccept(c, params, s, blk);
            && (Accepted(o) ==> t.blocks == s.blocks[BlockHash(c, blk) := blk] && BlockWithinCounts(blk))
            && (!Accepted(o) ==> t == s)
  {
    hide HeaderOk, ConnectBlock, HeaderHash, Compact.BlockWork, AddWork, ExpectedBits, HeadersOk, BlockWithinCounts, BlocksOf, Replay;
    var (t, o) := TryAccept(c, params, s, blk);
    if o.Extended? {
      ConnectedWithinCounts(c, blk, s.index[blk.header.prevBlockHash].height + 1, s.view);
    } else if o.Reorganised? {
      LastReplayed(c, BlocksOf(s.blocks, s.byHeight[..o.forkHeight + 1]), blk);
    }
  }

  lemma LastReplayed(c: Crypto, bs: seq<Block>, blk: Block)
    requires Replay(c, bs + [blk]).Some?
    ensures BlockWithinCounts(blk)
  {
    hide ConnectBlock, BlockWithinCounts;
    assert (bs + [blk])[..|bs|] == bs;
    ConnectedWithinCounts(c, blk, |bs|, Replay(c, bs).value);
  }

  ghost predicate AllWithinCounts(blocks: map<Hash, Block>) {
    forall x :: x in blocks ==> BlockWithinCounts(blocks[x])
  }

  /** Every block a node ever stores is one its store can read back. */
  lemma {:induction false} RunWithinCounts(c: Crypto, params: Params, g: Block, events: seq<Runs.Event>)
    requires Compact.SaneParams(params) && GenesisState(c, g).Some?
    ensures AllWithinCounts(Runs.Run(c, params, g, events).blocks)
  {
    hide TryAccept, Restarted, Restored, Reloadable, ConnectBlock, HeaderHash, Compact.BlockWork, BlockWithinCounts, Inv;
    ConnectedWithinCounts(c, g, 0, map[]);
    if events != [] {
      var init := events[..|events| - 1];
      RunWithinCounts(c, params, g, init);
      var s := Runs.Run(c, params, g, init);
      match events[|events| - 1]
      case Deliver(blk) => AcceptedIs(c, params, s, blk);
      case Restart => RestartBlocks(c, params, g, init);
    }
  }

  lemma RestartBlocks(c: Crypto, params: Params, g: Block, events: seq<Runs.Event>)
    requires Compact.SaneParams(params) && GenesisState(c, g).Some?
    ensures var s := Runs.Run(c, params, g, events);
            Restarted(c, g, s).blocks == if Reloadable(s) then s.blocks else map[BlockHash(c, g) := g]
  {
    hide ConnectBlock, HeaderHash, Compact.BlockWork, Reloadable, Inv, Runs.Run, RebuildIndex;
    Runs.RunInv(c, params, g, events);
    RestartKeepsInv(c, params, g, Runs.Run(c, params, g, events));
  }

  // ------------------------------------------------------------ what the node asks of the store

  predicate Reads(calls: seq<Store.Event>) {
    forall i :: 0 <= i < |calls| ==> calls[i].Get?
  }

  /** Reads, and then one block is written. */
  predicate WritesLast(calls: seq<Store.Event>, blk: Block) {
    calls != [] && Reads(calls[..|calls| - 1]) && calls[|calls| - 1].Put? && calls[|calls| - 1].blk == blk
  }

  /** The calls one event makes: an accepted block is written after some reads, any other is
      not. A new process reads its chain, and writes genesis if that fails; without a
      chainstate it has read nothing by then. */
  ghost predicate Asks(c: Crypto, params: Params, g: Block, s: State, e: Runs.Event, calls: seq<Store.Event>)
    requires Compact.SaneParams(params)
  {
    match e
    case Deliver(blk) => if Accepted(TryAccept(c, params, s, blk).1) then WritesLast(calls, blk) else Reads(calls)
    case Restart =>
      && calls != [] && calls[0] == Store.Restart
      && (if Reloadable(s) then |calls| > 1 && Reads(calls[1..])
          else WritesLast(calls[1..], g) && (WithinCaps(s.saved) <==> |calls| > 2))
  }

  /** The calls of a whole run, from the genesis block on an empty disk. */
  function Log(g: Block, calls: seq<seq<Store.Event>>): seq<Store.Event> {
    if calls == [] then [Store.Put(g, 0)] else Log(g, calls[..|calls| - 1]) + calls[|calls| - 1]
  }

  ghost predicate Serves(c: Crypto, params: Params, g: Block, events: seq<Runs.Event>, calls: seq<seq<Store.Event>>)
    requires Compact.SaneParams(params) && GenesisState(c, g).Some?
  {
    |calls| == |events|
    && forall k :: 0 <= k < |events| ==> Asks(c, params, g, Runs.Run(c, params, g, events[..k]), events[k], calls[k])
  }

  /** The disk takes every write. */
  ghost predicate AllTaken(c: Crypto, log: seq<Store.Event>) {
    forall k :: 0 <= k < |log| ==> Store.Taken(Store.Run(c, log[..k]).0, log[k])
  }

  lemma TakenPrefix(c: Crypto, log: seq<Store.Event>, more: seq<Store.Event>)
    requires AllTaken(c, log + more)
    ensures AllTaken(c, log)
  {
    hide Store.Run, Store.Taken;
    forall k | 0 <= k < |log| ensures Store.Taken(Store.Run(c, log[..k]).0, log[k]) {
      assert (log + more)[..k] == log[..k] && (log + more)[k] == log[k];
    }
  }

  // ------------------------------------------------------------ what the store then holds

  /** This process and the disk agree on the blocks. */
  ghost predicate Settled(c: Crypto, log: seq<Store.Event>, blocks: map<Hash, Block>) {
    var a := Store.Run(c, log).1;
    a.visible == blocks && a.disk == blocks
  }

  /** A process that sees nothing of what is on disk. */
  ghost predicate Blind(c: Crypto, log: seq<Store.Event>, blocks: map<Hash, Block>) {
    var a := Store.Run(c, log).1;
    a.visible == map[] && a.disk == blocks
  }

  lemma OneCall(c: Crypto, log: seq<Store.Event>, e: Store.Event)
    requires Store.Taken(Store.Run(c, log).0, e)
    ensures Store.Run(c, log + [e]).1 == Store.AbstractStep(c, Store.Run(c, log).1, e, true)
  {
    hide Store.Step, Store.AbstractStep, Store.Taken;
    assert (log + [e])[..|log|] == log;
  }

  lemma {:induction false} ReadsKeep(c: Crypto, log: seq<Store.Event>, gets: seq<Store.Event>, blocks: map<Hash, Block>)
    requires Settled(c, log, blocks) && Reads(gets)
    ensures Settled(c, log + gets, blocks)
    decreases |gets|
  {
    hide Store.Run;
    if gets == [] {
      assert log + gets == log;
    } else {
      var init, last := gets[..|gets| - 1], gets[|gets| - 1];
      ReadsKeep(c, log, init, blocks);
      OneCall(c, log + init, last);
      assert log + gets == log + init + [last];
      assert blocks + blocks == blocks;
    }
  }

  lemma {:induction false} BlindReads(c: Crypto, log: seq<Store.Event>, gets: seq<Store.Event>, blocks: map<Hash, Block>)
    requires Blind(c, log, blocks) && Reads(gets) && (gets == [] || |blocks| > MAX_ENTRIES)
    ensures Blind(c, log + gets, blocks)
    decreases |gets|
  {
    hide Store.Run;
    if gets == [] {
      assert log + gets == log;
    } else {
      var init, last := gets[..|gets| - 1], gets[|gets| - 1];
      BlindReads(c, log, init, blocks);
      OneCall(c, log + init, last);
      assert log + gets == log + init + [last];
    }
  }

  /** The first read of a process brings back what is on disk. */
  lemma ReadsRestore(c: Crypto, log: seq<Store.Event>, gets: seq<Store.Event>, blocks: map<Hash, Block>)
    requires Store.Run(c, log).1 == Store.Abstract(blocks, map[], false) && |blocks| <= MAX_ENTRIES
    requires Reads(gets) && gets != []
    ensures Settled(c, log + gets, blocks)
  {
    hide Store.Run;
    OneCall(c, log, gets[0]);
    assert map[] + blocks == blocks;
    ReadsKeep(c, log + [gets[0]], gets[1..], blocks);
    assert log + gets == log + [gets[0]] + gets[1..];
  }

  lemma LastTaken(c: Crypto, log: seq<Store.Event>, calls: seq<Store.Event>)
    requires calls != [] && AllTaken(c, log + calls)
    ensures Store.Taken(Store.Run(c, log + calls[..|calls| - 1]).0, calls[|calls| - 1])
  {
    hide Store.Run, Store.Taken;
    var k := |log| + |calls| - 1;
    assert (log + calls)[..k] == log + calls[..|calls| - 1] && (log + calls)[k] == calls[|calls| - 1];
  }

  lemma WriteAdds(c: Crypto, log: seq<Store.Event>, calls: seq<Store.Event>, blk: Block, blocks: map<Hash, Block>)
    requires Settled(c, log, blocks) && WritesLast(calls, blk) && AllTaken(c, log + calls)
    ensures Settled(c, log + calls, blocks[BlockHash(c, blk) := blk])
  {
    hide Store.Run, Store.Taken, HeaderHash, AllTaken;
    var gets := calls[..|calls| - 1];
    ReadsKeep(c, log, gets, blocks);
    LastTaken(c, log, calls);
    OneCall(c, log + gets, calls[|calls| - 1]);
    assert log + calls == log + gets + [calls[|calls| - 1]];
  }

  /** Writing before anything was read, or when it cannot be read, leaves that block alone. */
  lemma WriteAlone(c: Crypto, log: seq<Store.Event>, calls: seq<Store.Event>, blk: Block, blocks: map<Hash, Block>)
    requires Blind(c, log, blocks) && WritesLast(calls, blk) && AllTaken(c, log + calls)
    requires |calls| == 1 || |blocks| > MAX_ENTRIES
    ensures Settled(c, log + calls, map[BlockHash(c, blk) := blk])
  {
    hide Store.Run, Store.Taken, HeaderHash, AllTaken;
    var gets := calls[..|calls| - 1];
    BlindReads(c, log, gets, blocks);
    LastTaken(c, log, calls);
    OneCall(c, log + gets, calls[|calls| - 1]);
    assert log + calls == log + gets + [calls[|calls| - 1]];
    assert map[][BlockHash(c, blk) := blk] == map[BlockHash(c, blk) := blk];
  }

  lemma RestartSettles(c: Crypto, g: Block, s: State, log: seq<Store.Event>, calls: seq<Store.Event>)
    requires Settled(c, log, s.blocks) && AllTaken(c, log + calls)
    requires calls != [] && calls[0] == Store.Restart
    requires if Reloadable(s) then |calls| > 1 && Reads(calls[1..])
             else WritesLast(calls[1..], g) && (WithinCaps(s.saved) <==> |calls| > 2)
    ensures Settled(c, log + calls, if Reloadable(s) then s.blocks else map[BlockHash(c, g) := g])
  {
    hide Store.Run, HeaderHash, AllTaken, WithinCaps, Reads;
    OneCall(c, log, calls[0]);
    var start, rest := log + [calls[0]], calls[1..];
    assert log + calls == start + rest;
    if Reloadable(s) {
      ReadsRestore(c, start, rest, s.blocks);
    } else {
      assert Blind(c, start, s.blocks);
      WriteAlone(c, start, rest, g, s.blocks);
    }
  }

  /** The blocks of the chain's model are what the store holds, after every run. */
  lemma {:induction false} RunSettles(c: Crypto, params: Params, g: Block, events: seq<Runs.Event>,
                                      calls: seq<seq<Store.Event>>)
    requires Compact.SaneParams(params) && GenesisState(c, g).Some?
    requires Serves(c, params, g, events, calls) && AllTaken(c, Log(g, calls))
    ensures Settled(c, Log(g, calls), Runs.Run(c, params, g, events).blocks)
  {
    hide TryAccept, Restarted, Reloadable, WithinCaps, GenesisState, HeaderHash, Settled, AllTaken, Reads, WritesLast;
    if events == [] {
      GenesisSettles(c, g);
    } else {
      var n := |events| - 1;
      var init, log := events[..n], Log(g, calls[..n]);
      InitServes(c, params, g, events, calls);
      TakenPrefix(c, log, calls[n]);
      RunSettles(c, params, g, init, calls[..n]);
      var s := Runs.Run(c, params, g, init);
      assert Asks(c, params, g, s, events[n], calls[n]);
      match events[n]
      case Deliver(blk) =>
        AcceptedIs(c, params, s, blk);
        if Accepted(TryAccept(c, params, s, blk).1) {
          WriteAdds(c, log, calls[n], blk, s.blocks);
        } else {
          ReadsKeep(c, log, calls[n], s.blocks);
        }
      case Restart =>
        RestartBlocks(c, params, g, init);
        RestartSettles(c, g, s, log, calls[n]);
    }
  }

  lemma InitServes(c: Crypto, params: Params, g: Block, events: seq<Runs.Event>, calls: seq<seq<Store.Event>>)
    requires Compact.SaneParams(params) && GenesisState(c, g).Some?
    requires Serves(c, params, g, events, calls) && events != []
    ensures Serves(c, params, g, events[..|events| - 1], calls[..|events| - 1])
  {
    hide Asks, GenesisState, Runs.Run;
    var init := events[..|events| - 1];
    forall k | 0 <= k < |init|
      ensures Asks(c, params, g, Runs.Run(c, params, g, init[..k]), init[k], calls[..|init|][k])
    {
      assert init[..k] == events[..k];
    }
  }

  lemma GenesisSettles(c: Crypto, g: Block)
    requires GenesisState(c, g).Some? && AllTaken(c, [Store.Put(g, 0)])
    ensures Settled(c, [Store.Put(g, 0)], GenesisState(c, g).value.blocks)
  {
    hide ConnectBlock, HeaderHash, Compact.BlockWork, AllTaken, SerBlock;
    var none: seq<Store.Event> := [];
    var calls := [Store.Put(g, 0)];
    assert none + calls == calls;
    WriteAlone(c, none, calls, g, map[]);
  }

  /** End to end: whatever blocks arrive and however often the node restarts, as long as the
      disk takes every write, reading a hash from the files gives the block the chain's model
      holds under it, and nothing for any other hash. */
  lemma FilesAnswerChain(c: Crypto, params: Params, g: Block, events: seq<Runs.Event>, calls: seq<seq<Store.Event>>, x: Hash)
    requires Compact.SaneParams(params) && GenesisState(c, g).Some?
    requires Serves(c, params, g, events, calls) && AllTaken(c, Log(g, calls)) && Store.Sized(c, Log(g, calls))
    ensures var blocks := Runs.Run(c, params, g, events).blocks;
            Store.Fetch(c, Store.Load(Store.Run(c, Log(g, calls)).0), x) == if x in blocks then Some(blocks[x]) else None
  {
    hide TryAccept, GenesisState, HeaderHash, Serves, AllTaken, Store.Sized, Store.Run, Store.Fetch, Store.Load, Runs.Run,
         BlockWithinCounts;
    RunSettles(c, params, g, events, calls);
    RunWithinCounts(c, params, g, events);
    Store.ReadsAnswer(c, Log(g, calls), x);
    var blocks := Runs.Run(c, params, g, events).blocks;
    assert blocks + blocks == blocks;
  }
}
