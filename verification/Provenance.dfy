/** Where the coins of a view come from: each was paid by a transaction of the chain under
    whose id it is filed.
 */
module Provenance {
  import opened Types
  import opened WireFormat
  import opened Ledger
  import opened Chain
  import opened Runs
  import Compact
  import Merkle

  /** The coin is output o.n of the transaction, or the merged coin of a coinbase. */
  predicate Pays(c: Crypto, tx: Transaction, o: OutPoint, coin: Coin) {
    && TxFits(tx) && TxId(c, tx) == o.hash
    && (if coin.isCoinbase then tx.IsCoinBase()
        else !tx.IsCoinBase() && Echoes(tx, o, coin))
  }

  /** An ordinary coin with the value and the script of the output it is filed under. */
  predicate Echoes(tx: Transaction, o: OutPoint, coin: Coin) {
    && !coin.isCoinbase && o.n < |tx.vout|
    && coin.value == tx.vout[o.n].value && coin.scriptPubKey == tx.vout[o.n].scriptPubKey
  }

  ghost predicate Paid(c: Crypto, o: OutPoint, coin: Coin) {
    exists tx :: Pays(c, tx, o, coin)
  }

  ghost predicate AllPaid(c: Crypto, view: View) {
    forall o :: o in view ==> Paid(c, o, view[o])
  }

  lemma {:induction false} OutputsPaid(c: Crypto, view: View, tx: Transaction, height: nat, k: nat)
    requires AllPaid(c, view) && TxFits(tx) && !tx.IsCoinBase() && k <= |tx.vout| <= MAX_TX_COUNT_PER_BLOCK
    ensures AllPaid(c, AddOutputs(view, TxId(c, tx), tx.vout, height, k))
  {
    hide TxId, TxFits, Paid;
    if k != 0 {
      OutputsPaid(c, view, tx, height, k - 1);
      var coin := Coin(tx.vout[k - 1].value, tx.vout[k - 1].scriptPubKey, height, false);
      OnePaid(c, tx, OutPoint(TxId(c, tx), k - 1), coin);
    }
  }

  lemma OnePaid(c: Crypto, tx: Transaction, o: OutPoint, coin: Coin)
    requires Pays(c, tx, o, coin)
    ensures Paid(c, o, coin)
  {
  }

  lemma {:induction false} TxsPaid(c: Crypto, txs: seq<Transaction>, height: nat, view: View)
    requires AllPaid(c, view) && ConnectTxs(c, txs, height, view).Some? && forall tx <- txs :: TxFits(tx)
    ensures AllPaid(c, ConnectTxs(c, txs, height, view).value.view)
  {
    hide TxId, TxFits, Paid, WellFormed, Fee, InputsOk, ApplyTx;
    if txs != [] {
      var init, tx := txs[..|txs| - 1], txs[|txs| - 1];
      TxsPaid(c, init, height, view);
      ApplyPaid(c, tx, height, ConnectTxs(c, init, height, view).value.view);
    }
  }

  lemma ApplyPaid(c: Crypto, tx: Transaction, height: nat, view: View)
    requires AllPaid(c, view) && TxFits(tx) && WellFormed(tx) && InputsOk(c, tx, view, height)
    ensures AllPaid(c, ApplyTx(c, view, tx, height))
  {
    hide TxId, TxFits, Paid, Prevouts, InputOk, SumOut, InSum, DistinctInputs;
    OutputsPaid(c, view - Prevouts(tx.vin), tx, height, |tx.vout|);
  }

  lemma BlockPaid(c: Crypto, blk: Block, height: nat, view: View)
    requires AllPaid(c, view) && BlockFits(blk) && ConnectBlock(c, blk, height, view).Some?
    ensures AllPaid(c, ConnectBlock(c, blk, height, view).value.view)
  {
    hide TxId, TxFits, Paid, ConnectTxs, Merkle.MerkleRootMatches, WellFormed;
    assert forall tx <- blk.vtx[1..] :: tx in blk.vtx;
    TxsPaid(c, blk.vtx[1..], height, view);
    var cb := blk.vtx[0];
    assert cb in blk.vtx;
    OnePaid(c, cb, OutPoint(TxId(c, cb), 0), CoinbaseCoin(cb, height));
  }

  lemma {:induction false} ReplayPaid(c: Crypto, bs: seq<Block>)
    requires Replay(c, bs).Some? && forall b <- bs :: BlockFits(b)
    ensures AllPaid(c, Replay(c, bs).value)
  {
    hide ConnectBlock, BlockFits, Paid;
    if bs != [] {
      ReplayPaid(c, bs[..|bs| - 1]);
      BlockPaid(c, bs[|bs| - 1], |bs| - 1, Replay(c, bs[..|bs| - 1]).value);
    }
  }

  /** Blocks whose lengths fit their 64-bit fields: all that can arrive. */
  ghost predicate Fits(g: Block, events: seq<Event>) {
    BlockFits(g) && forall e <- events :: e.Deliver? ==> BlockFits(e.blk)
  }

  ghost predicate AllFit(blocks: map<Hash, Block>) {
    forall x :: x in blocks ==> BlockFits(blocks[x])
  }

  lemma {:induction false} RunFits(c: Crypto, params: Params, g: Block, events: seq<Event>)
    requires Compact.SaneParams(params) && GenesisState(c, g).Some? && Fits(g, events)
    ensures AllFit(Run(c, params, g, events).blocks)
  {
    hide BlockFits, TryAccept, Restarted, ConnectBlock, HeaderHash, Compact.BlockWork;
    if events != [] {
      var init, e := events[..|events| - 1], events[|events| - 1];
      assert e in events;
      RunFits(c, params, g, init);
      var s := Run(c, params, g, init);
      match e
      case Deliver(blk) => OnlyAdds(c, params, s, blk);
      case Restart => RestartAdds(c, g, s);
    }
  }

  lemma OnlyAdds(c: Crypto, params: Params, s: State, blk: Block)
    requires Compact.SaneParams(params)
    ensures var t := TryAccept(c, params, s, blk).0;
            t.blocks == s.blocks || t.blocks == s.blocks[BlockHash(c, blk) := blk]
  {
    hide HeaderOk, ConnectBlock, HeaderHash, Compact.BlockWork, AddWork, ExpectedBits, HeadersOk, Replay, ForkChain;
  }

  lemma RestartAdds(c: Crypto, g: Block, s: State)
    requires GenesisState(c, g).Some?
    ensures var t := Restarted(c, g, s);
            t.blocks == s.blocks || t.blocks == map[BlockHash(c, g) := g] || t.blocks == s.blocks[BlockHash(c, g) := g]
  {
    hide ConnectBlock, HeaderHash, Compact.BlockWork, RebuildIndex, Reloadable;
  }

  /** In every reachable state every coin was paid by a transaction with the id it is filed
      under. */
  lemma RunPaid(c: Crypto, params: Params, g: Block, events: seq<Event>)
    requires Compact.SaneParams(params) && GenesisState(c, g).Some? && Fits(g, events)
    ensures AllPaid(c, Run(c, params, g, events).view)
  {
    hide BlockFits, ConnectBlock, HeaderHash, Compact.BlockWork, Run, Replay, GenesisState, LinksOk, IndexOk, AllPaid;
    RunFits(c, params, g, events);
    RunInv(c, params, g, events);
    var s := Run(c, params, g, events);
    ReplayPaid(c, BlocksOf(s.blocks, s.byHeight));
  }

  /** A coin filed under the id of an ordinary transaction echoes its output, or there are
      two transactions with one id: a collision. */
  lemma EchoesOrCollision(c: Crypto, tx: Transaction, o: OutPoint, coin: Coin) returns (x: seq<byte>, y: seq<byte>)
    requires Paid(c, o, coin) && TxFits(tx) && TxId(c, tx) == o.hash && !tx.IsCoinBase()
    ensures Echoes(tx, o, coin) || Merkle.Collision(c, x, y)
  {
    hide SerTx, TxFits;
    var made :| Pays(c, made, o, coin);
    x, y := SerTx(made), SerTx(tx);
    if x == y {
      SerTxInjective(made, tx);
    }
  }
}
