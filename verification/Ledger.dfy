/** Consensus validation of transactions and blocks as a transition on the set of
    unspent outputs, and the conservation law it obeys.
 */
module Ledger {
  import opened Types
  import opened WireFormat
  import Merkle
  import Rewards

  // ------------------------------------------------------------ one transaction

  function SumOut(vout: seq<TxOut>): int {
    if vout == [] then 0 else SumOut(vout[..|vout| - 1]) + vout[|vout| - 1].value
  }

  predicate DistinctInputs(vin: seq<TxIn>) {
    forall i, j :: 0 <= i < j < |vin| ==> vin[i].prevout != vin[j].prevout
  }

  predicate ValueInRange(v: int) { 0 <= v <= MAX_MONEY }

  predicate OutputsInRange(vout: seq<TxOut>) {
    forall i :: 0 <= i < |vout| ==> ValueInRange(vout[i].value)
  }

  /** What CheckTransaction accepts, in declarative form. */
  predicate WellFormed(tx: Transaction) {
    && 0 < |tx.vin| <= MAX_TX_COUNT_PER_BLOCK
    && 0 < |tx.vout| <= MAX_TX_COUNT_PER_BLOCK
    && DistinctInputs(tx.vin)
    && OutputsInRange(tx.vout)
    && SumOut(tx.vout) <= MAX_MONEY
    && (if tx.IsCoinBase() then 2 <= |tx.vin[0].scriptSig| <= 100
        else forall i :: 0 <= i < |tx.vin| ==> tx.vin[i].prevout.hash != 0)
  }

  lemma SumOutSnoc(xs: seq<TxOut>, x: TxOut)
    ensures SumOut(xs + [x]) == SumOut(xs) + x.value
  {
    assert (xs + [x])[..|xs|] == xs;
  }

  /** Sums of nonnegative amounts grow with the prefix. */
  lemma {:induction false} SumOutMonotone(vout: seq<TxOut>, k: nat)
    requires k <= |vout| && OutputsInRange(vout)
    ensures 0 <= SumOut(vout[..k]) <= SumOut(vout)
  {
    if k == |vout| {
      assert vout[..k] == vout;
      if k > 0 {
        SumOutMonotone(vout[..k - 1], k - 1);
      }
    } else {
      var init := vout[..|vout| - 1];
      assert init[..k] == vout[..k];
      SumOutMonotone(init, k);
    }
  }

  /** The running total checked after each output rejects exactly when the whole does. */
  method CheckTransaction(tx: Transaction) returns (ok: bool)
    ensures ok == WellFormed(tx)
    ensures ok <==> && 1 <= |tx.vin| <= 10_000 && 1 <= |tx.vout| <= 10_000
                    && |Prevouts(tx.vin)| == |tx.vin|
                    && (forall o <- tx.vout :: 0 <= o.value <= 2_100_000_000_000_000)
                    && SumOut(tx.vout) <= 2_100_000_000_000_000
                    && (if tx.IsCoinBase() then 2 <= |tx.vin[0].scriptSig| <= 100
                        else forall i <- tx.vin :: i.prevout.hash != 0)
  {
    hide SumOut, Prevouts;
    DistinctIff(tx.vin);
    if |tx.vin| == 0 || |tx.vout| == 0 { return false; }
    if |tx.vin| > MAX_TX_COUNT_PER_BLOCK || |tx.vout| > MAX_TX_COUNT_PER_BLOCK { return false; }
    for i := 0 to |tx.vin|
      invariant forall a, b :: 0 <= a < i && a < b < |tx.vin| ==> tx.vin[a].prevout != tx.vin[b].prevout
    {
      for j := i + 1 to |tx.vin|
        invariant forall b :: i < b < j ==> tx.vin[i].prevout != tx.vin[b].prevout
      {
        if tx.vin[i].prevout == tx.vin[j].prevout { return false; }
      }
    }
    var totalOut: int64 := 0;
    assert SumOut(tx.vout[..0]) == 0 by { SumOutNone(); }
    for i := 0 to |tx.vout|
      invariant OutputsInRange(tx.vout[..i])
      invariant 0 <= totalOut == SumOut(tx.vout[..i]) <= MAX_MONEY
    {
      assert tx.vout[..i + 1] == tx.vout[..i] + [tx.vout[i]];
      SumOutSnoc(tx.vout[..i], tx.vout[i]);
      if tx.vout[i].value < 0 || tx.vout[i].value > MAX_MONEY { return false; }
      totalOut := totalOut + tx.vout[i].value;
      if totalOut > MAX_MONEY {
        if OutputsInRange(tx.vout) {
          SumOutMonotone(tx.vout, i + 1);
        }
        return false;
      }
    }
    assert tx.vout[..|tx.vout|] == tx.vout;
    if tx.IsCoinBase() {
      return 2 <= |tx.vin[0].scriptSig| <= 100;
    }
    for i := 0 to |tx.vin|
      invariant forall k :: 0 <= k < i ==> tx.vin[k].prevout.hash != 0
    {
      if tx.vin[i].prevout.hash == 0 { return false; }
    }
    return true;
  }

  lemma SumOutNone()
    ensures SumOut([]) == 0
  {
  }

  /** No input is repeated if and only if there are as many outpoints as inputs. */
  lemma {:induction false} DistinctIff(vin: seq<TxIn>)
    ensures |Prevouts(vin)| <= |vin| && (DistinctInputs(vin) <==> |Prevouts(vin)| == |vin|)
  {
    if vin == [] {
      assert Prevouts(vin) == {};
    } else {
      hide Prevouts, DistinctInputs;
      var init, last := vin[..|vin| - 1], vin[|vin| - 1];
      assert vin == init + [last];
      DistinctIff(init);
      PrevoutsSnoc(init, last);
      DistinctSnoc(init, last);
      if last.prevout in Prevouts(init) {
        assert Prevouts(init) + {last.prevout} == Prevouts(init);
      }
    }
  }

  lemma DistinctSnoc(vin: seq<TxIn>, x: TxIn)
    ensures DistinctInputs(vin + [x]) <==> DistinctInputs(vin) && x.prevout !in Prevouts(vin)
  {
    hide Prevouts;
    var all := vin + [x];
    assert all[|vin|] == x && forall i :: 0 <= i < |vin| ==> all[i] == vin[i];
  }

  // ------------------------------------------------------------ inputs

  function Blanked(vin: seq<TxIn>, i: nat, script: seq<byte>): (r: seq<TxIn>)
    ensures |r| == |vin|
  {
    seq(|vin|, k requires 0 <= k < |vin| =>
      TxIn(vin[k].prevout, if k == i then script else [], vin[k].sequence))
  }

  /** The digest an input signs: the transaction with all signature scripts blanked and
      this input's replaced by the script it spends, followed by the hash type. */
  function SignatureHash(c: Crypto, tx: Transaction, i: nat, script: seq<byte>): Hash {
    c.sha256d(SerTx(tx.(vin := Blanked(tx.vin, i, script))) + [1, 0, 0, 0])
  }

  /** SignatureHash on a copy of the transaction: every signature script cleared, then this
      input's set. */
  method ComputeSignatureHash(c: Crypto, tx: Transaction, i: nat, script: seq<byte>) returns (h: Hash)
    requires i < |tx.vin|
    ensures h == SignatureHash(c, tx, i, script)
  {
    hide SerTx;
    var vin := tx.vin;
    for k := 0 to |vin|
      invariant |vin| == |tx.vin|
      invariant forall j :: 0 <= j < |vin| ==>
                  vin[j] == if j < k then tx.vin[j].(scriptSig := []) else tx.vin[j]
    {
      vin := vin[k := vin[k].(scriptSig := [])];
    }
    vin := vin[i := vin[i].(scriptSig := script)];
    assert vin == Blanked(tx.vin, i, script);
    h := c.sha256d(SerTx(tx.(vin := vin)) + [1, 0, 0, 0]);
  }

  /** Two transactions alike in everything but their signature scripts. */
  predicate SameButScripts(t: Transaction, u: Transaction) {
    && t.version == u.version && t.vout == u.vout && t.lockTime == u.lockTime && |t.vin| == |u.vin|
    && forall k :: 0 <= k < |t.vin| ==> t.vin[k].prevout == u.vin[k].prevout && t.vin[k].sequence == u.vin[k].sequence
  }

  /** What is signed: the bytes of the transaction that differs from this one only in its
      signature scripts, the spent script here and nothing elsewhere, and the hash type. */
  lemma SignedBytes(c: Crypto, tx: Transaction, i: nat, script: seq<byte>) returns (w: Transaction)
    requires i < |tx.vin|
    ensures SameButScripts(tx, w) && w.vin[i].scriptSig == script
    ensures forall k :: 0 <= k < |w.vin| && k != i ==> w.vin[k].scriptSig == []
    ensures SignatureHash(c, tx, i, script) == c.sha256d(SerTx(w) + [1, 0, 0, 0])
    ensures TxFits(tx) && |script| < TWO_64 ==> TxFits(w)
  {
    hide SerTx;
    w := tx.(vin := Blanked(tx.vin, i, script));
    if TxFits(tx) && |script| < TWO_64 {
      forall x | x in w.vin ensures InFits(x) {
        var k :| 0 <= k < |w.vin| && w.vin[k] == x;
        assert tx.vin[k] in tx.vin;
      }
    }
  }

  /** A signature covers everything: two inputs with one digest are the same input, spending
      the same script, of transactions that agree on version, lock time, outputs, prevouts
      and sequences; or here is a collision. With an empty script the position is not
      covered. */
  lemma SignatureBinding(c: Crypto, t: Transaction, i: nat, s: seq<byte>, u: Transaction, j: nat, r: seq<byte>)
    returns (x: seq<byte>, y: seq<byte>)
    requires i < |t.vin| && j < |u.vin| && TxFits(t) && TxFits(u) && |s| < TWO_64 && |r| < TWO_64
    requires SignatureHash(c, t, i, s) == SignatureHash(c, u, j, r)
    ensures (SameButScripts(t, u) && s == r && (s != [] ==> i == j)) || Merkle.Collision(c, x, y)
  {
    hide SerTx, TxFits, SignatureHash;
    var w := SignedBytes(c, t, i, s);
    var v := SignedBytes(c, u, j, r);
    x, y := SerTx(w) + [1, 0, 0, 0], SerTx(v) + [1, 0, 0, 0];
    if x == y {
      assert x[..|x| - 4] == SerTx(w) && y[..|y| - 4] == SerTx(v);
      SerTxInjective(w, v);
    }
  }

  /** The one thing left open: with an empty script every input of a transaction signs the
      same digest. */
  lemma EmptyScriptsShareDigest(c: Crypto, tx: Transaction, i: nat, j: nat)
    requires i < |tx.vin| && j < |tx.vin|
    ensures SignatureHash(c, tx, i, []) == SignatureHash(c, tx, j, [])
  {
    hide SerTx;
    assert Blanked(tx.vin, i, []) == Blanked(tx.vin, j, []);
  }

  predicate InputOk(c: Crypto, tx: Transaction, view: View, height: nat, i: nat)
    requires i < |tx.vin|
  {
    tx.vin[i].prevout in view
    && (var coin := view[tx.vin[i].prevout];
        coin.IsSpendable(height)
        && c.verifyScript(tx.vin[i].scriptSig, coin.scriptPubKey, SignatureHash(c, tx, i, coin.scriptPubKey)))
  }

  function Prevouts(vin: seq<TxIn>): (s: set<OutPoint>)
    ensures forall i :: 0 <= i < |vin| ==> vin[i].prevout in s
    ensures forall o :: o in s ==> exists i :: 0 <= i < |vin| && vin[i].prevout == o
  {
    set i | 0 <= i < |vin| :: vin[i].prevout
  }

  function ValueAt(view: View, o: OutPoint): int {
    if o in view then view[o].value else 0
  }

  function InSum(view: View, vin: seq<TxIn>): int {
    if vin == [] then 0
    else InSum(view, vin[..|vin| - 1]) + ValueAt(view, vin[|vin| - 1].prevout)
  }

  predicate Present(view: View, vin: seq<TxIn>) {
    forall i :: 0 <= i < |vin| ==> vin[i].prevout in view
  }

  /** What CheckTxInputs accepts: every input is an existing, mature, correctly signed
      coin, and they cover the outputs without exceeding the money range. */
  predicate InputsOk(c: Crypto, tx: Transaction, view: View, height: nat) {
    && !tx.IsCoinBase()
    && Present(view, tx.vin)
    && (forall i :: 0 <= i < |tx.vin| ==> InputOk(c, tx, view, height, i))
    && SumOut(tx.vout) <= InSum(view, tx.vin) <= MAX_MONEY
  }

  /** A coinbase coin of height h is spent at height h + 120 at the earliest. */
  lemma CoinbaseMatures(c: Crypto, tx: Transaction, view: View, height: nat, i: nat)
    requires InputsOk(c, tx, view, height) && i < |tx.vin|
    ensures tx.vin[i].prevout in view
    ensures var coin := view[tx.vin[i].prevout]; coin.isCoinbase ==> height >= coin.height + 120
    ensures forall coin: Coin, h: int :: coin.IsSpendable(h) <==> !coin.isCoinbase || h >= coin.height + 120
  {
    hide SignatureHash, InSum, SumOut;
    assert InputOk(c, tx, view, height, i);
  }

  function Fee(view: View, tx: Transaction): int {
    InSum(view, tx.vin) - SumOut(tx.vout)
  }

  predicate SaneView(view: View) {
    forall o :: o in view ==> ValueInRange(view[o].value)
  }

  lemma InSumSnoc(view: View, xs: seq<TxIn>, x: TxIn)
    ensures InSum(view, xs + [x]) == InSum(view, xs) + ValueAt(view, x.prevout)
  {
    assert (xs + [x])[..|xs|] == xs;
  }

  lemma {:induction false} InSumMonotone(view: View, vin: seq<TxIn>, k: nat)
    requires k <= |vin| && SaneView(view)
    ensures 0 <= InSum(view, vin[..k]) <= InSum(view, vin)
  {
    if k == |vin| {
      assert vin[..k] == vin;
      if k > 0 {
        InSumMonotone(view, vin[..k - 1], k - 1);
      }
    } else {
      var init := vin[..|vin| - 1];
      assert init[..k] == vin[..k];
      InSumMonotone(view, init, k);
    }
  }

  /** Callers run CheckTransaction first; the coins of the view are in the money range.
      No 64-bit sum overflows. */
  method CheckTxInputs(c: Crypto, tx: Transaction, view: View, height: nat) returns (ok: bool, fee: int64)
    requires WellFormed(tx) && SaneView(view)
    ensures ok == InputsOk(c, tx, view, height)
    ensures ok ==> fee == Fee(view, tx)
  {
    hide SumOut, InSum, SignatureHash, DistinctInputs;
    fee := 0;
    if tx.IsCoinBase() { return false, 0; }
    var inSum: int64, outSum: int64 := 0, 0;
    assert InSum(view, tx.vin[..0]) == 0 by { InSumNone(view); }
    for i := 0 to |tx.vin|
      invariant Present(view, tx.vin[..i])
      invariant forall k :: 0 <= k < i ==> InputOk(c, tx, view, height, k)
      invariant 0 <= inSum == InSum(view, tx.vin[..i]) <= MAX_MONEY
    {
      if tx.vin[i].prevout !in view { return false, 0; }
      var coin := view[tx.vin[i].prevout];
      var sh := ComputeSignatureHash(c, tx, i, coin.scriptPubKey);
      if !coin.IsSpendable(height) || !c.verifyScript(tx.vin[i].scriptSig, coin.scriptPubKey, sh) {
        assert !InputOk(c, tx, view, height, i);
        return false, 0;
      }
      assert tx.vin[..i + 1] == tx.vin[..i] + [tx.vin[i]];
      InSumSnoc(view, tx.vin[..i], tx.vin[i]);
      assert ValueInRange(coin.value);
      inSum := inSum + coin.value;
      if inSum > MAX_MONEY {
        InSumMonotone(view, tx.vin, i + 1);
        return false, 0;
      }
    }
    assert tx.vin[..|tx.vin|] == tx.vin;
    assert SumOut(tx.vout[..0]) == 0 by { SumOutNone(); }
    for i := 0 to |tx.vout|
      invariant 0 <= outSum == SumOut(tx.vout[..i]) <= MAX_MONEY
    {
      assert tx.vout[..i + 1] == tx.vout[..i] + [tx.vout[i]];
      SumOutSnoc(tx.vout[..i], tx.vout[i]);
      SumOutMonotone(tx.vout, i + 1);
      outSum := outSum + tx.vout[i].value;
    }
    assert tx.vout[..|tx.vout|] == tx.vout;
    if inSum < outSum { return false, 0; }
    return true, inSum - outSum;
  }

  lemma InSumNone(view: View)
    ensures InSum(view, []) == 0
  {
  }

  // ------------------------------------------------------------ the transition

  /** The outputs 0..k-1 of a transaction added as coins, overwriting. */
  function AddOutputs(view: View, txid: Hash, vout: seq<TxOut>, height: nat, k: nat): View
    requires k <= |vout| <= MAX_TX_COUNT_PER_BLOCK
  {
    if k == 0 then view
    else AddOutputs(view, txid, vout, height, k - 1)
         [OutPoint(txid, k - 1) := Coin(vout[k - 1].value, vout[k - 1].scriptPubKey, height, false)]
  }

  function ApplyTx(c: Crypto, view: View, tx: Transaction, height: nat): View
    requires |tx.vout| <= MAX_TX_COUNT_PER_BLOCK
  {
    AddOutputs(view - Prevouts(tx.vin), TxId(c, tx), tx.vout, height, |tx.vout|)
  }

  /** Every output of a transaction is in the view after it. */
  lemma {:induction false} OutputThere(view: View, txid: Hash, vout: seq<TxOut>, height: nat, k: nat, n: uint32)
    requires n < k <= |vout| <= MAX_TX_COUNT_PER_BLOCK
    ensures var after, o := AddOutputs(view, txid, vout, height, k), OutPoint(txid, n);
            o in after && after[o] == Coin(vout[n].value, vout[n].scriptPubKey, height, false)
  {
    if n < k - 1 {
      OutputThere(view, txid, vout, height, k - 1, n);
    }
  }

  /** Coin by coin: after a transaction its own outputs are there, with the height of the
      block, what it spent is gone, and everything else is as it was. */
  lemma CoinAfter(c: Crypto, view: View, tx: Transaction, height: nat, o: OutPoint)
    requires |tx.vout| <= MAX_TX_COUNT_PER_BLOCK
    ensures var after := ApplyTx(c, view, tx, height);
            if o.hash == TxId(c, tx) && o.n < |tx.vout|
            then o in after && after[o] == Coin(tx.vout[o.n].value, tx.vout[o.n].scriptPubKey, height, false)
            else if exists i :: 0 <= i < |tx.vin| && tx.vin[i].prevout == o then o !in after
            else (o in after <==> o in view) && (o in view ==> after[o] == view[o])
  {
    hide TxId, AddOutputs;
    var spent := view - Prevouts(tx.vin);
    if o.hash == TxId(c, tx) && o.n < |tx.vout| {
      OutputThere(spent, TxId(c, tx), tx.vout, height, |tx.vout|, o.n);
    } else {
      AddOutputsFrame(spent, TxId(c, tx), tx.vout, height, |tx.vout|, o);
    }
  }

  datatype Connected = Connected(view: View, fees: int)

  /** Non-coinbase transactions in order, each against the view the previous ones left. */
  function ConnectTxs(c: Crypto, txs: seq<Transaction>, height: nat, view: View): Option<Connected> {
    if txs == [] then Some(Connected(view, 0))
    else
      var tx := txs[|txs| - 1];
      match ConnectTxs(c, txs[..|txs| - 1], height, view)
      case None => None
      case Some(Connected(v, fees)) =>
        if WellFormed(tx) && InputsOk(c, tx, v, height)
        then Some(Connected(ApplyTx(c, v, tx, height), fees + Fee(v, tx))) else None
  }

  predicate StructureOk(c: Crypto, blk: Block) {
    && |blk.vtx| > 0
    && blk.vtx[0].IsCoinBase()
    && (forall i :: 1 <= i < |blk.vtx| ==> !blk.vtx[i].IsCoinBase())
    && |blk.vtx| <= MAX_TX_COUNT_PER_BLOCK
    && Merkle.MerkleRootMatches(c, blk)
  }

  /** The coinbase: one coin under output 0 holding the sum of all its outputs. */
  function CoinbaseCoin(cb: Transaction, height: nat): Coin
    requires WellFormed(cb)
  {
    SumOutMonotone(cb.vout, 0);
    Coin(SumOut(cb.vout), cb.vout[0].scriptPubKey, height, true)
  }

  predicate CoinbaseOk(cb: Transaction, height: nat, fees: int) {
    WellFormed(cb) && Rewards.CoinbaseValueValid(SumOut(cb.vout), Rewards.Subsidy(height), fees)
  }

  /** CheckBlock: the view after the block and the fees, or rejection. */
  function ConnectBlock(c: Crypto, blk: Block, height: nat, view: View): Option<Connected> {
    if !StructureOk(c, blk) then None
    else
      match ConnectTxs(c, blk.vtx[1..], height, view)
      case None => None
      case Some(Connected(v, fees)) =>
        var cb := blk.vtx[0];
        if CoinbaseOk(cb, height, fees)
        then Some(Connected(v[OutPoint(TxId(c, cb), 0) := CoinbaseCoin(cb, height)], fees)) else None
  }

  /** The view the first i transactions after the coinbase leave, while they connect. */
  function ViewAt(c: Crypto, blk: Block, height: nat, view: View, i: nat): Option<View>
    requires 0 < |blk.vtx| && i < |blk.vtx|
  {
    match ConnectTxs(c, blk.vtx[1..i + 1], height, view)
    case None => None
    case Some(r) => Some(r.view)
  }

  /** The rules of a block, one by one. */
  ghost predicate BlockRules(c: Crypto, blk: Block, height: nat, view: View) {
    && 0 < |blk.vtx| <= 10_000
    && blk.header.merkleRoot == Merkle.Tree(c, Merkle.TxIds(c, blk.vtx), Merkle.Depth(|blk.vtx|))
    && (forall i :: 0 <= i < |blk.vtx| ==> WellFormed(blk.vtx[i]) && (blk.vtx[i].IsCoinBase() <==> i == 0))
    && (forall i :: 0 < i < |blk.vtx| ==> SpendsAt(c, blk, height, view, i))
    && (var r := ConnectTxs(c, blk.vtx[1..], height, view);
        r.Some? && SumOut(blk.vtx[0].vout) <= Rewards.Subsidy(height) + r.value.fees)
  }

  /** Transaction i spends valid coins of the view its predecessors left. */
  ghost predicate SpendsAt(c: Crypto, blk: Block, height: nat, view: View, i: nat)
    requires 0 < i < |blk.vtx|
  {
    var v := ViewAt(c, blk, height, view, i - 1);
    v.Some? && InputsOk(c, blk.vtx[i], v.value, height)
  }

  /** Transaction i is well formed and spends valid coins of the view the earlier ones left. */
  predicate ConnectsAt(c: Crypto, txs: seq<Transaction>, height: nat, view: View, i: nat)
    requires i < |txs|
  {
    var before := ConnectTxs(c, txs[..i], height, view);
    WellFormed(txs[i]) && before.Some? && InputsOk(c, txs[i], before.value.view, height)
  }

  lemma {:induction false} ConnectTxsIff(c: Crypto, txs: seq<Transaction>, height: nat, view: View)
    ensures ConnectTxs(c, txs, height, view).Some? <==> forall i :: 0 <= i < |txs| ==> ConnectsAt(c, txs, height, view, i)
  {
    hide ConnectsAt;
    if txs != [] {
      var init := txs[..|txs| - 1];
      ConnectTxsIff(c, init, height, view);
      forall i | 0 <= i < |init| ensures ConnectsAt(c, txs, height, view, i) <==> ConnectsAt(c, init, height, view, i) {
        SameBefore(c, txs, height, view, i);
      }
      ConnectLast(c, txs, height, view);
    }
  }

  lemma SameBefore(c: Crypto, txs: seq<Transaction>, height: nat, view: View, i: nat)
    requires i < |txs| - 1
    ensures ConnectsAt(c, txs, height, view, i) <==> ConnectsAt(c, txs[..|txs| - 1], height, view, i)
  {
    hide WellFormed, InputsOk, ConnectTxs;
    assert txs[..|txs| - 1][..i] == txs[..i];
  }

  lemma ConnectLast(c: Crypto, txs: seq<Transaction>, height: nat, view: View)
    requires txs != []
    ensures ConnectTxs(c, txs, height, view).Some? <==> ConnectsAt(c, txs, height, view, |txs| - 1)
    ensures ConnectsAt(c, txs, height, view, |txs| - 1) ==> ConnectTxs(c, txs[..|txs| - 1], height, view).Some?
  {
    hide WellFormed, InputsOk, ApplyTx, Fee;
  }

  /** A block connects if and only if it keeps every rule. */
  lemma ConnectBlockIff(c: Crypto, blk: Block, height: nat, view: View)
    ensures ConnectBlock(c, blk, height, view).Some? <==> BlockRules(c, blk, height, view)
  {
    hide WellFormed, InputsOk, ConnectTxs, Merkle.Tree, Merkle.Root, TxId, SumOut, Rewards.Subsidy;
    if |blk.vtx| > 0 {
      var rest := blk.vtx[1..];
      Merkle.RootIsTree(c, Merkle.TxIds(c, blk.vtx));
      ConnectTxsIff(c, rest, height, view);
      forall i | 0 <= i < |rest|
        ensures ConnectsAt(c, rest, height, view, i) <==> WellFormed(blk.vtx[i + 1]) && SpendsAt(c, blk, height, view, i + 1)
      {
        assert rest[i] == blk.vtx[i + 1] && rest[..i] == blk.vtx[1..i + 1];
      }
      hide ConnectsAt, SpendsAt;
      if BlockRules(c, blk, height, view) {
        assert WellFormed(blk.vtx[0]);
      }
      if ConnectBlock(c, blk, height, view).Some? {
        forall i | 0 < i < |blk.vtx|
          ensures WellFormed(blk.vtx[i]) && SpendsAt(c, blk, height, view, i)
        {
          assert ConnectsAt(c, rest, height, view, i - 1);
        }
      }
    }
  }

  /** Its coinbase becomes one coin under its first output: the sum of its outputs, for the
      first script, and locked for 120 blocks. */
  lemma CoinbaseCoinAfter(c: Crypto, blk: Block, height: nat, view: View, tx: Transaction, later: nat)
    requires ConnectBlock(c, blk, height, view).Some?
    ensures |blk.vtx| > 0 && |blk.vtx[0].vout| > 0
    ensures var after, o, cb := ConnectBlock(c, blk, height, view).value.view, OutPoint(TxId(c, blk.vtx[0]), 0), blk.vtx[0];
            && o in after && after[o].value == SumOut(cb.vout) && after[o].scriptPubKey == cb.vout[0].scriptPubKey
            && after[o].height == height && after[o].isCoinbase
            && (o in Prevouts(tx.vin) && later < height + 120 ==> !InputsOk(c, tx, after, later))
  {
    hide ConnectTxs, TxId, SumOut, InSum, SignatureHash, Merkle.MerkleRoot, Rewards.Subsidy;
    var after, o := ConnectBlock(c, blk, height, view).value.view, OutPoint(TxId(c, blk.vtx[0]), 0);
    if o in Prevouts(tx.vin) && later < height + 120 {
      var i :| 0 <= i < |tx.vin| && tx.vin[i].prevout == o;
      assert !InputOk(c, tx, after, later, i);
    }
  }

  // ------------------------------------------------------------ total value

  /** The sum of all coins; TotalValue in the source. */
  ghost function Total(view: View): int {
    if view == map[] then 0
    else var o :| o in view; view[o].value + Total(view - {o})
  }

  /** Any coin can be taken out first. */
  lemma {:induction false} TotalWithout(view: View, o: OutPoint)
    requires o in view
    ensures Total(view) == view[o].value + Total(view - {o})
    decreases |view|
  {
    var p :| p in view && Total(view) == view[p].value + Total(view - {p});
    if p != o {
      TotalWithout(view - {p}, o);
      TotalWithout(view - {o}, p);
      assert (view - {p}) - {o} == (view - {o}) - {p};
    }
  }

  lemma TotalSet(view: View, o: OutPoint, coin: Coin)
    ensures Total(view[o := coin]) == Total(view) - ValueAt(view, o) + coin.value
  {
    TotalWithout(view[o := coin], o);
    assert view[o := coin] - {o} == view - {o};
    if o in view {
      TotalWithout(view, o);
    } else {
      assert view - {o} == view;
    }
  }

  lemma {:induction false} TotalNonNegative(view: View)
    requires SaneView(view)
    ensures Total(view) >= 0
    decreases |view|
  {
    if view != map[] {
      var o :| o in view && Total(view) == view[o].value + Total(view - {o});
      TotalNonNegative(view - {o});
      assert ValueInRange(view[o].value);
    }
  }

  method TotalValue(view: View) returns (total: int64)
    requires SaneView(view) && Total(view) <= MAX_MONEY
    ensures total == Total(view)
  {
    total := 0;
    var rest := view;
    TotalNonNegative(rest);
    while rest != map[]
      invariant SaneView(rest)
      invariant 0 <= total && 0 <= Total(rest) && total + Total(rest) == Total(view)
      decreases |rest|
    {
      var o :| o in rest;
      TotalWithout(rest, o);
      TotalNonNegative(rest - {o});
      assert ValueInRange(rest[o].value);
      total := total + rest[o].value;
      rest := rest - {o};
    }
  }

  // ------------------------------------------------------------ conservation

  lemma PrevoutsSnoc(xs: seq<TxIn>, x: TxIn)
    ensures Prevouts(xs + [x]) == Prevouts(xs) + {x.prevout}
  {
    var ys := xs + [x];
    assert forall i :: 0 <= i < |xs| ==> ys[i] == xs[i];
    assert ys[|xs|] == x;
  }

  /** Spending distinct present coins removes exactly their values. */
  lemma {:induction false} SpendTotal(view: View, vin: seq<TxIn>)
    requires DistinctInputs(vin) && Present(view, vin)
    ensures Total(view - Prevouts(vin)) == Total(view) - InSum(view, vin)
  {
    hide Total;
    if vin == [] {
      assert view - Prevouts(vin) == view;
    } else {
      var init, last := vin[..|vin| - 1], vin[|vin| - 1];
      assert vin == init + [last];
      PrevoutsSnoc(init, last);
      SpendTotal(view, init);
      var before := view - Prevouts(init);
      assert last.prevout in before;
      TotalWithout(before, last.prevout);
      assert before - {last.prevout} == view - Prevouts(vin);
    }
  }

  /** The value of coins a transaction's outputs replace. */
  function Replaced(view: View, txid: Hash, k: nat): int
    requires k <= MAX_TX_COUNT_PER_BLOCK
  {
    if k == 0 then 0 else Replaced(view, txid, k - 1) + ValueAt(view, OutPoint(txid, k - 1))
  }

  lemma {:induction false} AddOutputsFrame(view: View, txid: Hash, vout: seq<TxOut>, height: nat, k: nat, o: OutPoint)
    requires k <= |vout| <= MAX_TX_COUNT_PER_BLOCK && (o.hash != txid || o.n >= k)
    ensures o in AddOutputs(view, txid, vout, height, k) <==> o in view
    ensures o in view ==> AddOutputs(view, txid, vout, height, k)[o] == view[o]
  {
    if k != 0 {
      AddOutputsFrame(view, txid, vout, height, k - 1, o);
    }
  }

  lemma {:induction false} AddOutputsTotal(view: View, txid: Hash, vout: seq<TxOut>, height: nat, k: nat)
    requires k <= |vout| <= MAX_TX_COUNT_PER_BLOCK
    ensures Total(AddOutputs(view, txid, vout, height, k)) + Replaced(view, txid, k)
         == Total(view) + SumOut(vout[..k])
  {
    hide Total;
    if k != 0 {
      AddOutputsTotal(view, txid, vout, height, k - 1);
      AddOutputsFrame(view, txid, vout, height, k - 1, OutPoint(txid, k - 1));
      TotalSet(AddOutputs(view, txid, vout, height, k - 1), OutPoint(txid, k - 1),
               Coin(vout[k - 1].value, vout[k - 1].scriptPubKey, height, false));
      assert vout[..k] == vout[..k - 1] + [vout[k - 1]];
      SumOutSnoc(vout[..k - 1], vout[k - 1]);
    }
  }

  /** What a transaction overwrites once its inputs are spent. */
  function TxReplaced(c: Crypto, view: View, tx: Transaction): int
    requires |tx.vout| <= MAX_TX_COUNT_PER_BLOCK
  {
    Replaced(view - Prevouts(tx.vin), TxId(c, tx), |tx.vout|)
  }

  /** One transaction: the total drops by the fee and by whatever was overwritten. */
  lemma TxConservation(c: Crypto, view: View, tx: Transaction, height: nat)
    requires WellFormed(tx) && InputsOk(c, tx, view, height)
    ensures Total(ApplyTx(c, view, tx, height)) + TxReplaced(c, view, tx) == Total(view) - Fee(view, tx)
  {
    hide Total, InputOk, TxId, SumOut;
    SpendTotal(view, tx.vin);
    AddOutputsTotal(view - Prevouts(tx.vin), TxId(c, tx), tx.vout, height, |tx.vout|);
    assert tx.vout[..|tx.vout|] == tx.vout;
  }

  lemma {:induction false} ReplacedNonNegative(view: View, txid: Hash, k: nat)
    requires k <= MAX_TX_COUNT_PER_BLOCK && SaneView(view)
    ensures Replaced(view, txid, k) >= 0
  {
    if k != 0 {
      ReplacedNonNegative(view, txid, k - 1);
    }
  }

  lemma {:induction false} AddOutputsSane(view: View, txid: Hash, vout: seq<TxOut>, height: nat, k: nat)
    requires k <= |vout| <= MAX_TX_COUNT_PER_BLOCK && OutputsInRange(vout) && SaneView(view)
    ensures SaneView(AddOutputs(view, txid, vout, height, k))
  {
    if k != 0 {
      AddOutputsSane(view, txid, vout, height, k - 1);
    }
  }

  lemma ApplyTxSane(c: Crypto, view: View, tx: Transaction, height: nat)
    requires WellFormed(tx) && SaneView(view)
    ensures SaneView(ApplyTx(c, view, tx, height))
  {
    hide TxId, SumOut;
    AddOutputsSane(view - Prevouts(tx.vin), TxId(c, tx), tx.vout, height, |tx.vout|);
  }

  /** What the transactions of a block overwrite, in order. */
  function TxsReplaced(c: Crypto, txs: seq<Transaction>, height: nat, view: View): int
    requires ConnectTxs(c, txs, height, view).Some?
  {
    if txs == [] then 0
    else
      var init, tx := txs[..|txs| - 1], txs[|txs| - 1];
      TxsReplaced(c, init, height, view) + TxReplaced(c, ConnectTxs(c, init, height, view).value.view, tx)
  }

  lemma {:induction false} TxsConservation(c: Crypto, txs: seq<Transaction>, height: nat, view: View)
    requires SaneView(view) && ConnectTxs(c, txs, height, view).Some?
    ensures var r := ConnectTxs(c, txs, height, view).value;
            SaneView(r.view) && r.fees >= 0 && TxsReplaced(c, txs, height, view) >= 0
            && Total(r.view) + TxsReplaced(c, txs, height, view) == Total(view) - r.fees
  {
    hide Total, WellFormed, InputsOk, ApplyTx, Fee, TxReplaced;
    if txs != [] {
      var init, tx := txs[..|txs| - 1], txs[|txs| - 1];
      TxsConservation(c, init, height, view);
      var v := ConnectTxs(c, init, height, view).value.view;
      TxConservation(c, v, tx, height);
      ApplyTxSane(c, v, tx, height);
      FeeAndReplacedNonNegative(c, v, tx, height);
    }
  }

  lemma FeeAndReplacedNonNegative(c: Crypto, view: View, tx: Transaction, height: nat)
    requires WellFormed(tx) && InputsOk(c, tx, view, height) && SaneView(view)
    ensures Fee(view, tx) >= 0 && TxReplaced(c, view, tx) >= 0
  {
    hide TxId, InputOk;
    ReplacedNonNegative(view - Prevouts(tx.vin), TxId(c, tx), |tx.vout|);
  }

  /** What a whole block overwrites: by its transactions, then by its coinbase. */
  function BlockReplaced(c: Crypto, blk: Block, height: nat, view: View): int
    requires ConnectBlock(c, blk, height, view).Some?
  {
    TxsReplaced(c, blk.vtx[1..], height, view)
    + ValueAt(ConnectTxs(c, blk.vtx[1..], height, view).value.view, OutPoint(TxId(c, blk.vtx[0]), 0))
  }

  /** Conservation of a block: the new total is the old one, plus what the coinbase
      claims, minus the fees, minus what was overwritten; nothing overwritten is
      negative; and the claim is at most subsidy plus fees. */
  lemma BlockConservation(c: Crypto, blk: Block, height: nat, view: View)
    requires SaneView(view) && ConnectBlock(c, blk, height, view).Some?
    ensures var r := ConnectBlock(c, blk, height, view).value;
            var claim := SumOut(blk.vtx[0].vout);
            SaneView(r.view) && 0 <= r.fees <= Total(view)
            && BlockReplaced(c, blk, height, view) >= 0
            && Total(r.view) + BlockReplaced(c, blk, height, view) == Total(view) + claim - r.fees
            && claim <= Rewards.Subsidy(height) + r.fees
  {
    hide Total, Merkle.MerkleRootMatches, ConnectTxs, TxsReplaced, TxId, Rewards.Subsidy;
    TxsConservation(c, blk.vtx[1..], height, view);
    var mid := ConnectTxs(c, blk.vtx[1..], height, view).value;
    var cb := blk.vtx[0];
    TotalSet(mid.view, OutPoint(TxId(c, cb), 0), CoinbaseCoin(cb, height));
    SumOutMonotone(cb.vout, 0);
    TotalNonNegative(mid.view);
  }

  /** The supply bound is inductive: a block never raises the total by more than its
      subsidy, and raises it by exactly that if and only if it overwrites no value and
      its coinbase claims everything it may. */
  lemma SupplyStep(c: Crypto, blk: Block, height: nat, view: View)
    requires SaneView(view) && Total(view) <= Rewards.SupplyBefore(height)
    requires ConnectBlock(c, blk, height, view).Some?
    ensures var r := ConnectBlock(c, blk, height, view).value;
            SaneView(r.view) && Total(r.view) <= Rewards.SupplyBefore(height + 1)
            && (Total(r.view) == Total(view) + Rewards.Subsidy(height)
                <==> BlockReplaced(c, blk, height, view) == 0
                     && SumOut(blk.vtx[0].vout) == Rewards.Subsidy(height) + r.fees)
  {
    hide Total, ConnectBlock, BlockReplaced, SumOut, Rewards.Subsidy;
    BlockConservation(c, blk, height, view);
  }

  // ------------------------------------------------------------ the loop form

  /** Pass 1 of CheckBlock: the non-coinbase transactions, fees accumulated. */
  method CheckTransactions(c: Crypto, txs: seq<Transaction>, height: nat, view: View) returns (r: Option<Connected>)
    requires SaneView(view) && Total(view) <= MAX_MONEY
    ensures r == ConnectTxs(c, txs, height, view)
  {
    hide Total, WellFormed, InputsOk, TxId, Fee, ApplyTx, SumOut, SaneView;
    var viewOut := view;
    var fees: int64 := 0;
    for i := 0 to |txs|
      invariant SaneView(viewOut)
      invariant ConnectTxs(c, txs[..i], height, view) == Some(Connected(viewOut, fees))
    {
      var tx := txs[i];
      assert txs[..i + 1][..i] == txs[..i];
      var ok := CheckTransaction(tx);
      if !ok { ConnectFails(c, txs, i + 1, height, view); return None; }
      var fee;
      ok, fee := CheckTxInputs(c, tx, viewOut, height);
      if !ok { ConnectFails(c, txs, i + 1, height, view); return None; }
      FeesBounded(c, txs[..i + 1], height, view);
      fees := fees + fee;
      viewOut := SpendAndAdd(c, tx, height, viewOut);
    }
    assert txs[..|txs|] == txs;
    r := Some(Connected(viewOut, fees));
  }

  lemma FeesBounded(c: Crypto, txs: seq<Transaction>, height: nat, view: View)
    requires SaneView(view) && ConnectTxs(c, txs, height, view).Some?
    ensures SaneView(ConnectTxs(c, txs, height, view).value.view)
    ensures 0 <= ConnectTxs(c, txs, height, view).value.fees <= Total(view)
  {
    hide Total, ConnectTxs, TxsReplaced;
    TxsConservation(c, txs, height, view);
    TotalNonNegative(ConnectTxs(c, txs, height, view).value.view);
  }

  /** CheckBlock. The fees stay within the money range, so no 64-bit sum overflows. */
  method CheckBlock(c: Crypto, blk: Block, height: nat, view: View) returns (r: Option<Connected>)
    requires SaneView(view) && Total(view) <= MAX_MONEY
    ensures r == ConnectBlock(c, blk, height, view)
  {
    hide Total, WellFormed, Merkle.MerkleRoot, TxId, Rewards.Subsidy, SumOut, ConnectTxs, SaneView;
    if |blk.vtx| == 0 || !blk.vtx[0].IsCoinBase() { return None; }
    for i := 1 to |blk.vtx|
      invariant forall k :: 1 <= k < i ==> !blk.vtx[k].IsCoinBase()
    {
      if blk.vtx[i].IsCoinBase() { return None; }
    }
    if |blk.vtx| > MAX_TX_COUNT_PER_BLOCK { return None; }
    var root := Merkle.ComputeMerkleRoot(c, Merkle.TxIds(c, blk.vtx));
    if root != blk.header.merkleRoot { return None; }
    var mid := CheckTransactions(c, blk.vtx[1..], height, view);
    if mid.None? { return None; }
    FeesBounded(c, blk.vtx[1..], height, view);
    var cb := blk.vtx[0];
    var ok := CheckTransaction(cb);
    if !ok { return None; }
    var cbValue := SumOutputs(cb);
    var limit: int64 := Rewards.Subsidy(height) + mid.value.fees;
    if cbValue > limit { return None; }
    r := Some(Connected(mid.value.view[OutPoint(TxId(c, cb), 0) := CoinbaseCoin(cb, height)], mid.value.fees));
  }

  lemma {:induction false} ConnectFails(c: Crypto, txs: seq<Transaction>, i: nat, height: nat, view: View)
    requires i <= |txs| && ConnectTxs(c, txs[..i], height, view).None?
    ensures ConnectTxs(c, txs, height, view).None?
  {
    hide WellFormed, InputsOk, ApplyTx, Fee;
    if i == |txs| {
      assert txs[..i] == txs;
    } else {
      var init := txs[..|txs| - 1];
      assert init[..i] == txs[..i];
      ConnectFails(c, init, i, height, view);
    }
  }

  method SumOutputs(tx: Transaction) returns (sum: int64)
    requires WellFormed(tx)
    ensures sum == SumOut(tx.vout)
  {
    hide SumOut, DistinctInputs;
    sum := 0;
    assert SumOut(tx.vout[..0]) == 0 by { SumOutNone(); }
    for i := 0 to |tx.vout|
      invariant 0 <= sum == SumOut(tx.vout[..i]) <= MAX_MONEY
    {
      assert tx.vout[..i + 1] == tx.vout[..i] + [tx.vout[i]];
      SumOutSnoc(tx.vout[..i], tx.vout[i]);
      SumOutMonotone(tx.vout, i + 1);
      sum := sum + tx.vout[i].value;
    }
    assert tx.vout[..|tx.vout|] == tx.vout;
  }

  /** The two inner loops of CheckBlock: spend every input, then add every output. The
      source's "double spend" error cannot occur: checked inputs are present and distinct. */
  method SpendAndAdd(c: Crypto, tx: Transaction, height: nat, view: View) returns (viewOut: View)
    requires WellFormed(tx) && InputsOk(c, tx, view, height)
    ensures viewOut == ApplyTx(c, view, tx, height)
  {
    hide TxId, InputOk, SumOut;
    viewOut := view;
    for i := 0 to |tx.vin|
      invariant viewOut == view - Prevouts(tx.vin[..i])
    {
      assert tx.vin[..i + 1] == tx.vin[..i] + [tx.vin[i]];
      PrevoutsSnoc(tx.vin[..i], tx.vin[i]);
      assert tx.vin[i].prevout in viewOut;
      viewOut := viewOut - {tx.vin[i].prevout};
    }
    assert tx.vin[..|tx.vin|] == tx.vin;
    var txid := TxId(c, tx);
    for j := 0 to |tx.vout|
      invariant viewOut == AddOutputs(view - Prevouts(tx.vin), txid, tx.vout, height, j)
    {
      viewOut := viewOut[OutPoint(txid, j) := Coin(tx.vout[j].value, tx.vout[j].scriptPubKey, height, false)];
    }
  }
}
