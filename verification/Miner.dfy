/** The miner: the block template built from the pool, the nonce search over the
    serialized header, and why the node accepts what it finds.
 */
module Miner {
  import opened Types
  import opened WireFormat
  import opened Ledger
  import opened Mempool
  import opened Bytes
  import opened Order
  import Arith
  import Chain
  import Compact
  import Framing
  import Merkle
  import Provenance
  import Rewards
  import Runs

  const TEMPLATE_LIMIT: nat := 500

  // ------------------------------------------------------------ pool order

  /** GetTxs: the pooled ids in key order, an order determined by the pool alone. */
  method GetTxs(pool: Pool) returns (ids: seq<Hash>)
    ensures Ascending(ids) && ids == Sorted(pool.txs.Keys) && forall id :: id in ids <==> id in pool.txs
    ensures forall other :: Ascending(other) && (forall id :: id in other <==> id in pool.txs) ==> other == ids
  {
    ids := SortKeys(pool.txs.Keys);
    forall other | Ascending(other) && forall id :: id in other <==> id in pool.txs
      ensures other == ids
    {
      AscendingUnique(other, ids);
    }
  }

  // ------------------------------------------------------------ selection

  predicate Pooled(pool: Pool, ids: seq<Hash>) {
    forall id <- ids :: id in pool.txs
  }

  /** The transactions taken, in order: those whose inputs hold against the unchanged
      view, until the limit is reached. */
  function Select(c: Crypto, pool: Pool, ids: seq<Hash>, view: View, height: nat): seq<Transaction>
    requires Pooled(pool, ids)
  {
    if ids == [] then []
    else
      var before, tx := Select(c, pool, ids[..|ids| - 1], view, height), pool.txs[ids[|ids| - 1]].tx;
      if |before| < TEMPLATE_LIMIT && InputsOk(c, tx, view, height) then before + [tx] else before
  }

  /** The pooled transactions that are valid against the view. */
  function Spendable(c: Crypto, pool: Pool, view: View, height: nat): set<Hash> {
    set id | id in pool.txs && InputsOk(c, pool.txs[id].tx, view, height)
  }

  function Below(s: set<Hash>, id: Hash): set<Hash> {
    set x | x in s && x < id
  }

  /** In ascending order of ids, exactly the valid pooled transactions that have fewer than
      500 valid ones before them. */
  ghost predicate TakesFirst(c: Crypto, pool: Pool, view: View, height: nat, txs: seq<Transaction>) {
    var ids, valid := Merkle.TxIds(c, txs), Spendable(c, pool, view, height);
    && Ascending(ids)
    && (forall i :: 0 <= i < |txs| ==> ids[i] in pool.txs && pool.txs[ids[i]].tx == txs[i])
    && (forall id :: id in ids <==> id in valid && |Below(valid, id)| < 500)
  }

  /** The same for a prefix of the ids. */
  ghost predicate TakesFrom(c: Crypto, pool: Pool, valid: set<Hash>, txs: seq<Transaction>) {
    var ids := Merkle.TxIds(c, txs);
    && Ascending(ids)
    && (forall i :: 0 <= i < |txs| ==> ids[i] in pool.txs && pool.txs[ids[i]].tx == txs[i])
    && (forall id :: id in ids <==> id in valid && |Below(valid, id)| < 500)
    && |txs| == if |valid| < 500 then |valid| else 500
  }

  function ValidIn(c: Crypto, pool: Pool, ids: seq<Hash>, view: View, height: nat): set<Hash>
    requires Pooled(pool, ids)
  {
    set id | id in ids && InputsOk(c, pool.txs[id].tx, view, height)
  }

  lemma {:induction false} SelectTakes(c: Crypto, pool: Pool, ids: seq<Hash>, view: View, height: nat)
    requires Agrees(c, pool) && Pooled(pool, ids) && Ascending(ids)
    ensures TakesFrom(c, pool, ValidIn(c, pool, ids, view, height), Select(c, pool, ids, view, height))
  {
    hide InputsOk, Agrees, TxId, WellFormed, TakesFrom, Ascending;
    if ids == [] {
      assert ValidIn(c, pool, ids, view, height) == {};
      TakesNothing(c, pool);
    } else {
      var init, id := ids[..|ids| - 1], ids[|ids| - 1];
      assert ids == init + [id];
      AscendingSnoc(init, id);
      SelectTakes(c, pool, init, view, height);
      EntryFacts(c, pool, id);
      var before, valid := Select(c, pool, init, view, height), ValidIn(c, pool, init, view, height);
      if InputsOk(c, pool.txs[id].tx, view, height) {
        assert ValidIn(c, pool, ids, view, height) == valid + {id};
        TakesOne(c, pool, valid, before, id);
      } else {
        assert ValidIn(c, pool, ids, view, height) == valid;
      }
    }
  }

  lemma TakesNothing(c: Crypto, pool: Pool)
    ensures TakesFrom(c, pool, {}, [])
  {
    assert Merkle.TxIds(c, []) == [];
  }

  lemma TakesOne(c: Crypto, pool: Pool, valid: set<Hash>, before: seq<Transaction>, id: Hash)
    requires TakesFrom(c, pool, valid, before) && id in pool.txs && TxId(c, pool.txs[id].tx) == id
    requires forall x :: x in valid ==> x < id
    ensures TakesFrom(c, pool, valid + {id}, if |before| < 500 then before + [pool.txs[id].tx] else before)
  {
    hide TxId, Ascending;
    var tx, more := pool.txs[id].tx, valid + {id};
    var ids := Merkle.TxIds(c, before);
    assert Below(more, id) == valid;
    forall x | x in valid ensures Below(more, x) == Below(valid, x) {
    }
    if |before| < 500 {
      assert Merkle.TxIds(c, before + [tx]) == ids + [id];
      AscendingSnoc(ids, id);
    }
  }

  lemma SelectTakesFirst(c: Crypto, pool: Pool, view: View, height: nat)
    requires Agrees(c, pool)
    ensures Pooled(pool, Sorted(pool.txs.Keys))
    ensures TakesFirst(c, pool, view, height, Select(c, pool, Sorted(pool.txs.Keys), view, height))
  {
    hide InputsOk, Agrees, TxId, Ascending, Select, Sorted;
    var ids := Sorted(pool.txs.Keys);
    SelectTakes(c, pool, ids, view, height);
    assert ValidIn(c, pool, ids, view, height) == Spendable(c, pool, view, height);
  }

  function FeeSum(view: View, txs: seq<Transaction>): int {
    if txs == [] then 0 else FeeSum(view, txs[..|txs| - 1]) + Fee(view, txs[|txs| - 1])
  }

  /** Where a pooled transaction spends a coin of the view that another pooled transaction
      would replace, the coin is that other transaction's own output. */
  ghost predicate Traced(pool: Pool, view: View) {
    forall a, b, o :: a in pool.txs && b in pool.txs && o in Prevouts(pool.txs[b].tx.vin) && o in view
      ==> !Creates(a, pool.txs[a].tx, o) || Provenance.Echoes(pool.txs[a].tx, o, view[o])
  }

  predicate Creates(id: Hash, tx: Transaction, o: OutPoint) {
    o.hash == id && o.n < |tx.vout|
  }

  /** Two coins are spent alike: they are equal, or ordinary ones with equal value and script. */
  predicate Alike(a: Coin, b: Coin) {
    a == b || (!a.isCoinbase && !b.isCoinbase && a.value == b.value && a.scriptPubKey == b.scriptPubKey)
  }

  /** Two views agree on an outpoint, up to the height of an ordinary coin. */
  predicate Same(v: View, w: View, o: OutPoint) {
    (o in v <==> o in w) && (o in v ==> Alike(v[o], w[o]))
  }

  predicate SameInputs(v: View, w: View, vin: seq<TxIn>) {
    forall i :: 0 <= i < |vin| ==> Same(v, w, vin[i].prevout)
  }

  lemma {:induction false} InSumSame(v: View, w: View, vin: seq<TxIn>)
    requires SameInputs(v, w, vin)
    ensures InSum(v, vin) == InSum(w, vin)
  {
    if vin != [] {
      assert Same(v, w, vin[|vin| - 1].prevout);
      InSumSame(v, w, vin[..|vin| - 1]);
    }
  }

  /** Input checks see nothing of the view but the inputs' own coins, and of ordinary coins
      not even the height. */
  lemma InputsSame(c: Crypto, tx: Transaction, v: View, w: View, height: nat)
    requires SameInputs(v, w, tx.vin) && InputsOk(c, tx, v, height)
    ensures InputsOk(c, tx, w, height) && Fee(v, tx) == Fee(w, tx)
  {
    hide SignatureHash, InSum, SumOut;
    InSumSame(v, w, tx.vin);
    forall i | 0 <= i < |tx.vin|
      ensures tx.vin[i].prevout in w && InputOk(c, tx, w, height, i)
    {
      assert Same(v, w, tx.vin[i].prevout) && InputOk(c, tx, v, height, i);
    }
  }

  /** A transaction leaves alone every outpoint it neither spends nor creates. */
  lemma ApplyFrame(c: Crypto, view: View, tx: Transaction, height: nat, o: OutPoint)
    requires |tx.vout| <= MAX_TX_COUNT_PER_BLOCK && o !in Prevouts(tx.vin) && !Creates(TxId(c, tx), tx, o)
    ensures Same(view, ApplyTx(c, view, tx, height), o)
  {
    hide TxId;
    AddOutputsFrame(view - Prevouts(tx.vin), TxId(c, tx), tx.vout, height, |tx.vout|, o);
  }

  /** A coin that is the transaction's own output is only written again. */
  lemma Rewritten(c: Crypto, view: View, tx: Transaction, height: nat, o: OutPoint)
    requires |tx.vout| <= MAX_TX_COUNT_PER_BLOCK && Creates(TxId(c, tx), tx, o)
    ensures var after := ApplyTx(c, view, tx, height);
            o in after && after[o] == Coin(tx.vout[o.n].value, tx.vout[o.n].scriptPubKey, height, false)
  {
    hide TxId, AddOutputs;
    OutputThere(view - Prevouts(tx.vin), TxId(c, tx), tx.vout, height, |tx.vout|, o.n);
  }

  /** The selected prefix connects, with the fees the miner adds up, and leaves the
      inputs of every later pooled transaction that is spendable as they were. */
  ghost predicate Connects(c: Crypto, pool: Pool, ids: seq<Hash>, view: View, height: nat)
    requires Pooled(pool, ids)
  {
    var txs := Select(c, pool, ids, view, height);
    && ConnectTxs(c, txs, height, view).Some?
    && ConnectTxs(c, txs, height, view).value.fees == FeeSum(view, txs)
    && forall b :: b in pool.txs && b !in ids && Present(view, pool.txs[b].tx.vin)
         ==> SameInputs(view, ConnectTxs(c, txs, height, view).value.view, pool.txs[b].tx.vin)
  }

  lemma {:induction false} SelectionConnects(c: Crypto, pool: Pool, ids: seq<Hash>, view: View, height: nat)
    requires Agrees(c, pool) && Pooled(pool, ids) && Ascending(ids) && Traced(pool, view)
    ensures Connects(c, pool, ids, view, height)
  {
    hide InputsOk, Connects, Agrees, Traced;
    if ids == [] {
      NothingConnects(c, pool, view, height);
    } else {
      var init, id := ids[..|ids| - 1], ids[|ids| - 1];
      SelectionConnects(c, pool, init, view, height);
      if |Select(c, pool, init, view, height)| < TEMPLATE_LIMIT && InputsOk(c, pool.txs[id].tx, view, height) {
        Take(c, pool, init, id, view, height);
        assert ids == init + [id];
      } else {
        Skip(c, pool, ids, view, height);
      }
    }
  }

  lemma NothingConnects(c: Crypto, pool: Pool, view: View, height: nat)
    ensures Connects(c, pool, [], view, height)
  {
  }

  lemma Skip(c: Crypto, pool: Pool, ids: seq<Hash>, view: View, height: nat)
    requires ids != [] && Pooled(pool, ids) && Connects(c, pool, ids[..|ids| - 1], view, height)
    requires Select(c, pool, ids, view, height) == Select(c, pool, ids[..|ids| - 1], view, height)
    ensures Connects(c, pool, ids, view, height)
  {
    hide ConnectTxs, Select, FeeSum;
  }

  lemma Take(c: Crypto, pool: Pool, init: seq<Hash>, id: Hash, view: View, height: nat)
    requires Agrees(c, pool) && Traced(pool, view) && id !in init
    requires id in pool.txs && Pooled(pool, init) && Pooled(pool, init + [id]) && Connects(c, pool, init, view, height)
    requires |Select(c, pool, init, view, height)| < TEMPLATE_LIMIT && InputsOk(c, pool.txs[id].tx, view, height)
    ensures Connects(c, pool, init + [id], view, height)
  {
    hide InputsOk, Fee, WellFormed, ApplyTx, TxId, Agrees, Traced, FeeSum, ConnectTxs, Present, SameInputs;
    var before, tx := Select(c, pool, init, view, height), pool.txs[id].tx;
    var v := ConnectTxs(c, before, height, view).value.view;
    assert (init + [id])[..|init|] == init;
    FeeSumSnoc(view, before, tx);
    PresentInputs(c, tx, view, height);
    InputsSame(c, tx, view, v, height);
    EntryFacts(c, pool, id);
    ConnectSnoc(c, before, tx, height, view);
    forall b | b in pool.txs && b !in init + [id] && Present(view, pool.txs[b].tx.vin)
      ensures SameInputs(view, ApplyTx(c, v, tx, height), pool.txs[b].tx.vin)
    {
      StepFrame(c, pool, id, b, view, v, height);
    }
  }

  lemma ConnectSnoc(c: Crypto, txs: seq<Transaction>, tx: Transaction, height: nat, view: View)
    requires ConnectTxs(c, txs, height, view).Some? && WellFormed(tx)
    requires InputsOk(c, tx, ConnectTxs(c, txs, height, view).value.view, height)
    ensures var r := ConnectTxs(c, txs, height, view).value;
            ConnectTxs(c, txs + [tx], height, view)
            == Some(Connected(ApplyTx(c, r.view, tx, height), r.fees + Fee(r.view, tx)))
  {
    hide InputsOk, Fee, ApplyTx, WellFormed;
    assert (txs + [tx])[..|txs|] == txs;
  }

  lemma FeeSumSnoc(view: View, txs: seq<Transaction>, tx: Transaction)
    ensures FeeSum(view, txs + [tx]) == FeeSum(view, txs) + Fee(view, tx)
  {
    assert (txs + [tx])[..|txs|] == txs;
  }

  lemma PresentInputs(c: Crypto, tx: Transaction, view: View, height: nat)
    requires InputsOk(c, tx, view, height)
    ensures Present(view, tx.vin)
  {
  }

  lemma EntryFacts(c: Crypto, pool: Pool, id: Hash)
    requires Agrees(c, pool) && id in pool.txs
    ensures TxId(c, pool.txs[id].tx) == id && WellFormed(pool.txs[id].tx) && !pool.txs[id].tx.IsCoinBase()
    ensures |pool.txs[id].tx.vout| <= MAX_TX_COUNT_PER_BLOCK
  {
    hide TxId;
    assert EntryAgrees(c, pool, id);
  }

  lemma StepFrame(c: Crypto, pool: Pool, a: Hash, b: Hash, view: View, v: View, height: nat)
    requires Agrees(c, pool) && Traced(pool, view) && a in pool.txs && b in pool.txs && a != b
    requires |pool.txs[a].tx.vout| <= MAX_TX_COUNT_PER_BLOCK
    requires var vin := pool.txs[b].tx.vin; Present(view, vin) && SameInputs(view, v, vin)
    ensures SameInputs(view, ApplyTx(c, v, pool.txs[a].tx, height), pool.txs[b].tx.vin)
  {
    hide ApplyTx, TxId, Agrees, WellFormed;
    var tx, vin := pool.txs[a].tx, pool.txs[b].tx.vin;
    PooledInputsDisjoint(c, pool, a, b);
    EntryFacts(c, pool, a);
    forall i | 0 <= i < |vin|
      ensures Same(view, ApplyTx(c, v, tx, height), vin[i].prevout)
    {
      var o := vin[i].prevout;
      assert Same(view, v, o) && o in Prevouts(vin) && o in view;
      if Creates(a, tx, o) {
        Rewritten(c, v, tx, height, o);
        assert Provenance.Echoes(tx, o, view[o]);
      } else {
        ApplyFrame(c, v, tx, height, o);
      }
    }
  }

  lemma {:induction false} SelectedCount(c: Crypto, pool: Pool, ids: seq<Hash>, view: View, height: nat)
    requires Pooled(pool, ids) && Agrees(c, pool)
    ensures var txs := Select(c, pool, ids, view, height);
            |txs| <= TEMPLATE_LIMIT && forall tx <- txs :: !tx.IsCoinBase()
  {
    hide InputsOk, Agrees;
    if ids != [] {
      SelectedCount(c, pool, ids[..|ids| - 1], view, height);
      EntryFacts(c, pool, ids[|ids| - 1]);
    }
  }

  // ------------------------------------------------------------ the coinbase

  /** Bytes of the height as a script number: enough to keep the sign bit clear. */
  function Width(h: nat): (n: nat)
    ensures n >= 1 && 2 * h < Pow256(n)
    ensures n > 1 ==> 2 * h >= Pow256(n - 1)
  {
    if h < 128 then
      assert Pow256(1) == 256; 1
    else
      var n := Width(h / 256);
      assert Pow256(1) == 256 && Pow256(n + 1) == 256 * Pow256(n);
      assert n > 1 ==> Pow256(n) == 256 * Pow256(n - 1);
      n + 1
  }

  function HeightPush(h: nat): seq<byte>
    requires Width(h) < 256
  {
    if h == 0 then [0] else [Width(h)] + LE(h, Width(h))
  }

  /** "CDX Miner". */
  const TAG: seq<byte> := [0x43, 0x44, 0x58, 0x20, 0x4d, 0x69, 0x6e, 0x65, 0x72]

  function CoinbaseScript(h: nat): seq<byte>
    requires Width(h) < 256
  {
    HeightPush(h) + ([4, 0, 0, 0, 0] + ([9] + TAG))
  }

  lemma WidthOfHeight(h: nat)
    requires h < TWO_64 / 2
    ensures Width(h) <= 8 && (h != 0 ==> |CoinbaseScript(h)| == 16 + Width(h))
    ensures 2 <= |CoinbaseScript(h)| <= 100
  {
    Pow256Values();
    if Width(h) > 8 {
      PowGrows(8, Width(h) - 1);
    }
  }

  /** The push reads back as the height, a positive script number. */
  lemma PushDecodes(h: nat)
    requires Width(h) < 256
    ensures var p := HeightPush(h);
            if h == 0 then p == [0]
            else |p| > 1 && p[0] == |p| - 1 && FromLE(p[1..]) == h && p[|p| - 1] < 0x80
  {
    hide Pow256, FromLE, LE;
    ReadWrite(h, Width(h));
    TopBounds(LE(h, Width(h)));
    assert h != 0 ==> HeightPush(h)[1..] == LE(h, Width(h));
  }

  /** A byte string of the right width with the right value is the push. */
  lemma PushUnique(h: nat, p: seq<byte>)
    requires |p| >= 1 && FromLE(p) == h && 2 * h < Pow256(|p|)
    requires |p| > 1 ==> 2 * h >= Pow256(|p| - 1)
    ensures p == LE(h, Width(h))
  {
    hide Pow256, FromLE, LE;
    var n := Width(h);
    if |p| < n {
      PowGrows(|p|, n - 1);
    } else if |p| > n {
      PowGrows(n, |p| - 1);
    }
    WriteRead(p);
  }

  /** The loop that strips leading zero bytes and restores a clear sign bit. */
  method PushHeight(h: int64) returns (script: seq<byte>)
    requires h >= 0
    ensures Width(h) < 256 && script == HeightPush(h)
  {
    hide Pow256, FromLE, LE;
    WidthOfHeight(h);
    if h == 0 { return [0]; }
    var le := LE(h, 8);
    Pow256Values();
    ReadWrite(h, 8);
    var n := 8;
    assert le[..8] == le;
    while n > 1 && le[n - 1] == 0
      invariant 1 <= n <= 8 && FromLE(le[..n]) == h
    {
      TopByte(le[..n]);
      assert le[..n][..n - 1] == le[..n - 1];
      n := n - 1;
    }
    var bytes := le[..n];
    PushBytes(h, bytes);
    if bytes[n - 1] >= 0x80 { bytes := bytes + [0]; }
    return [|bytes|] + bytes;
  }

  /** A number's bytes without leading zeros, plus a zero where the sign bit is taken. */
  lemma PushBytes(h: nat, b: seq<byte>)
    requires b != [] && FromLE(b) == h && (|b| > 1 ==> b[|b| - 1] != 0)
    ensures (if b[|b| - 1] >= 0x80 then b + [0] else b) == LE(h, Width(h))
  {
    hide Pow256, FromLE, LE, Width;
    TopBounds(b);
    NextPlace(|b|);
    if b[|b| - 1] >= 0x80 {
      TopSnoc(b, 0);
      PushUnique(h, b + [0]);
    } else {
      NextPlace(|b| - 1);
      PushUnique(h, b);
    }
  }

  lemma TopBounds(b: seq<byte>)
    requires b != []
    ensures b[|b| - 1] >= 0x80 ==> 2 * FromLE(b) >= Pow256(|b|)
    ensures b[|b| - 1] < 0x80 ==> 2 * FromLE(b) < Pow256(|b|)
    ensures b[|b| - 1] > 0 ==> FromLE(b) >= Pow256(|b| - 1)
  {
    TopByte(b);
    assert Pow256(|b|) == 256 * Pow256(|b| - 1);
    Digit(FromLE(b[..|b| - 1]), b[|b| - 1], Pow256(|b| - 1));
  }

  lemma Digit(low: nat, top: nat, p: nat)
    requires low < p
    ensures top >= 0x80 ==> 2 * (low + top * p) >= 256 * p
    ensures top < 0x80 ==> 2 * (low + top * p) < 256 * p
    ensures top > 0 ==> low + top * p >= p
  {
    if top >= 0x80 {
      Arith.MulMono(p, 0x80, top);
    } else {
      Arith.MulMono(p, top, 0x7f);
    }
    if top > 0 {
      Arith.MulMono(p, 1, top);
    }
  }

  function Coinbase(height: nat, value: int64, script: seq<byte>): Transaction
    requires Width(height) < 256
  {
    Transaction(1, [TxIn(OutPoint(0, NULL_INDEX), CoinbaseScript(height), 0xffff_ffff)], [TxOut(value, script)], 0)
  }

  lemma CoinbaseChecks(height: nat, value: int64, script: seq<byte>)
    requires height < TWO_64 / 2 && 0 <= value <= MAX_MONEY
    ensures Width(height) < 256
    ensures var cb := Coinbase(height, value, script);
            cb.IsCoinBase() && WellFormed(cb) && SumOut(cb.vout) == value
  {
    hide CoinbaseScript;
    WidthOfHeight(height);
    var cb := Coinbase(height, value, script);
    assert cb.vout == [] + [cb.vout[0]];
    SumOutSnoc([], cb.vout[0]);
  }

  /** Coinbases of different heights never serialize alike, whatever they pay. */
  lemma CoinbaseDistinct(a: nat, b: nat, v: int64, w: int64, s: seq<byte>, t: seq<byte>)
    requires a < TWO_64 / 2 && b < TWO_64 / 2 && |s| < TWO_64 && |t| < TWO_64
    requires Width(a) < 256 && Width(b) < 256
    requires SerTx(Coinbase(a, v, s)) == SerTx(Coinbase(b, w, t))
    ensures a == b && v == w && s == t
  {
    hide SerTx, CoinbaseScript;
    WidthOfHeight(a);
    WidthOfHeight(b);
    var x, y := Coinbase(a, v, s), Coinbase(b, w, t);
    SerTxInjective(x, y);
    assert x.vin[0] == y.vin[0] && x.vout[0] == y.vout[0];
    ScriptDistinct(a, b);
  }

  lemma ScriptDistinct(a: nat, b: nat)
    requires Width(a) <= 8 && Width(b) <= 8 && CoinbaseScript(a) == CoinbaseScript(b)
    ensures a == b
  {
    var x, y := CoinbaseScript(a), CoinbaseScript(b);
    assert x[0] == if a == 0 then 0 else Width(a);
    assert y[0] == if b == 0 then 0 else Width(b);
    if a != 0 && b != 0 {
      assert x[1..1 + Width(a)] == LE(a, Width(a));
      assert y[1..1 + Width(b)] == LE(b, Width(b));
      ReadWrite(a, Width(a));
      ReadWrite(b, Width(b));
    }
  }

  // ------------------------------------------------------------ the template

  /** CreateCandidateBlock. The paid script is a parameter: building it decodes an address. */
  function Candidate(c: Crypto, pool: Pool, ids: seq<Hash>, view: View, height: nat, bits: uint32,
                     timestamp: uint32, prevHash: Hash, script: seq<byte>): Block
    requires Pooled(pool, ids) && Width(height) < 256 && ClaimFits(c, pool, ids, view, height)
  {
    var txs := Select(c, pool, ids, view, height);
    var vtx := [Coinbase(height, Rewards.Subsidy(height) + FeeSum(view, txs), script)] + txs;
    Block(BlockHeader(1, prevHash, Merkle.MerkleRoot(c, Merkle.TxIds(c, vtx)), timestamp, bits, 0), vtx)
  }

  predicate ClaimFits(c: Crypto, pool: Pool, ids: seq<Hash>, view: View, height: nat)
    requires Pooled(pool, ids)
  {
    var claim := Rewards.Subsidy(height) + FeeSum(view, Select(c, pool, ids, view, height));
    0 <= claim < 0x8000_0000_0000_0000
  }

  /** At most 500 fees of at most the whole money each: the 64-bit claim never overflows. */
  lemma ClaimInRange(c: Crypto, pool: Pool, ids: seq<Hash>, view: View, height: nat)
    requires Agrees(c, pool) && Pooled(pool, ids)
    ensures ClaimFits(c, pool, ids, view, height)
    ensures 0 <= FeeSum(view, Select(c, pool, ids, view, height)) <= TEMPLATE_LIMIT * MAX_MONEY
  {
    hide Agrees, Select, FeeSum, Rewards.Subsidy;
    FeesInRange(c, pool, ids, view, height);
    SelectedCount(c, pool, ids, view, height);
  }

  lemma {:induction false} FeesInRange(c: Crypto, pool: Pool, ids: seq<Hash>, view: View, height: nat)
    requires Agrees(c, pool) && Pooled(pool, ids)
    ensures var txs := Select(c, pool, ids, view, height);
            0 <= FeeSum(view, txs) <= |txs| * MAX_MONEY
  {
    hide Agrees, InputsOk, Fee, FeeSum, WellFormed;
    if ids == [] {
      assert FeeSum(view, []) == 0 by { NoFees(view); }
    } else {
      var init, tx := ids[..|ids| - 1], pool.txs[ids[|ids| - 1]].tx;
      FeesInRange(c, pool, init, view, height);
      EntryFacts(c, pool, ids[|ids| - 1]);
      var before := Select(c, pool, init, view, height);
      FeeSumSnoc(view, before, tx);
      if InputsOk(c, tx, view, height) {
        FeeInRange(c, tx, view, height);
      }
    }
  }

  lemma NoFees(view: View)
    ensures FeeSum(view, []) == 0
  {
  }

  lemma FeeInRange(c: Crypto, tx: Transaction, view: View, height: nat)
    requires WellFormed(tx) && InputsOk(c, tx, view, height)
    ensures 0 <= Fee(view, tx) <= MAX_MONEY
  {
    hide InputOk, InSum, DistinctInputs;
    SumOutMonotone(tx.vout, 0);
    assert tx.vout[..0] == [];
  }

  /** The fees of a valid selection are money that exists, so its claim is in the money
      range. */
  lemma ClaimIsMoney(c: Crypto, pool: Pool, ids: seq<Hash>, view: View, height: nat)
    requires Agrees(c, pool) && Pooled(pool, ids) && Ascending(ids) && Traced(pool, view)
    requires SaneView(view) && Total(view) <= Rewards.SupplyBefore(height)
    ensures Rewards.Subsidy(height) + FeeSum(view, Select(c, pool, ids, view, height)) <= MAX_MONEY
  {
    hide Total, Agrees, Traced, Select, FeeSum, SaneView, ConnectTxs, Rewards.Subsidy;
    SelectionConnects(c, pool, ids, view, height);
    FeesBounded(c, Select(c, pool, ids, view, height), height, view);
    Rewards.SupplyCap(height + 1);
  }

  /** Template completeness: whatever the pool holds, the block the miner builds passes
      every check of the validator, with exactly the fees the miner claims, and pays out
      all it may. */
  lemma TemplateIsValid(c: Crypto, pool: Pool, ids: seq<Hash>, view: View, height: nat, bits: uint32,
                        timestamp: uint32, prevHash: Hash, script: seq<byte>)
    requires Agrees(c, pool) && Pooled(pool, ids) && Ascending(ids) && Traced(pool, view)
    requires SaneView(view) && Total(view) <= Rewards.SupplyBefore(height) && height < TWO_64 / 2
    ensures Width(height) < 256 && ClaimFits(c, pool, ids, view, height)
    ensures var blk := Candidate(c, pool, ids, view, height, bits, timestamp, prevHash, script);
            var fees := FeeSum(view, Select(c, pool, ids, view, height));
            && ConnectBlock(c, blk, height, view).Some?
            && ConnectBlock(c, blk, height, view).value.fees == fees
            && SumOut(blk.vtx[0].vout) == Rewards.Subsidy(height) + fees <= MAX_MONEY
  {
    hide Total, Agrees, Traced, Select, FeeSum, SaneView, ConnectTxs, Rewards.Subsidy, SerTx, CoinbaseScript,
         Merkle.MerkleRoot, TxId;
    ClaimInRange(c, pool, ids, view, height);
    ClaimIsMoney(c, pool, ids, view, height);
    WidthOfHeight(height);
    SelectionConnects(c, pool, ids, view, height);
    SelectedCount(c, pool, ids, view, height);
    var blk := Candidate(c, pool, ids, view, height, bits, timestamp, prevHash, script);
    assert blk.vtx[1..] == Select(c, pool, ids, view, height);
    CoinbaseChecks(height, Rewards.Subsidy(height) + FeeSum(view, blk.vtx[1..]), script);
  }

  /** The selection loop, left as soon as the limit is reached. */
  method Choose(c: Crypto, pool: Pool, order: seq<Hash>, view: View, height: nat) returns (txs: seq<Transaction>, sum: int64)
    requires Agrees(c, pool) && Pooled(pool, order) && SaneView(view)
    ensures txs == Select(c, pool, order, view, height) && sum == FeeSum(view, txs)
  {
    hide Agrees, SaneView, TxId, InputsOk, Fee, WellFormed, FeeSum;
    txs, sum := [], 0;
    NoFees(view);
    var i := 0;
    while i < |order| && |txs| < TEMPLATE_LIMIT
      invariant 0 <= i <= |order|
      invariant txs == Select(c, pool, order[..i], view, height) && sum == FeeSum(view, txs)
    {
      var tx := pool.txs[order[i]].tx;
      EntryFacts(c, pool, order[i]);
      assert order[..i + 1][..i] == order[..i];
      var ok, fee := CheckTxInputs(c, tx, view, height);
      ClaimInRange(c, pool, order[..i + 1], view, height);
      if ok {
        FeeSumSnoc(view, txs, tx);
        sum := sum + fee;
        txs := txs + [tx];
      }
      i := i + 1;
    }
    SelectFull(c, pool, order, i, view, height);
  }

  /** The template: order, filter, limit, fee total, coinbase and root. */
  method CreateCandidateBlock(c: Crypto, pool: Pool, view: View, height: int64, bits: uint32, timestamp: uint32,
                              prevHash: Hash, script: seq<byte>) returns (blk: Block, fees: int64)
    requires Agrees(c, pool) && SaneView(view) && height >= 0
    ensures var ids := Sorted(pool.txs.Keys);
            && Width(height) < 256 && ClaimFits(c, pool, ids, view, height)
            && blk == Candidate(c, pool, ids, view, height, bits, timestamp, prevHash, script)
    ensures |blk.vtx| > 0 && TakesFirst(c, pool, view, height, blk.vtx[1..]) && fees == FeeSum(view, blk.vtx[1..])
    ensures var cb := blk.vtx[0];
            cb.IsCoinBase() && cb.vout == [TxOut(Rewards.Subsidy(height) + fees, script)]
    ensures blk.header == BlockHeader(1, prevHash, blk.header.merkleRoot, timestamp, bits, 0)
            && Merkle.MerkleRootMatches(c, blk)
  {
    hide Total, Agrees, Traced, SaneView, Rewards.Subsidy, SerTx, CoinbaseScript, Merkle.MerkleRoot, TxId,
         Select, FeeSum, HeightPush, Width, Ascending, TakesFirst, Merkle.Tree, Merkle.Depth, InputsOk, Sorted, Coinbase,
         ClaimFits;
    var order := GetTxs(pool);
    SelectTakesFirst(c, pool, view, height);
    ClaimInRange(c, pool, order, view, height);
    WidthOfHeight(height);
    var txs, sum := Choose(c, pool, order, view, height);
    fees := sum;
    var claim: int64 := Rewards.Subsidy(height) + sum;
    var coinbase := BuildCoinbase(height, claim, script);
    var vtx := [coinbase] + txs;
    var root := Merkle.ComputeMerkleRoot(c, Merkle.TxIds(c, vtx));
    blk := Block(BlockHeader(1, prevHash, root, timestamp, bits, 0), vtx);
    assert blk.vtx[1..] == txs;
  }

  /** The coinbase of a template: the height pushed first, then four bytes for an extra nonce
      and the miner's tag. */
  method BuildCoinbase(height: int64, claim: int64, script: seq<byte>) returns (cb: Transaction)
    requires height >= 0
    ensures Width(height) < 256 && cb == Coinbase(height, claim, script)
    ensures cb.IsCoinBase() && cb.vout == [TxOut(claim, script)]
    ensures cb.vin[0].scriptSig == HeightPush(height) + ([4, 0, 0, 0, 0] + ([9] + Framing.Ascii("CDX Miner")))
  {
    hide HeightPush, Width;
    assert TAG == Framing.Ascii("CDX Miner");
    var push := PushHeight(height);
    cb := Transaction(1, [TxIn(OutPoint(0, NULL_INDEX), push + ([4, 0, 0, 0, 0] + ([9] + TAG)), 0xffff_ffff)],
                      [TxOut(claim, script)], 0);
  }

  /** Stopping at the limit, or at the end, gives the whole selection. */
  lemma {:induction false} SelectFull(c: Crypto, pool: Pool, ids: seq<Hash>, i: nat, view: View, height: nat)
    requires Pooled(pool, ids) && i <= |ids|
    requires i == |ids| || |Select(c, pool, ids[..i], view, height)| >= TEMPLATE_LIMIT
    ensures Select(c, pool, ids, view, height) == Select(c, pool, ids[..i], view, height)
  {
    hide InputsOk;
    if i == |ids| {
      assert ids[..i] == ids;
    } else {
      var init := ids[..|ids| - 1];
      assert init[..i] == ids[..i];
      if i < |init| {
        SelectFull(c, pool, init, i, view, height);
      } else {
        assert init == ids[..i];
      }
    }
  }

  // ------------------------------------------------------------ the search

  /** The k-th header tried: nonces in order, and one second more each time they run out. */
  function Attempt(hdr: BlockHeader, k: nat): BlockHeader {
    hdr.(timestamp := (hdr.timestamp + k / TWO_32) % TWO_32, nonce := k % TWO_32)
  }

  /** Overwriting bytes 76 to 79 of a serialized header sets the nonce and nothing else. */
  lemma PatchNonce(hdr: BlockHeader, nonce: uint32)
    ensures SerHeader(hdr)[..76] + LE(nonce, 4) == SerHeader(hdr.(nonce := nonce))
  {
    hide LE;
  }

  /** None of the first n attempts meets the target. */
  predicate Missed(c: Crypto, hdr: BlockHeader, target: Hash, n: nat) {
    forall j :: 0 <= j < n ==> HeaderHash(c, Attempt(hdr, j)) > target
  }

  predicate FirstHit(c: Crypto, hdr: BlockHeader, target: Hash, k: nat) {
    HeaderHash(c, Attempt(hdr, k)) <= target && Missed(c, hdr, target, k)
  }

  /** The loop over the 80-byte buffer, polled for a stop request before each attempt: it
      finds the first attempt that meets the target. */
  method Mine(c: Crypto, hdr: BlockHeader, target: Hash, polls: nat) returns (r: Option<BlockHeader>)
    ensures r.None? ==> Missed(c, hdr, target, polls)
    ensures r.Some? ==> exists k :: 0 <= k < polls && FirstHit(c, hdr, target, k) && r.value == Attempt(hdr, k)
  {
    hide SerHeader, LE;
    var cur := hdr;
    var buf := new byte[80](i => 0);
    Fill(buf, SerHeader(cur));
    var nonce: uint32 := 0;
    for n := 0 to polls
      invariant nonce == n % TWO_32
      invariant cur.(nonce := nonce) == Attempt(hdr, n)
      invariant buf[..76] == SerHeader(cur)[..76]
      invariant Missed(c, hdr, target, n)
    {
      var b := LE(nonce, 4);
      buf[76], buf[77], buf[78], buf[79] := b[0], b[1], b[2], b[3];
      PatchNonce(cur, nonce);
      assert buf[..] == buf[..76] + b;
      var hash := c.sha256d(buf[..]);
      assert hash == HeaderHash(c, Attempt(hdr, n));
      if hash <= target {
        assert FirstHit(c, hdr, target, n);
        return Some(cur.(nonce := nonce));
      }
      NextAttempt(hdr, n);
      nonce := (nonce + 1) % TWO_32;
      if nonce == 0 {
        cur := cur.(timestamp := (cur.timestamp + 1) % TWO_32);
        Fill(buf, SerHeader(cur));
      }
    }
    r := None;
  }

  method Fill(buf: array<byte>, bytes: seq<byte>)
    requires buf.Length == |bytes|
    modifies buf
    ensures buf[..] == bytes
  {
    for i := 0 to |bytes|
      invariant buf[..i] == bytes[..i]
    {
      buf[i] := bytes[i];
    }
  }

  lemma NextAttempt(hdr: BlockHeader, n: nat)
    ensures (n + 1) % TWO_32 == (n % TWO_32 + 1) % TWO_32
    ensures var t := Attempt(hdr, n).timestamp;
            Attempt(hdr, n + 1).timestamp == if (n + 1) % TWO_32 == 0 then (t + 1) % TWO_32 else t
  {
    var q, m := n / TWO_32, n % TWO_32;
    if m + 1 < TWO_32 {
      assert (n + 1) / TWO_32 == q && (n + 1) % TWO_32 == m + 1;
    } else {
      assert (n + 1) / TWO_32 == q + 1 && (n + 1) % TWO_32 == 0;
    }
  }

  /** The k-th header tried for the template on top of the tip extends the chain if and only
      if the given time, one second later after every 2^32 attempts, is later than the tip's,
      the header meets a nonzero target, and it is new. */
  ghost predicate MinedExtendsIff(c: Crypto, params: Params, s: Chain.State, pool: Pool, ids: seq<Hash>,
                                  timestamp: uint32, script: seq<byte>, k: nat)
    requires Compact.SaneParams(params)
  {
    && s.tipHash in s.blocks && Pooled(pool, ids) && Width(s.height + 1) < 256
    && ClaimFits(c, pool, ids, s.view, s.height + 1)
    && (var tip := s.blocks[s.tipHash].header;
        var bits := Chain.ExpectedBits(params, s.byHeight, s.blocks, tip, s.height);
        var cand := Candidate(c, pool, ids, s.view, s.height + 1, bits, timestamp, s.tipHash, script);
        var blk := cand.(header := Attempt(cand.header, k));
        Chain.TryAccept(c, params, s, blk).1.Extended?
        <==> && (timestamp + k / 0x1_0000_0000) % 0x1_0000_0000 > tip.timestamp
             && Compact.CheckProofOfWork(HeaderHash(c, blk.header), bits)
             && BlockHash(c, blk) !in s.index)
  }

  /** End to end, in any state that satisfies the chain invariant. */
  lemma MinedBlockExtends(c: Crypto, params: Params, g: Hash, s: Chain.State, pool: Pool, ids: seq<Hash>,
                          timestamp: uint32, script: seq<byte>, k: nat)
    requires Compact.SaneParams(params) && Chain.Inv(c, params, g, s) && s.height + 1 < TWO_64 / 2
    requires Agrees(c, pool) && Pooled(pool, ids) && Ascending(ids) && Traced(pool, s.view)
    ensures MinedExtendsIff(c, params, s, pool, ids, timestamp, script, k)
  {
    hide Total, Agrees, Traced, SaneView, Chain.ExpectedBits, Chain.Replay, Compact.CheckProofOfWork,
         Compact.BlockWork, HeaderHash, Chain.EntryOk, ConnectBlock, Candidate, ClaimFits, Rewards.SupplyBefore,
         Chain.HeaderOk, Attempt;
    Chain.ActiveTip(c, params, g, s);
    Runs.ReplaySupply(c, Chain.BlocksOf(s.blocks, s.byHeight));
    var tip := s.blocks[s.tipHash].header;
    var bits := Chain.ExpectedBits(params, s.byHeight, s.blocks, tip, s.height);
    TemplateIsValid(c, pool, ids, s.view, s.height + 1, bits, timestamp, s.tipHash, script);
    var cand := Candidate(c, pool, ids, s.view, s.height + 1, bits, timestamp, s.tipHash, script);
    AttemptKeeps(c, cand, k, s.height + 1, s.view);
    assert Chain.EntryOk(c, s.index, s.blocks, g, s.tipHash);
    TipHashed(c, s, g);
    CandidateHeader(c, pool, ids, s.view, s.height + 1, bits, timestamp, s.tipHash, script);
    HeaderCase(c, params, Attempt(cand.header, k), tip);
    AttemptIs(cand.header, k);
  }

  /** Lengths of transactions offered to the pool fit their 64-bit fields: all that can arrive. */
  ghost predicate OpsFit(ops: seq<Mempool.Op>) {
    forall op <- ops :: op.SubmitTx? ==> TxFits(op.tx)
  }

  ghost predicate PoolFits(pool: Pool) {
    forall id :: id in pool.txs ==> TxFits(pool.txs[id].tx)
  }

  lemma {:induction false} RunPoolFits(c: Crypto, ops: seq<Mempool.Op>)
    requires OpsFit(ops)
    ensures PoolFits(Mempool.Run(c, ops))
  {
    hide TxFits, Mempool.Apply;
    if ops != [] {
      RunPoolFits(c, ops[..|ops| - 1]);
      var op := ops[|ops| - 1];
      assert op in ops;
      Mempool.RunAgrees(c, ops[..|ops| - 1]);
      ApplyFits(c, Mempool.Run(c, ops[..|ops| - 1]), op);
    }
  }

  lemma ApplyFits(c: Crypto, pool: Pool, op: Mempool.Op)
    requires Agrees(c, pool) && PoolFits(pool) && (op.SubmitTx? ==> TxFits(op.tx))
    ensures PoolFits(Mempool.Apply(c, pool, op))
  {
    hide TxFits, Agrees, TxId, Acceptable, SerTx, WithoutConflicts, RemoveEach, Stale;
    match op
    case SubmitTx(tx, view, height, now) =>
    case RemoveTx(id) =>
    case Confirm(vin) => RemoveConflictsExact(c, pool, vin);
    case Purge(view, height, order) => RemoveEachAgrees(c, pool, order);
    case Clear =>
  }

  /** Every coin of the view having been paid under its id, a pool is traced, or there is a
      collision. */
  lemma TracedOrCollision(c: Crypto, pool: Pool, view: View) returns (x: seq<byte>, y: seq<byte>)
    requires Agrees(c, pool) && PoolFits(pool) && Provenance.AllPaid(c, view)
    ensures Traced(pool, view) || Merkle.Collision(c, x, y)
  {
    hide Agrees, TxFits, WellFormed, TxId, Merkle.Collision, Provenance.Echoes, Provenance.Paid;
    x, y := [], [];
    if a, b, o :| a in pool.txs && b in pool.txs && o in Prevouts(pool.txs[b].tx.vin) && o in view
                  && Creates(a, pool.txs[a].tx, o) && !Provenance.Echoes(pool.txs[a].tx, o, view[o]) {
      EntryFacts(c, pool, a);
      x, y := Provenance.EchoesOrCollision(c, pool.txs[a].tx, o, view[o]);
    }
  }

  /** The same over joint runs of chain and pool, whatever blocks, restarts and pool
      operations led here: or here is a collision of the hash. */
  lemma EveryRunMines(c: Crypto, params: Params, g: Block, events: seq<Runs.Event>, ops: seq<Mempool.Op>,
                      timestamp: uint32, script: seq<byte>, k: nat) returns (x: seq<byte>, y: seq<byte>)
    requires Compact.SaneParams(params) && Chain.GenesisState(c, g).Some? && Provenance.Fits(g, events) && OpsFit(ops)
    requires Runs.Run(c, params, g, events).height + 1 < TWO_64 / 2
    ensures var s, pool := Runs.Run(c, params, g, events), Mempool.Run(c, ops);
            || MinedExtendsIff(c, params, s, pool, Sorted(pool.txs.Keys), timestamp, script, k)
            || Merkle.Collision(c, x, y)
  {
    hide Chain.Inv, Agrees, Traced, Chain.GenesisState, Runs.Run, Mempool.Run, MinedExtendsIff, OpsFit, PoolFits,
         Provenance.Fits, Provenance.AllPaid, Merkle.Collision, HeaderHash;
    var s, pool := Runs.Run(c, params, g, events), Mempool.Run(c, ops);
    Runs.RunInv(c, params, g, events);
    Mempool.RunAgrees(c, ops);
    RunPoolFits(c, ops);
    Provenance.RunPaid(c, params, g, events);
    x, y := TracedOrCollision(c, pool, s.view);
    if Traced(pool, s.view) {
      MinedBlockExtends(c, params, BlockHash(c, g), s, pool, Sorted(pool.txs.Keys), timestamp, script, k);
    }
  }

  lemma TipHashed(c: Crypto, s: Chain.State, g: Hash)
    requires s.tipHash in s.index && Chain.EntryOk(c, s.index, s.blocks, g, s.tipHash)
    ensures s.tipHash in s.blocks && HeaderHash(c, s.blocks[s.tipHash].header) == s.tipHash
  {
  }

  lemma CandidateHeader(c: Crypto, pool: Pool, ids: seq<Hash>, view: View, height: nat, bits: uint32,
                        timestamp: uint32, prevHash: Hash, script: seq<byte>)
    requires Pooled(pool, ids) && Width(height) < 256 && ClaimFits(c, pool, ids, view, height)
    ensures var hdr := Candidate(c, pool, ids, view, height, bits, timestamp, prevHash, script).header;
            hdr.prevBlockHash == prevHash && hdr.bits == bits && hdr.timestamp == timestamp
  {
  }

  /** What is tried: nonces 0, 1, 2 and so on, and a second later after every 2^32 of them. */
  lemma AttemptIs(hdr: BlockHeader, k: nat)
    ensures var a := Attempt(hdr, k);
            && a.nonce == k % 0x1_0000_0000 && a.timestamp == (hdr.timestamp + k / 0x1_0000_0000) % 0x1_0000_0000
            && a.(nonce := 0, timestamp := 0) == hdr.(nonce := 0, timestamp := 0)
  {
  }

  lemma HeaderCase(c: Crypto, params: Params, hdr: BlockHeader, tip: BlockHeader)
    requires hdr.prevBlockHash == HeaderHash(c, tip)
    ensures Chain.HeaderOk(c, params, hdr, Some(tip))
       <==> hdr.timestamp > tip.timestamp && Compact.CheckProofOfWork(HeaderHash(c, hdr), hdr.bits)
  {
  }

  /** Time and nonce are not read by block validation. */
  lemma AttemptKeeps(c: Crypto, blk: Block, k: nat, height: nat, view: View)
    ensures var b := blk.(header := Attempt(blk.header, k));
            && ConnectBlock(c, b, height, view) == ConnectBlock(c, blk, height, view)
            && b.header.prevBlockHash == blk.header.prevBlockHash && b.header.bits == blk.header.bits
  {
    hide ConnectTxs, Merkle.MerkleRoot, TxId, CoinbaseOk;
  }
}
