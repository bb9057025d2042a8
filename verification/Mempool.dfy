/** The memory pool: two maps that must agree, the operations on them, and the loops of
    the pool object.
 */
module Mempool {
  import opened Types
  import opened WireFormat
  import opened Ledger

  const MIN_FEE: int := 100

  datatype Entry = Entry(tx: Transaction, fee: int, time: int, height: int, sizeBytes: nat)

  /** txs: pooled transactions by id; spent: which pooled transaction spends an outpoint. */
  datatype Pool = Pool(txs: map<Hash, Entry>, spent: map<OutPoint, Hash>)

  const EMPTY: Pool := Pool(map[], map[])

  // ------------------------------------------------------------ operations

  /** AddUnchecked: refuses only a transaction already pooled. */
  function Add(c: Crypto, pool: Pool, tx: Transaction, fee: int, height: int, now: int): (Pool, bool) {
    var id := TxId(c, tx);
    if id in pool.txs then (pool, false)
    else (Pool(pool.txs[id := Entry(tx, fee, now, height, |SerTx(tx)|)],
               Claimed(pool.spent, Prevouts(tx.vin), id)), true)
  }

  /** Outpoints recorded as spent by id, overwriting earlier records. */
  function Claimed(spent: map<OutPoint, Hash>, outs: set<OutPoint>, id: Hash): map<OutPoint, Hash> {
    spent + map o | o in outs :: id
  }

  lemma ClaimMore(spent: map<OutPoint, Hash>, outs: set<OutPoint>, id: Hash)
    ensures Claimed(spent, {}, id) == spent
    ensures forall o :: Claimed(spent, outs, id)[o := id] == Claimed(spent, outs + {o}, id)
  {
  }

  /** CheckTx. */
  predicate Acceptable(c: Crypto, pool: Pool, tx: Transaction, view: View, height: nat) {
    && !tx.IsCoinBase()
    && WellFormed(tx)
    && Prevouts(tx.vin) !! pool.spent.Keys
    && InputsOk(c, tx, view, height)
    && Fee(view, tx) >= MIN_FEE
  }

  /** A transaction arriving from a peer or the wallet. */
  function Submit(c: Crypto, pool: Pool, tx: Transaction, view: View, height: nat, now: int): Pool {
    if TxId(c, tx) !in pool.txs && Acceptable(c, pool, tx, view, height)
    then Add(c, pool, tx, Fee(view, tx), height, now).0 else pool
  }

  function Without(pool: Pool, id: Hash): Pool {
    if id !in pool.txs then pool
    else Pool(pool.txs - {id},
              map o | o in pool.spent && !(pool.spent[o] == id && o in Prevouts(pool.txs[id].tx.vin)) :: pool.spent[o])
  }

  /** RemoveConflicts: each input in turn evicts its spender. */
  function WithoutConflicts(pool: Pool, vin: seq<TxIn>): Pool {
    if vin == [] then pool
    else
      var before := WithoutConflicts(pool, vin[..|vin| - 1]);
      var o := vin[|vin| - 1].prevout;
      if o in before.spent then Without(before, before.spent[o]) else before
  }

  predicate StillSpendable(view: View, height: nat, tx: Transaction) {
    forall i :: 0 <= i < |tx.vin| ==> tx.vin[i].prevout in view && view[tx.vin[i].prevout].IsSpendable(height)
  }

  function Stale(pool: Pool, view: View, height: nat): set<Hash> {
    set id | id in pool.txs && !StillSpendable(view, height, pool.txs[id].tx)
  }

  function RemoveEach(pool: Pool, ids: seq<Hash>): Pool {
    if ids == [] then pool else Without(RemoveEach(pool, ids[..|ids| - 1]), ids[|ids| - 1])
  }

  // ------------------------------------------------------------ agreement

  /** The spent map is exactly the map from each input of each pooled transaction to its
      id; every entry is under its own id, well formed, and no coinbase. */
  ghost predicate Agrees(c: Crypto, pool: Pool) {
    && (forall id :: id in pool.txs ==> EntryAgrees(c, pool, id))
    && (forall o :: o in pool.spent ==> SpenderAgrees(pool, o))
  }

  ghost predicate EntryAgrees(c: Crypto, pool: Pool, id: Hash)
    requires id in pool.txs
  {
    var tx := pool.txs[id].tx;
    && TxId(c, tx) == id && WellFormed(tx) && !tx.IsCoinBase()
    && forall o :: o in Prevouts(tx.vin) ==> o in pool.spent && pool.spent[o] == id
  }

  ghost predicate SpenderAgrees(pool: Pool, o: OutPoint)
    requires o in pool.spent
  {
    pool.spent[o] in pool.txs && o in Prevouts(pool.txs[pool.spent[o]].tx.vin)
  }

  /** No two pooled transactions share an input. */
  lemma PooledInputsDisjoint(c: Crypto, pool: Pool, a: Hash, b: Hash)
    requires Agrees(c, pool) && a in pool.txs && b in pool.txs && a != b
    ensures Prevouts(pool.txs[a].tx.vin) !! Prevouts(pool.txs[b].tx.vin)
  {
    hide TxId, WellFormed, Prevouts;
    assert EntryAgrees(c, pool, a) && EntryAgrees(c, pool, b);
  }

  /** Adding an unpooled transaction keeps the maps in agreement if and only if it is well
      formed, no coinbase, and spends nothing a pooled transaction spends: the check
      AddUnchecked leaves to its callers. */
  lemma AddAgreesIff(c: Crypto, pool: Pool, tx: Transaction, fee: int, height: int, now: int)
    requires Agrees(c, pool) && TxId(c, tx) !in pool.txs
    ensures Agrees(c, Add(c, pool, tx, fee, height, now).0)
       <==> WellFormed(tx) && !tx.IsCoinBase() && Prevouts(tx.vin) !! pool.spent.Keys
  {
    hide TxId, WellFormed, Prevouts, SerTx;
    var id, next := TxId(c, tx), Add(c, pool, tx, fee, height, now).0;
    if Agrees(c, next) {
      assert EntryAgrees(c, next, id);
      if o :| o in Prevouts(tx.vin) && o in pool.spent {
        assert SpenderAgrees(pool, o);
        SpenderIsEntry(c, next, pool.spent[o], o);
      }
    } else if WellFormed(tx) && !tx.IsCoinBase() && Prevouts(tx.vin) !! pool.spent.Keys {
      AddAgrees(c, pool, tx, fee, height, now);
    }
  }

  lemma SpenderIsEntry(c: Crypto, pool: Pool, id: Hash, o: OutPoint)
    requires Agrees(c, pool) && id in pool.txs && o in Prevouts(pool.txs[id].tx.vin)
    ensures o in pool.spent && pool.spent[o] == id
  {
    hide TxId, WellFormed, Prevouts;
    assert EntryAgrees(c, pool, id);
  }

  lemma AddAgrees(c: Crypto, pool: Pool, tx: Transaction, fee: int, height: int, now: int)
    requires Agrees(c, pool) && TxId(c, tx) !in pool.txs
    requires WellFormed(tx) && !tx.IsCoinBase() && Prevouts(tx.vin) !! pool.spent.Keys
    ensures Agrees(c, Add(c, pool, tx, fee, height, now).0)
  {
    hide TxId, WellFormed, Prevouts, SerTx;
    var id, next := TxId(c, tx), Add(c, pool, tx, fee, height, now).0;
    forall x | x in next.txs
      ensures EntryAgrees(c, next, x)
    {
      if x != id {
        assert EntryAgrees(c, pool, x);
      }
    }
    forall o | o in next.spent
      ensures SpenderAgrees(next, o)
    {
      if o !in Prevouts(tx.vin) {
        assert SpenderAgrees(pool, o);
      }
    }
  }

  lemma SubmitAgrees(c: Crypto, pool: Pool, tx: Transaction, view: View, height: nat, now: int)
    requires Agrees(c, pool)
    ensures Agrees(c, Submit(c, pool, tx, view, height, now))
  {
    hide TxId, WellFormed, InputsOk, Add, Agrees;
    if TxId(c, tx) !in pool.txs && Acceptable(c, pool, tx, view, height) {
      AddAgrees(c, pool, tx, Fee(view, tx), height, now);
    }
  }

  /** Admission, in terms of the pooled transactions: one that is not pooled is taken if and
      only if it is well formed, spends valid coins with a fee of at least 100, and shares no
      input with a pooled one. Nothing else in the pool changes. */
  lemma SubmitIff(c: Crypto, pool: Pool, tx: Transaction, view: View, height: nat, now: int)
    requires Agrees(c, pool) && TxId(c, tx) !in pool.txs
    ensures var next, id := Submit(c, pool, tx, view, height, now), TxId(c, tx);
            && (id in next.txs
                <==> && WellFormed(tx) && InputsOk(c, tx, view, height)
                     && InSum(view, tx.vin) >= SumOut(tx.vout) + 100
                     && forall other :: other in pool.txs ==> Prevouts(pool.txs[other].tx.vin) !! Prevouts(tx.vin))
            && (if id in next.txs then next.txs == pool.txs[id := Entry(tx, Fee(view, tx), now, height, |SerTx(tx)|)]
                else next == pool)
  {
    hide TxId, WellFormed, SerTx, Prevouts, InSum, SumOut, InputOk;
    if Prevouts(tx.vin) !! pool.spent.Keys {
      forall other | other in pool.txs ensures Prevouts(pool.txs[other].tx.vin) !! Prevouts(tx.vin) {
        assert EntryAgrees(c, pool, other);
      }
    } else {
      var o :| o in Prevouts(tx.vin) && o in pool.spent;
      assert SpenderAgrees(pool, o);
      assert o in Prevouts(pool.txs[pool.spent[o]].tx.vin) * Prevouts(tx.vin);
    }
  }

  /** A purge removes no transaction that a block could still take, and keeps one exactly
      while each of its coins exists and is not a coinbase younger than 120 blocks: what it
      does not look at are signatures and amounts. */
  lemma PurgeKeepsValid(c: Crypto, tx: Transaction, view: View, height: nat)
    ensures StillSpendable(view, height, tx)
       <==> forall o <- Prevouts(tx.vin) :: o in view && (view[o].isCoinbase ==> height >= view[o].height + 120)
    ensures InputsOk(c, tx, view, height)
       <==> && StillSpendable(view, height, tx) && !tx.IsCoinBase() && SumOut(tx.vout) <= InSum(view, tx.vin) <= MAX_MONEY
            && forall i :: 0 <= i < |tx.vin| ==> Signed(c, tx, view, i)
  {
    hide SignatureHash, InSum, SumOut;
    if StillSpendable(view, height, tx) && forall i :: 0 <= i < |tx.vin| ==> Signed(c, tx, view, i) {
      forall i | 0 <= i < |tx.vin| ensures InputOk(c, tx, view, height, i) {
        assert Signed(c, tx, view, i);
      }
    }
    if InputsOk(c, tx, view, height) {
      forall i | 0 <= i < |tx.vin| ensures Signed(c, tx, view, i) && view[tx.vin[i].prevout].IsSpendable(height) {
        assert InputOk(c, tx, view, height, i);
      }
    }
  }

  predicate Signed(c: Crypto, tx: Transaction, view: View, i: nat)
    requires i < |tx.vin|
  {
    tx.vin[i].prevout in view
    && (var script := view[tx.vin[i].prevout].scriptPubKey;
        c.verifyScript(tx.vin[i].scriptSig, script, SignatureHash(c, tx, i, script)))
  }

  /** Removing keeps agreement and frees exactly the removed transaction's inputs. */
  lemma RemoveAgrees(c: Crypto, pool: Pool, id: Hash)
    requires Agrees(c, pool)
    ensures var next := Without(pool, id);
            Agrees(c, next) && next.txs == pool.txs - {id}
            && next.spent.Keys == pool.spent.Keys - (if id in pool.txs then Prevouts(pool.txs[id].tx.vin) else {})
  {
    hide TxId, WellFormed, Prevouts;
    if id in pool.txs {
      var next := Without(pool, id);
      assert EntryAgrees(c, pool, id);
      forall x | x in next.txs
        ensures EntryAgrees(c, next, x)
      {
        assert EntryAgrees(c, pool, x);
      }
      forall o | o in next.spent
        ensures SpenderAgrees(next, o)
      {
        assert SpenderAgrees(pool, o);
      }
    } else {
      assert pool.txs - {id} == pool.txs;
    }
  }

  /** RemoveConflicts keeps precisely the transactions that spend none of the inputs. */
  lemma {:induction false} RemoveConflictsExact(c: Crypto, pool: Pool, vin: seq<TxIn>)
    requires Agrees(c, pool)
    ensures var next := WithoutConflicts(pool, vin);
            && Agrees(c, next)
            && next.txs.Keys == (set id | id in pool.txs && Prevouts(pool.txs[id].tx.vin) !! Prevouts(vin))
            && (forall id :: id in next.txs ==> next.txs[id] == pool.txs[id])
            && Prevouts(vin) !! next.spent.Keys
  {
    hide TxId, WellFormed;
    if vin != [] {
      var init, last := vin[..|vin| - 1], vin[|vin| - 1];
      assert vin == init + [last];
      PrevoutsSnoc(init, last);
      RemoveConflictsExact(c, pool, init);
      var before := WithoutConflicts(pool, init);
      hide Prevouts;
      ConflictStep(c, before, last.prevout);
      KeptTwice(pool, before, WithoutConflicts(pool, vin), Prevouts(init), last.prevout);
    }
  }

  ghost predicate SpendsNone(pool: Pool, id: Hash, spent: set<OutPoint>)
    requires id in pool.txs
  {
    Prevouts(pool.txs[id].tx.vin) !! spent
  }

  lemma ConflictStep(c: Crypto, pool: Pool, o: OutPoint)
    requires Agrees(c, pool)
    ensures var next := if o in pool.spent then Without(pool, pool.spent[o]) else pool;
            && Agrees(c, next) && o !in next.spent && next.spent.Keys <= pool.spent.Keys
            && (forall id :: id in next.txs <==> id in pool.txs && SpendsNone(pool, id, {o}))
            && (forall id :: id in next.txs ==> next.txs[id] == pool.txs[id])
  {
    hide TxId, WellFormed, Prevouts, Without;
    if o in pool.spent {
      assert SpenderAgrees(pool, o);
      var s := pool.spent[o];
      RemoveAgrees(c, pool, s);
      forall id | id in pool.txs
        ensures SpendsNone(pool, id, {o}) <==> id != s
      {
        assert EntryAgrees(c, pool, id);
      }
    } else {
      forall id | id in pool.txs
        ensures SpendsNone(pool, id, {o})
      {
        assert EntryAgrees(c, pool, id);
      }
    }
  }

  lemma KeptTwice(pool: Pool, before: Pool, next: Pool, s: set<OutPoint>, o: OutPoint)
    requires before.txs.Keys == (set id | id in pool.txs && Prevouts(pool.txs[id].tx.vin) !! s)
    requires forall id :: id in before.txs ==> before.txs[id] == pool.txs[id]
    requires forall id :: id in next.txs <==> id in before.txs && SpendsNone(before, id, {o})
    ensures next.txs.Keys == (set id | id in pool.txs && Prevouts(pool.txs[id].tx.vin) !! s + {o})
  {
    hide Prevouts;
    forall id
      ensures id in next.txs.Keys <==> id in pool.txs && Prevouts(pool.txs[id].tx.vin) !! s + {o}
    {
      if id in pool.txs {
        var p := Prevouts(pool.txs[id].tx.vin);
        assert p !! s + {o} <==> p !! s && p !! {o};
        if id in before.txs {
          assert SpendsNone(before, id, {o}) <==> p !! {o};
        }
      }
    }
  }

  lemma {:induction false} RemoveEachAgrees(c: Crypto, pool: Pool, ids: seq<Hash>)
    requires Agrees(c, pool)
    ensures Agrees(c, RemoveEach(pool, ids))
    ensures RemoveEach(pool, ids).txs == pool.txs - (set i | 0 <= i < |ids| :: ids[i])
  {
    hide Agrees, Without;
    if ids != [] {
      var init, last := ids[..|ids| - 1], ids[|ids| - 1];
      RemoveEachAgrees(c, pool, init);
      RemoveAgrees(c, RemoveEach(pool, init), last);
      assert (set i | 0 <= i < |ids| :: ids[i]) == (set i | 0 <= i < |init| :: init[i]) + {last} by {
        assert forall i :: 0 <= i < |init| ==> ids[i] == init[i];
      }
    } else {
      assert pool.txs - {} == pool.txs;
    }
  }

  // ------------------------------------------------------------ every run

  datatype Op = SubmitTx(tx: Transaction, view: View, height: nat, now: int) | RemoveTx(id: Hash)
              | Confirm(vin: seq<TxIn>) | Purge(view: View, height: nat, order: seq<Hash>) | Clear

  function Apply(c: Crypto, pool: Pool, op: Op): Pool {
    match op
    case SubmitTx(tx, view, height, now) => Submit(c, pool, tx, view, height, now)
    case RemoveTx(id) => Without(pool, id)
    case Confirm(vin) => WithoutConflicts(pool, vin)
    case Purge(view, height, order) =>
      if (set i | 0 <= i < |order| :: order[i]) == Stale(pool, view, height) then RemoveEach(pool, order) else pool
    case Clear => EMPTY
  }

  function Run(c: Crypto, ops: seq<Op>): Pool {
    if ops == [] then EMPTY else Apply(c, Run(c, ops[..|ops| - 1]), ops[|ops| - 1])
  }

  /** Index agreement over every run of pool operations, whatever views they see. */
  lemma {:induction false} RunAgrees(c: Crypto, ops: seq<Op>)
    ensures Agrees(c, Run(c, ops))
  {
    hide Submit, Without, WithoutConflicts, RemoveEach, Stale;
    if ops != [] {
      RunAgrees(c, ops[..|ops| - 1]);
      hide Agrees;
      var pool := Run(c, ops[..|ops| - 1]);
      match ops[|ops| - 1]
      case SubmitTx(tx, view, height, now) => SubmitAgrees(c, pool, tx, view, height, now);
      case RemoveTx(id) => RemoveAgrees(c, pool, id);
      case Confirm(vin) => RemoveConflictsExact(c, pool, vin);
      case Purge(view, height, order) => RemoveEachAgrees(c, pool, order);
      case Clear => EmptyAgrees(c);
    }
  }

  /** Every pooled transaction was admitted by a submission of the run, valid against the view
      it was checked with, and is recorded with its fee there, at least 100, and its size. */
  ghost predicate Admitted(c: Crypto, ops: seq<Op>, e: Entry) {
    exists k :: 0 <= k < |ops| && AdmittedBy(c, ops[k], e)
  }

  ghost predicate AdmittedBy(c: Crypto, op: Op, e: Entry) {
    && op.SubmitTx? && op.tx == e.tx && e.time == op.now && e.height == op.height && e.sizeBytes == |SerTx(e.tx)|
    && InputsOk(c, e.tx, op.view, op.height) && e.fee == Fee(op.view, e.tx) >= 100
  }

  lemma {:induction false} RunAdmits(c: Crypto, ops: seq<Op>, id: Hash)
    requires id in Run(c, ops).txs
    ensures TxId(c, Run(c, ops).txs[id].tx) == id && Admitted(c, ops, Run(c, ops).txs[id])
  {
    hide Apply, AdmittedBy, TxId, SerTx, WellFormed, Prevouts;
    RunAgrees(c, ops);
    assert EntryAgrees(c, Run(c, ops), id);
    var init, op := ops[..|ops| - 1], ops[|ops| - 1];
    var before, e := Run(c, init), Run(c, ops).txs[id];
    RunAgrees(c, init);
    ApplyKeeps(c, before, op, id);
    if id in before.txs && before.txs[id] == e {
      RunAdmits(c, init, id);
      var k :| 0 <= k < |init| && AdmittedBy(c, init[k], e);
      assert AdmittedBy(c, ops[k], e);
    } else {
      assert AdmittedBy(c, ops[|ops| - 1], e);
    }
  }

  /** An operation leaves an entry as it was, unless it is the submission that admits it. */
  lemma ApplyKeeps(c: Crypto, pool: Pool, op: Op, id: Hash)
    requires Agrees(c, pool) && id in Apply(c, pool, op).txs
    ensures var e := Apply(c, pool, op).txs[id];
            (id in pool.txs && pool.txs[id] == e) || AdmittedBy(c, op, e)
  {
    hide Agrees, TxId, SerTx, WellFormed, Prevouts, InputsOk, Fee, WithoutConflicts, RemoveEach, Stale;
    match op
    case SubmitTx(tx, view, height, now) =>
    case RemoveTx(x) =>
    case Confirm(vin) => RemoveConflictsExact(c, pool, vin);
    case Purge(view, height, order) => RemoveEachAgrees(c, pool, order);
    case Clear =>
  }

  lemma EmptyAgrees(c: Crypto)
    ensures Agrees(c, EMPTY)
  {
  }

  // ------------------------------------------------------------ the pool object

  class TxMemPool {
    const c: Crypto
    var mapTx: map<Hash, Entry>
    var mapPrevOut: map<OutPoint, Hash>

    ghost function Contents(): Pool
      reads this
    {
      Pool(mapTx, mapPrevOut)
    }

    ghost predicate Valid()
      reads this
    {
      Agrees(c, Contents())
    }

    constructor (c: Crypto)
      ensures Valid() && this.c == c && Contents() == EMPTY
    {
      this.c := c;
      mapTx, mapPrevOut := map[], map[];
    }

    /** AddUnchecked, with no more required than the source asks: the two maps afterwards
        are exactly those of Add, in agreement or not. */
    method AddUnchecked(tx: Transaction, fee: int, height: int, now: int) returns (added: bool)
      modifies this
      ensures (Contents(), added) == Add(c, old(Contents()), tx, fee, height, now)
    {
      hide TxId, SerTx, Prevouts, Claimed;
      var id := TxId(c, tx);
      if id in mapTx { return false; }
      mapTx := mapTx[id := Entry(tx, fee, now, height, |SerTx(tx)|)];
      ghost var txs, start := mapTx, mapPrevOut;
      assert Prevouts(tx.vin[..0]) == {};
      ClaimMore(start, {}, id);
      for i := 0 to |tx.vin|
        invariant mapTx == txs
        invariant mapPrevOut == Claimed(start, Prevouts(tx.vin[..i]), id)
      {
        assert tx.vin[..i + 1] == tx.vin[..i] + [tx.vin[i]];
        PrevoutsSnoc(tx.vin[..i], tx.vin[i]);
        ClaimMore(start, Prevouts(tx.vin[..i]), id);
        mapPrevOut := mapPrevOut[tx.vin[i].prevout := id];
      }
      assert tx.vin[..|tx.vin|] == tx.vin;
      added := true;
    }

    method CheckTx(tx: Transaction, view: View, height: nat) returns (ok: bool, fee: int64)
      requires SaneView(view)
      ensures ok == Acceptable(c, Contents(), tx, view, height)
      ensures ok ==> fee == Fee(view, tx)
    {
      hide WellFormed, InputsOk, Fee;
      fee := 0;
      if tx.IsCoinBase() { return false, 0; }
      ok := CheckTransaction(tx);
      if !ok { return; }
      for i := 0 to |tx.vin|
        invariant forall k :: 0 <= k < i ==> tx.vin[k].prevout !in mapPrevOut
      {
        if tx.vin[i].prevout in mapPrevOut { return false, 0; }
      }
      assert Prevouts(tx.vin) !! mapPrevOut.Keys;
      ok, fee := CheckTxInputs(c, tx, view, height);
      if ok && fee < MIN_FEE { return false, 0; }
    }

    /** A transaction from a peer: checked, then added. */
    method Accept(tx: Transaction, view: View, height: nat, now: int)
      requires Valid() && SaneView(view)
      modifies this
      ensures Valid() && Contents() == Submit(c, old(Contents()), tx, view, height, now)
    {
      hide Agrees, TxId, Acceptable, Add;
      SubmitAgrees(c, Contents(), tx, view, height, now);
      if TxId(c, tx) in mapTx { return; }
      var ok, fee := CheckTx(tx, view, height);
      if ok {
        var _ := AddUnchecked(tx, fee, height, now);
      }
    }

    method RemoveTx(id: Hash)
      requires Valid()
      modifies this
      ensures Valid() && Contents() == Without(old(Contents()), id)
    {
      hide Agrees;
      RemoveAgrees(c, Contents(), id);
      if id !in mapTx { return; }
      var vin := mapTx[id].tx.vin;
      for i := 0 to |vin|
        invariant mapTx == old(mapTx)
        invariant mapPrevOut == map o | o in old(mapPrevOut)
                                        && !(old(mapPrevOut)[o] == id && o in Prevouts(vin[..i])) :: old(mapPrevOut)[o]
      {
        assert vin[..i + 1] == vin[..i] + [vin[i]];
        PrevoutsSnoc(vin[..i], vin[i]);
        if vin[i].prevout in mapPrevOut && mapPrevOut[vin[i].prevout] == id {
          mapPrevOut := mapPrevOut - {vin[i].prevout};
        }
      }
      assert vin[..|vin|] == vin;
      mapTx := mapTx - {id};
    }

    /** Leaves no spender of the transaction's inputs and removes nothing else. */
    method RemoveConflicts(tx: Transaction)
      requires Valid()
      modifies this
      ensures Valid() && Contents() == WithoutConflicts(old(Contents()), tx.vin)
    {
      hide Agrees, Without;
      ghost var start := Contents();
      for i := 0 to |tx.vin|
        invariant Valid() && Contents() == WithoutConflicts(start, tx.vin[..i])
      {
        assert tx.vin[..i + 1][..i] == tx.vin[..i];
        if tx.vin[i].prevout in mapPrevOut {
          RemoveTx(mapPrevOut[tx.vin[i].prevout]);
        }
      }
      assert tx.vin[..|tx.vin|] == tx.vin;
    }

    /** Keeps precisely the transactions whose inputs are all present and spendable. */
    method RemoveSpent(view: View, height: nat) returns (removed: seq<Hash>)
      requires Valid()
      modifies this
      ensures Valid()
      ensures mapTx.Keys == set id | id in old(mapTx) && StillSpendable(view, height, old(mapTx)[id].tx)
      ensures forall id :: id in mapTx ==> mapTx[id] == old(mapTx)[id]
      ensures (set i | 0 <= i < |removed| :: removed[i]) == old(mapTx.Keys) - mapTx.Keys
    {
      hide Agrees, Without, StillSpendable;
      ghost var start := Contents();
      var toRemove := FindStale(view, height);
      removed := [];
      for i := 0 to |toRemove|
        invariant Valid() && removed == toRemove[..i] && Contents() == RemoveEach(start, toRemove[..i])
      {
        assert toRemove[..i + 1][..i] == toRemove[..i];
        RemoveTx(toRemove[i]);
        removed := removed + [toRemove[i]];
      }
      assert toRemove[..|toRemove|] == toRemove;
      RemoveEachAgrees(c, start, toRemove);
    }

    method FindStale(view: View, height: nat) returns (stale: seq<Hash>)
      ensures forall id :: id in stale <==> id in mapTx && !StillSpendable(view, height, mapTx[id].tx)
    {
      hide StillSpendable;
      stale := [];
      var rest := mapTx.Keys;
      while rest != {}
        invariant rest <= mapTx.Keys
        invariant forall id :: id in stale <==> id in mapTx.Keys - rest && !StillSpendable(view, height, mapTx[id].tx)
        decreases |rest|
      {
        var id :| id in rest;
        var ok := Spendable(mapTx[id].tx, view, height);
        if !ok {
          stale := stale + [id];
        }
        rest := rest - {id};
      }
    }

    method Spendable(tx: Transaction, view: View, height: nat) returns (ok: bool)
      ensures ok == StillSpendable(view, height, tx)
    {
      for i := 0 to |tx.vin|
        invariant forall k :: 0 <= k < i ==> tx.vin[k].prevout in view && view[tx.vin[k].prevout].IsSpendable(height)
      {
        if tx.vin[i].prevout !in view || !view[tx.vin[i].prevout].IsSpendable(height) { return false; }
      }
      ok := true;
    }
  }
}
